/**
 * The content-management panel of the admin area: a tree of modules whose
 * nodes expand and collapse, each module's videos grouped by category, and a
 * confirmed delete of one video or document.
 */
module ContentManagement {
  import opened Types
  import opened Http
  import opened Collections
  import Storage

  // ------------------------------------------------------ expanded sets

  /** A copy of `s` with the membership of `x` flipped (`has` ? `delete` : `add`). */
  function Toggle(s: set<string>, x: string): set<string> {
    if x in s then s - {x} else s + {x}
  }

  /** Toggling flips the membership of `x` and of nothing else. */
  lemma ToggleFlipsOnlyItsKey(s: set<string>, x: string)
    ensures x in Toggle(s, x) <==> x !in s
    ensures forall y :: y != x ==> (y in Toggle(s, x) <==> y in s)
  {
  }

  /** Toggling the same key twice restores the set. */
  lemma ToggleTwiceRestores(s: set<string>, x: string)
    ensures Toggle(Toggle(s, x), x) == s
  {
  }

  /** The key a category node is remembered under: `${moduleId}-${category}`. */
  function CategoryKey(moduleId: string, category: string): string {
    moduleId + "-" + category
  }

  /**
   * Keys of different nodes differ as long as module ids contain no dash, as
   * with the department codes the portal uses.
   */
  lemma CategoryKeyInjective(m1: string, c1: string, m2: string, c2: string)
    requires '-' !in m1 && '-' !in m2
    requires CategoryKey(m1, c1) == CategoryKey(m2, c2)
    ensures m1 == m2 && c1 == c2
  {
    var k := CategoryKey(m1, c1);
    CategoryKeyLayout(m1, c1);
    CategoryKeyLayout(m2, c2);
    if |m1| < |m2| {
      assert false;
    } else if |m2| < |m1| {
      assert false;
    }
    assert m1 == k[..|m1|] == m2;
    assert c1 == k[|m1| + 1..] == c2;
  }

  lemma CategoryKeyLayout(m: string, c: string)
    ensures |CategoryKey(m, c)| == |m| + 1 + |c|
    ensures CategoryKey(m, c)[|m|] == '-'
    ensures forall i :: 0 <= i < |m| ==> CategoryKey(m, c)[i] == m[i]
  {
  }

  /** With a dash in a module id, two different nodes share a key. */
  lemma CategoryKeysCollideWithDashedIds()
    ensures CategoryKey("A-B", "C") == CategoryKey("A", "B-C")
  {
  }

  // ---------------------------------------------------------- grouping

  /** The videos filed under category `c`. */
  function FiledUnder(c: string): Video -> bool {
    (v: Video) => CategoryOf(v) == c
  }

  /** The group of category `c`: its videos in their original order. */
  function InCategory(vs: seq<Video>, c: string): seq<Video> {
    Filter(vs, FiledUnder(c))
  }

  /**
   * getGroupedVideos: one group per category that occurs, holding exactly
   * that category's videos in their original order. The object it fills is
   * a map together with its keys in insertion order, the order in which
   * `Object.entries` later lists the groups: the order in which each
   * category first occurs.
   */
  method GroupedVideos(m: LearningModule) returns (groups: map<string, seq<Video>>, order: seq<string>)
    ensures forall c :: c in groups <==> c in Categories(m.videos)
    ensures forall c :: c in groups ==> groups[c] == InCategory(m.videos, c)
    ensures order == Dedupe(Categories(m.videos))
    ensures forall c :: c in order <==> c in groups
  {
    groups := map[];
    order := [];
    var i := 0;
    while i < |m.videos|
      invariant 0 <= i <= |m.videos|
      invariant GroupedAs(m.videos[..i], groups, order)
    {
      var video := m.videos[i];
      var cat := CategoryOf(video);
      assert m.videos[..i + 1] == m.videos[..i] + [video];
      GroupStep(m.videos[..i], video, groups, order);
      if cat !in groups {
        groups := groups[cat := []];
        order := order + [cat];
      }
      groups := groups[cat := groups[cat] + [video]];
      i := i + 1;
    }
    assert m.videos[..i] == m.videos;
  }

  /** `groups` and its key order `order` are the grouping of `vs`. */
  ghost predicate GroupedAs(vs: seq<Video>, groups: map<string, seq<Video>>, order: seq<string>) {
    && GroupKeys(vs, groups)
    && GroupValues(vs, groups)
    && order == Dedupe(Categories(vs))
  }

  /** The keys of `groups` are the categories occurring in `vs`. */
  ghost predicate GroupKeys(vs: seq<Video>, groups: map<string, seq<Video>>) {
    forall c :: c in groups <==> c in Categories(vs)
  }

  /** Each group holds its category's videos in order. */
  ghost predicate GroupValues(vs: seq<Video>, groups: map<string, seq<Video>>) {
    forall c :: c in groups ==> groups[c] == InCategory(vs, c)
  }

  /** The group map after one more video: its category's group, opened if new, gains the video. */
  function AddToGroup(groups: map<string, seq<Video>>, v: Video): map<string, seq<Video>> {
    var cat := CategoryOf(v);
    var started := if cat in groups then groups else groups[cat := []];
    started[cat := started[cat] + [v]]
  }

  /** One step of the grouping loop keeps the grouping in step with the videos seen. */
  lemma GroupStep(vs: seq<Video>, v: Video, groups: map<string, seq<Video>>, order: seq<string>)
    requires GroupedAs(vs, groups, order)
    ensures GroupedAs(vs + [v], AddToGroup(groups, v),
      if CategoryOf(v) in groups then order else order + [CategoryOf(v)])
  {
    CategoryOrderSnoc(vs, v);
    GroupKeysStep(vs, v, groups);
    GroupValuesStep(vs, v, groups);
  }

  /** One more video keeps the keys equal to the categories seen. */
  lemma GroupKeysStep(vs: seq<Video>, v: Video, groups: map<string, seq<Video>>)
    requires GroupKeys(vs, groups)
    ensures GroupKeys(vs + [v], AddToGroup(groups, v))
  {
    CategoryOrderSnoc(vs, v);
  }

  /** One more video keeps every group equal to its category's videos. */
  lemma GroupValuesStep(vs: seq<Video>, v: Video, groups: map<string, seq<Video>>)
    requires GroupKeys(vs, groups) && GroupValues(vs, groups)
    ensures GroupValues(vs + [v], AddToGroup(groups, v))
  {
    var cat := CategoryOf(v);
    if cat !in groups {
      InCategoryOfAbsent(vs, cat);
    }
    var next := AddToGroup(groups, v);
    forall c | c in next
      ensures next[c] == InCategory(vs + [v], c)
    {
      InCategorySnoc(vs, v, c);
    }
  }

  /** Appending a video adds its category to the first-occurrence order iff it is new. */
  lemma CategoryOrderSnoc(vs: seq<Video>, v: Video)
    ensures Categories(vs + [v]) == Categories(vs) + [CategoryOf(v)]
    ensures Dedupe(Categories(vs + [v])) ==
      if CategoryOf(v) in Categories(vs) then Dedupe(Categories(vs))
      else Dedupe(Categories(vs)) + [CategoryOf(v)]
  {
    var cs := Categories(vs + [v]);
    assert cs == Categories(vs) + [CategoryOf(v)];
    assert cs[..|cs| - 1] == Categories(vs);
  }

  /** Appending a video extends its own category's group and no other. */
  lemma InCategorySnoc(vs: seq<Video>, v: Video, c: string)
    ensures InCategory(vs + [v], c) == InCategory(vs, c) + (if CategoryOf(v) == c then [v] else [])
  {
    assert (vs + [v])[..|vs|] == vs;
  }

  /** A category that no video carries has an empty group. */
  lemma InCategoryOfAbsent(vs: seq<Video>, c: string)
    requires c !in Categories(vs)
    ensures InCategory(vs, c) == []
  {
    forall i | 0 <= i < |vs|
      ensures !FiledUnder(c)(vs[i])
    {
      assert Categories(vs)[i] == CategoryOf(vs[i]);
    }
    FilterNone(vs, FiledUnder(c));
  }

  /** Each video belongs to the group of its own category and to no other. */
  lemma EveryVideoInExactlyOneGroup(vs: seq<Video>, k: nat, c: string)
    requires k < |vs|
    ensures vs[k] in InCategory(vs, c) <==> c == CategoryOf(vs[k])
  {
  }

  /**
   * A group keeps the videos' relative order: for any split of the list, the
   * group's videos from the first part all come before those from the second.
   */
  lemma GroupKeepsVideoOrder(vs: seq<Video>, k: nat, c: string)
    requires k <= |vs|
    ensures InCategory(vs, c) == InCategory(vs[..k], c) + InCategory(vs[k..], c)
  {
    assert vs == vs[..k] + vs[k..];
    FilterAppend(vs[..k], vs[k..], FiledUnder(c));
  }

  /** No group is empty. */
  lemma NoGroupIsEmpty(vs: seq<Video>, c: string)
    requires c in Categories(vs)
    ensures |InCategory(vs, c)| > 0
  {
    var i :| 0 <= i < |vs| && Categories(vs)[i] == c;
    assert vs[i] in InCategory(vs, c);
  }

  /** The total size of the groups named in `keys`. */
  function SumSizes(keys: seq<string>, vs: seq<Video>): nat {
    if |keys| == 0 then 0 else |InCategory(vs, keys[0])| + SumSizes(keys[1..], vs)
  }

  lemma {:induction false} SumSizesOfNoVideos(keys: seq<string>)
    ensures SumSizes(keys, []) == 0
  {
    if |keys| > 0 {
      SumSizesOfNoVideos(keys[1..]);
    }
  }

  lemma {:induction false} SumSizesSnoc(keys: seq<string>, vs: seq<Video>, v: Video)
    ensures SumSizes(keys, vs + [v]) == SumSizes(keys, vs) + Count(keys, CategoryOf(v))
  {
    if |keys| > 0 {
      InCategorySnoc(vs, v, keys[0]);
      SumSizesSnoc(keys[1..], vs, v);
    }
  }

  /**
   * The groups partition the videos: over any list naming every category
   * once, the group sizes add up to the number of videos.
   */
  lemma {:induction false} GroupSizesSumToVideoCount(vs: seq<Video>, keys: seq<string>)
    requires NoDuplicates(keys)
    requires forall i :: 0 <= i < |vs| ==> CategoryOf(vs[i]) in keys
    ensures SumSizes(keys, vs) == |vs|
  {
    if |vs| == 0 {
      SumSizesOfNoVideos(keys);
    } else {
      var init, last := vs[..|vs| - 1], vs[|vs| - 1];
      assert vs == init + [last];
      GroupSizesSumToVideoCount(init, keys);
      SumSizesSnoc(keys, init, last);
      CountInNoDuplicates(keys, CategoryOf(last));
    }
  }

  /** In particular over the distinct categories, in the order they first occur. */
  lemma DistinctGroupSizesSumToVideoCount(vs: seq<Video>)
    ensures SumSizes(Dedupe(Categories(vs)), vs) == |vs|
  {
    forall i | 0 <= i < |vs|
      ensures CategoryOf(vs[i]) in Dedupe(Categories(vs))
    {
      assert Categories(vs)[i] == CategoryOf(vs[i]);
    }
    GroupSizesSumToVideoCount(vs, Dedupe(Categories(vs)));
  }

  // ------------------------------------------------------------ delete

  datatype DeletionTarget = DeletionTarget(kind: ContentKind, id: string, title: string)

  /**
   * How a confirmed delete ends: with nothing to delete, with the reloaded
   * module list handed to `onModulesUpdated`, or with a failure alert.
   */
  datatype DeleteOutcome = NothingToDelete | ModulesUpdated(modules: seq<LearningModule>) | Alerted(message: string)

  function FailureAlert(kind: ContentKind): string {
    "Falha ao excluir o " + kind.Name() + ". Verifique a conexão e o servidor."
  }

  /**
   * The part of executeDelete after the target is captured: `f` is the reply
   * to DELETE /content/{kind}/{id} for that target and `reload` the module
   * reload that follows success. Calling `onModulesUpdated` when the parent
   * did not supply it throws, and that lands in the same catch as a failed
   * delete.
   */
  function DeleteFlowOutcome(t: DeletionTarget, f: Fetched<Reply>, reload: Fetched<seq<LearningModule>>, callbackPresent: bool)
    : (o: DeleteOutcome)
    ensures o.ModulesUpdated? <==> callbackPresent && f.Received? && IsOk(f.status)
    ensures o.ModulesUpdated? ==> o.modules == Storage.ModulesOrEmpty(reload)
    ensures !o.ModulesUpdated? ==> o == Alerted(FailureAlert(t.kind))
  {
    match Storage.DeleteContentOutcome(f, reload)
    case Failure(_) => Alerted(FailureAlert(t.kind))
    case Success(ms) => if callbackPresent then ModulesUpdated(ms) else Alerted(FailureAlert(t.kind))
  }

  /** Without the callback, even a delete the server confirmed ends in the failure alert. */
  lemma ConfirmedDeleteAlertsWithoutCallback(t: DeletionTarget, f: Fetched<Reply>, reload: Fetched<seq<LearningModule>>)
    requires f.Received? && IsOk(f.status)
    ensures DeleteFlowOutcome(t, f, reload, false) == Alerted(FailureAlert(t.kind))
    ensures DeleteFlowOutcome(t, f, reload, true) == ModulesUpdated(Storage.ModulesOrEmpty(reload))
  {
  }

  class ContentPanel {
    var expandedModules: set<string>
    var expandedCategories: set<string>
    var isDeleting: bool
    var deletionTarget: Option<DeletionTarget>

    constructor()
      ensures expandedModules == {} && expandedCategories == {}
      ensures !isDeleting && deletionTarget.None?
    {
      expandedModules := {};
      expandedCategories := {};
      isDeleting := false;
      deletionTarget := None;
    }

    /**
     * toggleModule: flips the module's node; when the module ends up
     * collapsed, every expanded category of every module is collapsed too.
     */
    method ToggleModule(id: string)
      modifies this
      ensures expandedModules == Toggle(old(expandedModules), id)
      ensures (id in expandedModules) != (id in old(expandedModules))
      ensures id !in expandedModules ==> expandedCategories == {}
      ensures id in expandedModules ==> expandedCategories == old(expandedCategories)
      ensures isDeleting == old(isDeleting) && deletionTarget == old(deletionTarget)
    {
      var newExpanded := expandedModules;
      if id in newExpanded {
        newExpanded := newExpanded - {id};
      } else {
        newExpanded := newExpanded + {id};
      }
      expandedModules := newExpanded;
      if id !in newExpanded {
        expandedCategories := {};
      }
    }

    /** toggleCategory: flips exactly the key `${moduleId}-${category}`. */
    method ToggleCategory(moduleId: string, category: string)
      modifies this
      ensures expandedCategories == Toggle(old(expandedCategories), CategoryKey(moduleId, category))
      ensures forall k :: k != CategoryKey(moduleId, category) ==>
        (k in expandedCategories <==> k in old(expandedCategories))
      ensures expandedModules == old(expandedModules)
      ensures isDeleting == old(isDeleting) && deletionTarget == old(deletionTarget)
    {
      var key := CategoryKey(moduleId, category);
      var newExpanded := expandedCategories;
      if key in newExpanded {
        newExpanded := newExpanded - {key};
      } else {
        newExpanded := newExpanded + {key};
      }
      expandedCategories := newExpanded;
    }

    /** openDeleteModal: the target becomes exactly the given item. */
    method OpenDeleteModal(kind: ContentKind, id: string, title: string)
      modifies this
      ensures deletionTarget == Some(DeletionTarget(kind, id, title))
      ensures expandedModules == old(expandedModules) && expandedCategories == old(expandedCategories)
      ensures isDeleting == old(isDeleting)
    {
      deletionTarget := Some(DeletionTarget(kind, id, title));
    }

    /** The modal's cancel button: the target is dropped. */
    method CancelDelete()
      modifies this
      ensures deletionTarget.None?
      ensures expandedModules == old(expandedModules) && expandedCategories == old(expandedCategories)
      ensures isDeleting == old(isDeleting)
    {
      deletionTarget := None;
    }

    /**
     * executeDelete up to its request: without a target nothing happens;
     * otherwise the panel is marked as deleting and the modal closes before
     * the request is made. Answers the captured target.
     */
    method BeginDelete() returns (captured: Option<DeletionTarget>)
      modifies this
      ensures captured == old(deletionTarget)
      ensures captured.None? ==> isDeleting == old(isDeleting) && deletionTarget.None?
      ensures captured.Some? ==> isDeleting && deletionTarget.None?
      ensures expandedModules == old(expandedModules) && expandedCategories == old(expandedCategories)
    {
      captured := deletionTarget;
      if captured.None? {
        return;
      }
      isDeleting := true;
      deletionTarget := None;
    }

    /** executeDelete after its request: the `finally` clears the deleting flag whatever happened. */
    method FinishDelete(t: DeletionTarget, f: Fetched<Reply>, reload: Fetched<seq<LearningModule>>, callbackPresent: bool)
      returns (outcome: DeleteOutcome)
      modifies this
      ensures outcome == DeleteFlowOutcome(t, f, reload, callbackPresent)
      ensures !isDeleting
      ensures deletionTarget == old(deletionTarget)
      ensures expandedModules == old(expandedModules) && expandedCategories == old(expandedCategories)
    {
      outcome := DeleteFlowOutcome(t, f, reload, callbackPresent);
      isDeleting := false;
    }

    /** executeDelete as a whole, with no other event in between. */
    method ExecuteDelete(f: Fetched<Reply>, reload: Fetched<seq<LearningModule>>, callbackPresent: bool)
      returns (outcome: DeleteOutcome)
      modifies this
      ensures old(deletionTarget).None? ==>
        outcome == NothingToDelete && isDeleting == old(isDeleting) && deletionTarget.None?
      ensures old(deletionTarget).Some? ==>
        outcome == DeleteFlowOutcome(old(deletionTarget).value, f, reload, callbackPresent) &&
        !isDeleting && deletionTarget.None?
      ensures expandedModules == old(expandedModules) && expandedCategories == old(expandedCategories)
    {
      var captured := BeginDelete();
      if captured.None? {
        return NothingToDelete;
      }
      outcome := FinishDelete(captured.value, f, reload, callbackPresent);
    }
  }
}
