/**
 * The portal's entities as the front end sees them: training modules holding
 * videos and documents, plus the small value types the other modules share.
 */
module Types {

  datatype Option<T> = None | Some(value: T)

  /** An outcome that is either a value or the message of a thrown `Error`. */
  datatype Result<T> = Success(value: T) | Failure(error: string)

  /**
   * Module ids. The enumeration in types.ts lists the department codes, but the
   * ids actually come from the database and are only cast to that type, so
   * any string can occur.
   */
  type ModuleId = string

  /** The category a video without one is filed under. */
  const DefaultCategory: string := "Geral"

  /** JavaScript's `s || fallback` on a string: the empty string is falsy. */
  function OrElse(s: string, fallback: string): (r: string)
    ensures s != "" ==> r == s
    ensures s == "" ==> r == fallback
  {
    if s != "" then s else fallback
  }

  /** JavaScript's `s || fallback` on an optional string: absent and empty are both falsy. */
  function OptOrElse(s: Option<string>, fallback: string): (r: string)
    ensures s.Some? && s.value != "" ==> r == s.value
    ensures s.None? || s.value == "" ==> r == fallback
  {
    match s
    case Some(v) => OrElse(v, fallback)
    case None => fallback
  }

  /**
   * A video as the client receives it. `category` is not declared in the
   * client's interface, but the server sends it and the components read it;
   * it may be absent (SQL NULL) or empty.
   */
  datatype Video = Video(
    id: string,
    title: string,
    description: string,
    duration: string,
    category: Option<string>,
    thumbnailUrl: string,
    videoUrl: Option<string>)

  /** `docType` is the interface's `type` field ('PDF' | 'DOC' | 'XLS' | 'LINK'). */
  datatype DocumentResource = DocumentResource(id: string, title: string, docType: string, url: string)

  datatype LearningModule = LearningModule(
    id: ModuleId,
    name: string,
    description: string,
    iconName: string,
    videos: seq<Video>,
    documents: seq<DocumentResource>,
    color: string)

  /** The two kinds of content; `Name()` is the literal the code passes around. */
  datatype ContentKind = VideoContent | DocumentContent {
    function Name(): (s: string)
      ensures s == "video" || s == "document"
      ensures (s == "video") == VideoContent?
    {
      match this
      case VideoContent => "video"
      case DocumentContent => "document"
    }
  }

  /** `video.category || "Geral"`: the category a video is grouped and listed under. */
  function CategoryOf(v: Video): (c: string)
    ensures c != ""
    ensures v.category.Some? && v.category.value != "" ==> c == v.category.value
    ensures v.category.None? || v.category.value == "" ==> c == DefaultCategory
  {
    OptOrElse(v.category, DefaultCategory)
  }

  /** `videos.map(v => v.category || "Geral")`. */
  function Categories(vs: seq<Video>): (cs: seq<string>)
    ensures |cs| == |vs|
    ensures forall i :: 0 <= i < |vs| ==> cs[i] == CategoryOf(vs[i])
  {
    seq(|vs|, i requires 0 <= i < |vs| => CategoryOf(vs[i]))
  }

  /**
   * `modules.find(m => m.id === id)`, as an index: the first module with that
   * id, or none.
   */
  function FindModule(ms: seq<LearningModule>, id: ModuleId): (r: Option<nat>)
    ensures r.Some? ==> r.value < |ms| && ms[r.value].id == id
    ensures r.Some? ==> forall j :: 0 <= j < r.value ==> ms[j].id != id
    ensures r.None? ==> forall j :: 0 <= j < |ms| ==> ms[j].id != id
  {
    if |ms| == 0 then None
    else if ms[0].id == id then Some(0)
    else match FindModule(ms[1..], id)
      case None => None
      case Some(k) => Some(k + 1)
  }
}
