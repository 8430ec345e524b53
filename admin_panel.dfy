/**
 * The admin panel's add-content form: the category suggestions for the
 * selected module, the payload a submit hands to `onAddContent`, and the form
 * reset that follows.
 */
module Admin {
  import opened Types
  import opened Collections

  datatype DocType = Pdf | Doc | Xls | Link {
    function Name(): string {
      match this
      case Pdf => "PDF"
      case Doc => "DOC"
      case Xls => "XLS"
      case Link => "LINK"
    }
  }

  /** The fixed thumbnail every submitted video gets. */
  const PlaceholderThumbnail: string := "https://placehold.co/400x225/000000/000000.png"
  const DefaultDuration: string := "00:00"
  const DefaultUrl: string := "#"
  const VideoAddedMessage: string := "Vídeo adicionado com sucesso!"
  const DocumentAddedMessage: string := "Arquivo adicionado com sucesso!"

  /** The `data` object of a submit; a document payload carries no description. */
  datatype Payload =
    | VideoPayload(title: string, description: string, duration: string, category: string, thumbnailUrl: string, videoUrl: string)
    | DocumentPayload(title: string, docType: string, url: string)

  /** One call of `onAddContent(moduleId, type, data)`. */
  datatype Submission = Submission(moduleId: ModuleId, kind: ContentKind, payload: Payload)

  /** The payload as the JSON object the request body carries under `data`. */
  function PayloadJson(p: Payload): map<string, string> {
    match p
    case VideoPayload(title, description, duration, category, thumbnailUrl, videoUrl) =>
      map["title" := title, "description" := description, "duration" := duration,
          "category" := category, "thumbnailUrl" := thumbnailUrl, "videoUrl" := videoUrl]
    case DocumentPayload(title, docType, url) =>
      map["title" := title, "type" := docType, "url" := url]
  }

  /**
   * existingCategories: the distinct categories of the selected module's
   * videos, empty when no module has the selected id.
   */
  function ExistingCategories(modules: seq<LearningModule>, selected: ModuleId): (r: seq<string>)
    ensures FindModule(modules, selected).None? ==> r == []
    ensures NoDuplicates(r)
    ensures FindModule(modules, selected).Some? ==>
      forall c :: c in r <==> c in Categories(modules[FindModule(modules, selected).value].videos)
  {
    match FindModule(modules, selected)
    case None => []
    case Some(i) => Dedupe(Categories(modules[i].videos))
  }

  /** The suggestions come in the order their categories first occur among the videos. */
  lemma ExistingCategoriesInFirstOccurrenceOrder(modules: seq<LearningModule>, selected: ModuleId, i: nat)
    requires FindModule(modules, selected) == Some(i)
    ensures forall a, b :: 0 <= a < b < |ExistingCategories(modules, selected)| ==>
      IndexOf(Categories(modules[i].videos), ExistingCategories(modules, selected)[a])
        < IndexOf(Categories(modules[i].videos), ExistingCategories(modules, selected)[b])
  {
    DedupeFirstOccurrenceOrder(Categories(modules[i].videos));
  }

  class AdminForm {
    var activeTab: ContentKind
    var selectedModule: string
    var successMessage: Option<string>
    var title: string
    var description: string
    var url: string
    var duration: string
    var category: string
    var docType: DocType

    /** The initial state: the first module selected, or none when there are no modules. */
    constructor(modules: seq<LearningModule>)
      ensures selectedModule == (if |modules| > 0 then modules[0].id else "")
      ensures activeTab == VideoContent && docType == Pdf && successMessage.None?
      ensures title == "" && description == "" && url == "" && duration == "" && category == ""
    {
      activeTab := VideoContent;
      selectedModule := if |modules| > 0 then modules[0].id else "";
      successMessage := None;
      title, description, url, duration, category := "", "", "", "", "";
      docType := Pdf;
    }

    /** The video and document tab buttons. */
    method SelectTab(kind: ContentKind)
      modifies this
      ensures activeTab == kind
      ensures selectedModule == old(selectedModule) && docType == old(docType)
      ensures title == old(title) && description == old(description) && url == old(url)
      ensures duration == old(duration) && category == old(category) && successMessage == old(successMessage)
    {
      activeTab := kind;
    }

    /** The module select's onChange: the new module, and the category field cleared. */
    method SelectModule(id: string)
      modifies this
      ensures selectedModule == id && category == ""
      ensures activeTab == old(activeTab) && docType == old(docType)
      ensures title == old(title) && description == old(description) && url == old(url)
      ensures duration == old(duration) && successMessage == old(successMessage)
    {
      selectedModule := id;
      category := "";
    }

    /**
     * handleSubmit: builds the payload with its defaults for the active tab,
     * sets the success message and empties the text fields.
     */
    method HandleSubmit() returns (s: Submission)
      modifies this
      ensures s.moduleId == old(selectedModule) && s.kind == old(activeTab)
      ensures old(activeTab) == VideoContent ==>
        s.payload == VideoPayload(old(title), old(description),
          OrElse(old(duration), DefaultDuration), OrElse(old(category), DefaultCategory),
          PlaceholderThumbnail, old(url))
      ensures old(activeTab) == DocumentContent ==>
        s.payload == DocumentPayload(old(title), old(docType).Name(), OrElse(old(url), DefaultUrl))
      ensures successMessage == Some(if old(activeTab) == VideoContent then VideoAddedMessage else DocumentAddedMessage)
      ensures title == "" && description == "" && url == "" && duration == "" && category == ""
      ensures activeTab == old(activeTab) && selectedModule == old(selectedModule) && docType == old(docType)
    {
      if activeTab == VideoContent {
        s := Submission(selectedModule, VideoContent,
          VideoPayload(title, description, OrElse(duration, DefaultDuration), OrElse(category, DefaultCategory),
            PlaceholderThumbnail, url));
        successMessage := Some(VideoAddedMessage);
      } else {
        s := Submission(selectedModule, DocumentContent, DocumentPayload(title, docType.Name(), OrElse(url, DefaultUrl)));
        successMessage := Some(DocumentAddedMessage);
      }
      title := "";
      description := "";
      url := "";
      duration := "";
      category := "";
    }
  }
}
