/**
 * The REST back end: four tables (users, modules, videos, documents) kept as
 * sequences of rows in table order, the nesting of the three content tables
 * into the module list the front end loads, and the routes that read and
 * change the tables. The id a database would assign to an inserted row is
 * given to the insert routes as a parameter.
 */
module Server {
  import opened Types
  import opened Http
  import opened Collections

  // ---------------------------------------------------------------- rows

  datatype UserRow = UserRow(id: string, username: string, password: string, role: string)

  datatype ModuleRow = ModuleRow(id: string, name: string, description: string, iconName: string, color: string)

  /** A row of the videos table; every column an insert may leave NULL is optional. */
  datatype VideoRow = VideoRow(
    id: string,
    module_id: Option<string>,
    title: Option<string>,
    description: Option<string>,
    duration: Option<string>,
    thumbnail_url: Option<string>,
    video_url: Option<string>,
    category: Option<string>)

  /** A row of the documents table; `docType` is the `type` column. */
  datatype DocumentRow = DocumentRow(
    id: string,
    module_id: Option<string>,
    title: Option<string>,
    docType: Option<string>,
    url: Option<string>)

  /** A JSON object of string fields, as a request body's `data` arrives. */
  type JsonObject = map<string, string>

  /** `data[key]`, undefined when the field is absent. */
  function Field(data: JsonObject, key: string): Option<string> {
    if key in data then Some(data[key]) else None
  }

  // ------------------------------------------------------- /modules shaping

  /** A video as /modules sends it: the row with its URL columns renamed to camelCase. */
  datatype MappedVideo = MappedVideo(
    id: string,
    module_id: Option<string>,
    title: Option<string>,
    description: Option<string>,
    duration: Option<string>,
    category: Option<string>,
    thumbnailUrl: Option<string>,
    videoUrl: Option<string>)

  datatype MappedDocument = MappedDocument(
    id: string,
    module_id: Option<string>,
    title: Option<string>,
    docType: Option<string>,
    url: Option<string>)

  /** A module row spread into the reply, with its videos and documents attached. */
  datatype NestedModule = NestedModule(row: ModuleRow, videos: seq<MappedVideo>, documents: seq<MappedDocument>)

  function MapVideo(v: VideoRow): MappedVideo {
    MappedVideo(v.id, v.module_id, v.title, v.description, v.duration, v.category, v.thumbnail_url, v.video_url)
  }

  /** The inverse renaming, from the reply field names back to the column names. */
  function UnmapVideo(w: MappedVideo): VideoRow {
    VideoRow(w.id, w.module_id, w.title, w.description, w.duration, w.thumbnailUrl, w.videoUrl, w.category)
  }

  function MapDocument(d: DocumentRow): MappedDocument {
    MappedDocument(d.id, d.module_id, d.title, d.docType, d.url)
  }

  function UnmapDocument(w: MappedDocument): DocumentRow {
    DocumentRow(w.id, w.module_id, w.title, w.docType, w.url)
  }

  /** The renaming loses and invents nothing: it is a bijection between rows and reply items. */
  lemma MappingIsLossless(v: VideoRow, w: MappedVideo, d: DocumentRow, e: MappedDocument)
    ensures UnmapVideo(MapVideo(v)) == v && MapVideo(UnmapVideo(w)) == w
    ensures MapVideo(v).thumbnailUrl == v.thumbnail_url && MapVideo(v).videoUrl == v.video_url
    ensures MapVideo(v).category == v.category && MapVideo(v).module_id == v.module_id
    ensures UnmapDocument(MapDocument(d)) == d && MapDocument(UnmapDocument(e)) == e
  {
  }

  function MapVideos(vs: seq<VideoRow>): (ws: seq<MappedVideo>)
    ensures |ws| == |vs| && forall i :: 0 <= i < |vs| ==> ws[i] == MapVideo(vs[i])
  {
    seq(|vs|, i requires 0 <= i < |vs| => MapVideo(vs[i]))
  }

  function MapDocuments(ds: seq<DocumentRow>): (es: seq<MappedDocument>)
    ensures |es| == |ds| && forall i :: 0 <= i < |ds| ==> es[i] == MapDocument(ds[i])
  {
    seq(|ds|, i requires 0 <= i < |ds| => MapDocument(ds[i]))
  }

  /** `v.module_id === mod.id`; a NULL module_id belongs to no module. */
  function VideoOf(id: string): MappedVideo -> bool {
    (w: MappedVideo) => w.module_id == Some(id)
  }

  function DocumentOf(id: string): MappedDocument -> bool {
    (e: MappedDocument) => e.module_id == Some(id)
  }

  /** The list /modules answers with, built from the three tables. */
  function Nest(modules: seq<ModuleRow>, videos: seq<VideoRow>, documents: seq<DocumentRow>): (r: seq<NestedModule>)
    ensures |r| == |modules|
  {
    seq(|modules|, i requires 0 <= i < |modules| =>
      NestedModule(
        modules[i],
        Filter(MapVideos(videos), VideoOf(modules[i].id)),
        Filter(MapDocuments(documents), DocumentOf(modules[i].id))))
  }

  /** One entry per module row, in table order, carrying that row unchanged. */
  lemma NestKeepsModules(modules: seq<ModuleRow>, videos: seq<VideoRow>, documents: seq<DocumentRow>)
    ensures |Nest(modules, videos, documents)| == |modules|
    ensures forall i :: 0 <= i < |modules| ==> Nest(modules, videos, documents)[i].row == modules[i]
  {
  }

  /**
   * A module's videos and documents are exactly the rows whose module_id is
   * that module's id; everything attached to a module carries its id.
   */
  lemma NestAttachesExactlyMatchingRows(modules: seq<ModuleRow>, videos: seq<VideoRow>, documents: seq<DocumentRow>, i: nat)
    requires i < |modules|
    ensures forall j :: 0 <= j < |videos| ==>
      (MapVideo(videos[j]) in Nest(modules, videos, documents)[i].videos <==> videos[j].module_id == Some(modules[i].id))
    ensures forall j :: 0 <= j < |documents| ==>
      (MapDocument(documents[j]) in Nest(modules, videos, documents)[i].documents <==> documents[j].module_id == Some(modules[i].id))
    ensures forall w :: w in Nest(modules, videos, documents)[i].videos ==> w.module_id == Some(modules[i].id) && UnmapVideo(w) in videos
    ensures forall e :: e in Nest(modules, videos, documents)[i].documents ==> e.module_id == Some(modules[i].id) && UnmapDocument(e) in documents
  {
    var n := Nest(modules, videos, documents)[i];
    forall w | w in n.videos
      ensures w.module_id == Some(modules[i].id) && UnmapVideo(w) in videos
    {
      var ws := MapVideos(videos);
      assert w in ws;
      var j :| 0 <= j < |ws| && ws[j] == w;
      assert UnmapVideo(w) == videos[j];
    }
    forall e | e in n.documents
      ensures e.module_id == Some(modules[i].id) && UnmapDocument(e) in documents
    {
      var es := MapDocuments(documents);
      assert e in es;
      var j :| 0 <= j < |es| && es[j] == e;
      assert UnmapDocument(e) == documents[j];
    }
  }

  /** A row whose module_id names no module appears under no module. */
  lemma OrphanRowAppearsNowhere(modules: seq<ModuleRow>, videos: seq<VideoRow>, documents: seq<DocumentRow>, j: nat)
    requires j < |videos|
    requires forall i :: 0 <= i < |modules| ==> videos[j].module_id != Some(modules[i].id)
    ensures forall i :: 0 <= i < |modules| ==> MapVideo(videos[j]) !in Nest(modules, videos, documents)[i].videos
  {
    forall i | 0 <= i < |modules|
      ensures MapVideo(videos[j]) !in Nest(modules, videos, documents)[i].videos
    {
      NestAttachesExactlyMatchingRows(modules, videos, documents, i);
    }
  }

  /** A document row whose module_id names no module appears under no module. */
  lemma OrphanDocumentAppearsNowhere(modules: seq<ModuleRow>, videos: seq<VideoRow>, documents: seq<DocumentRow>, j: nat)
    requires j < |documents|
    requires forall i :: 0 <= i < |modules| ==> documents[j].module_id != Some(modules[i].id)
    ensures forall i :: 0 <= i < |modules| ==> MapDocument(documents[j]) !in Nest(modules, videos, documents)[i].documents
  {
    forall i | 0 <= i < |modules|
      ensures MapDocument(documents[j]) !in Nest(modules, videos, documents)[i].documents
    {
      NestAttachesExactlyMatchingRows(modules, videos, documents, i);
    }
  }

  /**
   * Table order is kept: splitting the videos table in two splits every
   * module's video list the same way, earlier rows first.
   */
  lemma {:induction false} NestKeepsTableOrder(modules: seq<ModuleRow>, a: seq<VideoRow>, b: seq<VideoRow>, documents: seq<DocumentRow>, i: nat)
    requires i < |modules|
    ensures Nest(modules, a + b, documents)[i].videos
         == Nest(modules, a, documents)[i].videos + Nest(modules, b, documents)[i].videos
  {
    assert MapVideos(a + b) == MapVideos(a) + MapVideos(b);
    FilterAppend(MapVideos(a), MapVideos(b), VideoOf(modules[i].id));
  }

  /** The same for documents: a module's documents are in table order. */
  lemma {:induction false} NestKeepsDocumentOrder(modules: seq<ModuleRow>, videos: seq<VideoRow>, a: seq<DocumentRow>, b: seq<DocumentRow>, i: nat)
    requires i < |modules|
    ensures Nest(modules, videos, a + b)[i].documents
         == Nest(modules, videos, a)[i].documents + Nest(modules, videos, b)[i].documents
  {
    assert MapDocuments(a + b) == MapDocuments(a) + MapDocuments(b);
    FilterAppend(MapDocuments(a), MapDocuments(b), DocumentOf(modules[i].id));
  }

  // -------------------------------------------------------------- /login

  /** `WHERE username = ? AND password = ?`; an absent parameter binds NULL and matches nothing. */
  predicate Matches(u: UserRow, username: Option<string>, password: Option<string>) {
    username == Some(u.username) && password == Some(u.password)
  }

  /** The first user row matching both credentials (`rows[0]`). */
  function FirstMatch(users: seq<UserRow>, username: Option<string>, password: Option<string>): (r: Option<nat>)
    ensures r.Some? ==> r.value < |users| && Matches(users[r.value], username, password)
    ensures r.Some? ==> forall j :: 0 <= j < r.value ==> !Matches(users[j], username, password)
    ensures r.None? ==> forall j :: 0 <= j < |users| ==> !Matches(users[j], username, password)
  {
    if |users| == 0 then None
    else if Matches(users[0], username, password) then Some(0)
    else match FirstMatch(users[1..], username, password)
      case None => None
      case Some(k) => Some(k + 1)
  }

  const InvalidCredentials: Response := Response(401, EmptyReply.(message := Some("Credenciais inválidas")))

  /** The answer of POST /login. */
  function LoginReply(users: seq<UserRow>, username: Option<string>, password: Option<string>): (r: Response)
    ensures IsOk(r.status) <==> exists i :: 0 <= i < |users| && Matches(users[i], username, password)
    ensures !IsOk(r.status) ==> r == InvalidCredentials
    ensures IsOk(r.status) ==> r.status == 200 && Succeeded(r.body)
    ensures IsOk(r.status) ==>
      exists i :: 0 <= i < |users| && Matches(users[i], username, password) &&
        (forall j :: 0 <= j < i ==> !Matches(users[j], username, password)) &&
        r.body.user == Some(users[i].username) && r.body.role == Some(users[i].role)
  {
    match FirstMatch(users, username, password)
    case None => InvalidCredentials
    case Some(i) => Response(200, EmptyReply.(success := Some(true), user := Some(users[i].username), role := Some(users[i].role)))
  }

  // ------------------------------------------------------- /content rows

  /** The video row POST /content inserts: the columns read from `data`, NULL where a field is absent. */
  function VideoRowFrom(newId: string, moduleId: Option<string>, data: JsonObject): VideoRow {
    VideoRow(newId, moduleId, Field(data, "title"), Field(data, "description"), Field(data, "duration"),
      Field(data, "thumbnailUrl"), Field(data, "videoUrl"), Field(data, "category"))
  }

  /** The document row POST /content inserts; the `type` field fills the type column. */
  function DocumentRowFrom(newId: string, moduleId: Option<string>, data: JsonObject): DocumentRow {
    DocumentRow(newId, moduleId, Field(data, "title"), Field(data, "type"), Field(data, "url"))
  }

  // ------------------------------------------------------- fixed responses

  const ContentAdded: Response := Response(200, EmptyReply.(success := Some(true), message := Some("Conteúdo adicionado!")))
  const ContentNotSaved: Response := Response(500, EmptyReply.(error := Some("Erro ao salvar conteúdo")))
  const MissingFields: Response := Response(400, EmptyReply.(success := Some(false), message := Some("Campos obrigatórios faltando.")))
  const UserExists: Response := Response(409, EmptyReply.(success := Some(false), message := Some("Usuário já existe.")))
  const InvalidContentType: Response := Response(400, EmptyReply.(success := Some(false), message := Some("Tipo de conteúdo inválido.")))
  const ContentNotFound: Response := Response(404, EmptyReply.(success := Some(false), message := Some("Conteúdo não encontrado.")))
  const ContentDeleted: Response := Response(200, EmptyReply.(success := Some(true), message := Some("Conteúdo excluído com sucesso!")))

  function UserCreated(username: string): Response {
    Response(200, EmptyReply.(success := Some(true), message := Some("Usuário " + username + " criado com sucesso!")))
  }

  /** `!field` is false: the field is present and not the empty string. */
  predicate Present(field: Option<string>) {
    field.Some? && field.value != ""
  }

  /** `DELETE ... WHERE id = ?` keeps the rows whose id differs. */
  function VideoIdIsNot(id: string): VideoRow -> bool {
    (v: VideoRow) => v.id != id
  }

  function DocumentIdIsNot(id: string): DocumentRow -> bool {
    (d: DocumentRow) => d.id != id
  }

  // ---------------------------------------------------------------- tables

  class Database {
    var users: seq<UserRow>
    var modules: seq<ModuleRow>
    var videos: seq<VideoRow>
    var documents: seq<DocumentRow>

    constructor(users: seq<UserRow>, modules: seq<ModuleRow>, videos: seq<VideoRow>, documents: seq<DocumentRow>)
      ensures this.users == users && this.modules == modules
      ensures this.videos == videos && this.documents == documents
    {
      this.users := users;
      this.modules := modules;
      this.videos := videos;
      this.documents := documents;
    }

    /** POST /login. */
    method Login(username: Option<string>, password: Option<string>) returns (r: Response)
      ensures r == LoginReply(users, username, password)
      ensures r.status == 200 || r.status == 401
    {
      r := LoginReply(users, username, password);
    }

    /** GET /modules. */
    method GetModules() returns (r: seq<NestedModule>)
      ensures r == Nest(modules, videos, documents)
    {
      r := Nest(modules, videos, documents);
    }

    /**
     * POST /content: a video when `type` is "video", a document for any other
     * value. A missing `data` object fails when its fields are read, before
     * anything is inserted.
     */
    method AddContent(moduleId: Option<string>, contentType: Option<string>, data: Option<JsonObject>, newId: string)
      returns (r: Response)
      modifies this
      ensures users == old(users) && modules == old(modules)
      ensures data.None? ==> r == ContentNotSaved && videos == old(videos) && documents == old(documents)
      ensures data.Some? ==> r == ContentAdded
      ensures data.Some? && contentType == Some("video") ==>
        documents == old(documents) &&
        videos == old(videos) + [VideoRowFrom(newId, moduleId, data.value)]
      ensures data.Some? && contentType != Some("video") ==>
        videos == old(videos) &&
        documents == old(documents) + [DocumentRowFrom(newId, moduleId, data.value)]
    {
      if data.None? {
        return ContentNotSaved;
      }
      var d := data.value;
      if contentType == Some("video") {
        videos := videos + [VideoRowFrom(newId, moduleId, d)];
      } else {
        documents := documents + [DocumentRowFrom(newId, moduleId, d)];
      }
      r := ContentAdded;
    }

    /** POST /users: validation, then the uniqueness check, then the insert. */
    method AddUser(username: Option<string>, password: Option<string>, role: Option<string>, newId: string)
      returns (r: Response)
      modifies this
      ensures modules == old(modules) && videos == old(videos) && documents == old(documents)
      ensures !(Present(username) && Present(password) && Present(role)) ==>
        r == MissingFields && users == old(users)
      ensures Present(username) && Present(password) && Present(role) ==>
        ((exists i :: 0 <= i < |old(users)| && old(users)[i].username == username.value) <==> r == UserExists)
      ensures r == UserExists ==> users == old(users)
      ensures IsOk(r.status) <==>
        Present(username) && Present(password) && Present(role) &&
        forall i :: 0 <= i < |old(users)| ==> old(users)[i].username != username.value
      ensures IsOk(r.status) ==>
        r == UserCreated(username.value) &&
        users == old(users) + [UserRow(newId, username.value, password.value, role.value)]
    {
      if !(Present(username) && Present(password) && Present(role)) {
        return MissingFields;
      }
      var u := username.value;
      if exists i :: 0 <= i < |users| && users[i].username == u {
        return UserExists;
      }
      users := users + [UserRow(newId, u, password.value, role.value)];
      r := UserCreated(u);
    }

    /**
     * DELETE /content/:type/:id: the type selects the table, every row with
     * that id is removed, and zero affected rows answers 404.
     */
    method DeleteContent(contentType: string, id: string) returns (r: Response)
      modifies this
      ensures users == old(users) && modules == old(modules)
      ensures contentType != "video" && contentType != "document" ==>
        r == InvalidContentType && videos == old(videos) && documents == old(documents)
      ensures contentType == "video" ==>
        && documents == old(documents)
        && videos == Filter(old(videos), VideoIdIsNot(id))
        && (r == ContentNotFound <==> forall j :: 0 <= j < |old(videos)| ==> old(videos)[j].id != id)
        && (r == ContentNotFound || r == ContentDeleted)
      ensures contentType == "document" ==>
        && videos == old(videos)
        && documents == Filter(old(documents), DocumentIdIsNot(id))
        && (r == ContentNotFound <==> forall j :: 0 <= j < |old(documents)| ==> old(documents)[j].id != id)
        && (r == ContentNotFound || r == ContentDeleted)
      ensures r == ContentNotFound ==> videos == old(videos) && documents == old(documents)
    {
      var affected: nat;
      if contentType == "video" {
        var kept := Filter(videos, VideoIdIsNot(id));
        if forall j :: 0 <= j < |videos| ==> videos[j].id != id {
          FilterAll(videos, VideoIdIsNot(id));
        } else {
          var k :| 0 <= k < |videos| && videos[k].id == id;
          FilterShrinks(videos, VideoIdIsNot(id), k);
        }
        affected := |videos| - |kept|;
        videos := kept;
      } else if contentType == "document" {
        var kept := Filter(documents, DocumentIdIsNot(id));
        if forall j :: 0 <= j < |documents| ==> documents[j].id != id {
          FilterAll(documents, DocumentIdIsNot(id));
        } else {
          var k :| 0 <= k < |documents| && documents[k].id == id;
          FilterShrinks(documents, DocumentIdIsNot(id), k);
        }
        affected := |documents| - |kept|;
        documents := kept;
      } else {
        return InvalidContentType;
      }
      if affected == 0 {
        return ContentNotFound;
      }
      r := ContentDeleted;
    }
  }

  /** After a delete, no row with the id is left and every other row is still there, in order. */
  lemma DeleteRemovesExactlyTheVideoId(rows: seq<VideoRow>, id: string)
    ensures forall v :: v in Filter(rows, VideoIdIsNot(id)) <==> v in rows && v.id != id
    ensures forall a, b :: rows == a + b ==>
      Filter(rows, VideoIdIsNot(id)) == Filter(a, VideoIdIsNot(id)) + Filter(b, VideoIdIsNot(id))
  {
    forall a, b | rows == a + b
      ensures Filter(rows, VideoIdIsNot(id)) == Filter(a, VideoIdIsNot(id)) + Filter(b, VideoIdIsNot(id))
    {
      FilterAppend(a, b, VideoIdIsNot(id));
    }
  }

  /** The same for the documents table. */
  lemma DeleteRemovesExactlyTheDocumentId(rows: seq<DocumentRow>, id: string)
    ensures forall d :: d in Filter(rows, DocumentIdIsNot(id)) <==> d in rows && d.id != id
    ensures forall a, b :: rows == a + b ==>
      Filter(rows, DocumentIdIsNot(id)) == Filter(a, DocumentIdIsNot(id)) + Filter(b, DocumentIdIsNot(id))
  {
    forall a, b | rows == a + b
      ensures Filter(rows, DocumentIdIsNot(id)) == Filter(a, DocumentIdIsNot(id)) + Filter(b, DocumentIdIsNot(id))
    {
      FilterAppend(a, b, DocumentIdIsNot(id));
    }
  }
}
