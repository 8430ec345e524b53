/**
 * The server's replies as the front end's storage service reads them: what a
 * sign-in, a new user, a new content item and a deletion look like from both
 * ends of the same HTTP exchange.
 */
module EndToEnd {
  import opened Types
  import opened Http
  import opened Server
  import Storage
  import Admin

  /**
   * A sign-in is accepted by the client exactly when some user row matches
   * both credentials, and the session it stores names the first such row's
   * user and role.
   */
  lemma ClientLoginAgreesWithServer(users: seq<UserRow>, username: string, password: string, statusText: string)
    ensures Storage.Accepted(Deliver(LoginReply(users, Some(username), Some(password)), statusText))
      <==> exists i :: 0 <= i < |users| && users[i].username == username && users[i].password == password
    ensures Storage.Accepted(Deliver(LoginReply(users, Some(username), Some(password)), statusText)) ==>
      var body := LoginReply(users, Some(username), Some(password)).body;
      var i := FirstMatch(users, Some(username), Some(password)).value;
      FirstMatch(users, Some(username), Some(password)).Some? &&
      users[i].username == username && users[i].password == password &&
      body.user == Some(username) && body.role == Some(users[i].role)
  {
    if exists i :: 0 <= i < |users| && users[i].username == username && users[i].password == password {
      var i :| 0 <= i < |users| && users[i].username == username && users[i].password == password;
      assert Matches(users[i], Some(username), Some(password));
    } else {
      forall i | 0 <= i < |users|
        ensures !Matches(users[i], Some(username), Some(password))
      {
      }
    }
  }

  /**
   * The client's sign-in against the server's users table: the session is
   * stored exactly when the credentials match a row, and then it carries that
   * row's role; a refused sign-in leaves the storage alone.
   */
  method SignIn(db: Database, store: Storage.SessionStore, username: string, password: string, statusText: string)
    returns (ok: bool)
    modifies store
    ensures ok <==> exists i :: 0 <= i < |db.users| && db.users[i].username == username && db.users[i].password == password
    ensures ok ==> store.GetUser() == Some(username)
    ensures ok ==>
      store.GetUserRole() == Some(db.users[FirstMatch(db.users, Some(username), Some(password)).value].role)
    ensures !ok ==> store.items == old(store.items)
  {
    var reply := db.Login(Some(username), Some(password));
    ClientLoginAgreesWithServer(db.users, username, password, statusText);
    ok := store.Login(Deliver(reply, statusText));
  }

  /**
   * The duplicate-user reply loses its message on the way: the storage service
   * as written reports the connection error, where the server said the user
   * already exists.
   */
  lemma DuplicateUserReportedAsConnectionError(statusText: string)
    ensures Storage.AddUserOutcome(Deliver(UserExists, statusText)) == Failure(Storage.AddUserConnectionError)
    ensures Storage.AddUserOutcomeIntended(Deliver(UserExists, statusText)) == Failure("Usuário já existe.")
    ensures Storage.AddUserConnectionError != "Usuário já existe."
  {
    assert |Storage.AddUserConnectionError| != |"Usuário já existe."|;
  }

  /** Every refusal of POST /users reaches the corrected client with the server's own message. */
  lemma RefusedUserKeepsServerMessage(statusText: string)
    ensures Storage.AddUserOutcomeIntended(Deliver(MissingFields, statusText)) == Failure("Campos obrigatórios faltando.")
    ensures Storage.AddUserOutcomeIntended(Deliver(UserExists, statusText)) == Failure("Usuário já existe.")
    ensures Storage.AddUserOutcome(Deliver(MissingFields, statusText)) == Failure(Storage.AddUserConnectionError)
  {
  }

  /**
   * Every column the server reads is one the admin form sends: a submitted
   * video or document is stored field for field, with no column left NULL.
   */
  lemma SubmittedPayloadStoredIntact(p: Admin.Payload, moduleId: ModuleId, newId: string)
    ensures p.VideoPayload? ==>
      VideoRowFrom(newId, Some(moduleId), Admin.PayloadJson(p)) ==
        VideoRow(newId, Some(moduleId), Some(p.title), Some(p.description), Some(p.duration),
          Some(p.thumbnailUrl), Some(p.videoUrl), Some(p.category))
    ensures p.DocumentPayload? ==>
      DocumentRowFrom(newId, Some(moduleId), Admin.PayloadJson(p)) ==
        DocumentRow(newId, Some(moduleId), Some(p.title), Some(p.docType), Some(p.url))
  {
  }

  /**
   * A submission of the admin form sent to POST /content: the server answers
   * success and the new last row of the kind's table is the payload, field
   * for field; the other table is untouched.
   */
  method StoreSubmission(db: Database, s: Admin.Submission, newId: string) returns (r: Response)
    requires s.payload.VideoPayload? <==> s.kind == VideoContent
    modifies db
    ensures r == ContentAdded
    ensures s.kind == VideoContent ==>
      && |db.videos| == |old(db.videos)| + 1 && db.documents == old(db.documents)
      && db.videos[|db.videos| - 1] == VideoRow(newId, Some(s.moduleId), Some(s.payload.title),
           Some(s.payload.description), Some(s.payload.duration), Some(s.payload.thumbnailUrl),
           Some(s.payload.videoUrl), Some(s.payload.category))
    ensures s.kind == DocumentContent ==>
      && |db.documents| == |old(db.documents)| + 1 && db.videos == old(db.videos)
      && db.documents[|db.documents| - 1] == DocumentRow(newId, Some(s.moduleId), Some(s.payload.title),
           Some(s.payload.docType), Some(s.payload.url))
  {
    r := db.AddContent(Some(s.moduleId), Some(s.kind.Name()), Some(Admin.PayloadJson(s.payload)), newId);
    SubmittedPayloadStoredIntact(s.payload, s.moduleId, newId);
  }

  /** The replies of POST /content as the client reads them. */
  lemma ContentRepliesAsClientSeesThem(statusText: string, reload: Fetched<seq<LearningModule>>)
    ensures Storage.AddContentOutcome(Deliver(ContentAdded, statusText), reload) == Success(Storage.ModulesOrEmpty(reload))
    ensures Storage.AddContentOutcome(Deliver(ContentNotSaved, statusText), reload) == Failure(Storage.SaveErrorPrefix + statusText)
  {
  }

  /**
   * The replies of DELETE /content as the client reads them: a deletion
   * reloads the list, a refusal surfaces the server's message.
   */
  lemma DeleteRepliesAsClientSeesThem(statusText: string, reload: Fetched<seq<LearningModule>>)
    ensures Storage.DeleteContentOutcome(Deliver(ContentDeleted, statusText), reload) == Success(Storage.ModulesOrEmpty(reload))
    ensures Storage.DeleteContentOutcome(Deliver(ContentNotFound, statusText), reload) == Failure("Conteúdo não encontrado.")
    ensures Storage.DeleteContentOutcome(Deliver(InvalidContentType, statusText), reload) == Failure("Tipo de conteúdo inválido.")
  {
  }
}
