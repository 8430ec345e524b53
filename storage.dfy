/**
 * The front end's storage service: the session record kept in the browser's
 * key/value storage, and the decisions each call makes from the HTTP
 * response it obtains. Responses are inputs (see `Http.Fetched`); a call that
 * reloads the module list after a change is given that second response too.
 */
module Storage {
  import opened Types
  import opened Http

  /** The only storage key the service uses. */
  const SessionKey: string := "fort_fruit_session_v1"

  /** The placeholder token written with every session. */
  const SessionToken: string := "token-fake-por-enquanto"

  datatype Session = Session(user: Option<string>, role: Option<string>, token: string)

  const SaveErrorPrefix: string := "Erro ao salvar conteúdo: "
  const DeleteUnknownError: string := "Erro desconhecido ao excluir conteúdo."
  const AddUserUnknownError: string := "Erro desconhecido ao adicionar usuário."
  const AddUserConnectionError: string := "Não foi possível conectar ao servidor para adicionar usuário."

  /** `response.ok && data.success`. */
  predicate Accepted(f: Fetched<Reply>) {
    f.Received? && IsOk(f.status) && Succeeded(f.body)
  }

  /**
   * getModules: the server's list on an ok response. A non-ok response throws
   * "Erro ao buscar módulos: " followed by the status text, which its own
   * catch logs; so it, like anything else thrown, gives the empty list.
   */
  function ModulesOrEmpty(f: Fetched<seq<LearningModule>>): (r: seq<LearningModule>)
    ensures f.Received? && IsOk(f.status) ==> r == f.body
    ensures f.Thrown? || !IsOk(f.status) ==> r == []
  {
    match f
    case Thrown(_) => []
    case Received(status, statusText, body) =>
      if !IsOk(status) then [] else body
  }

  /**
   * addContentToModule: a non-ok response throws with the status text; an ok
   * one answers with whatever the reload yields. Here `Thrown` stands for a
   * network failure only, since this call never reads the body.
   */
  function AddContentOutcome(f: Fetched<Reply>, reload: Fetched<seq<LearningModule>>): (r: Result<seq<LearningModule>>)
    ensures f.Thrown? ==> r == Failure(f.reason)
    ensures f.Received? && !IsOk(f.status) ==> r == Failure(SaveErrorPrefix + f.statusText)
    ensures f.Received? && IsOk(f.status) ==> r == Success(ModulesOrEmpty(reload))
    ensures r.Success? <==> f.Received? && IsOk(f.status)
  {
    match f
    case Thrown(reason) => Failure(reason)
    case Received(status, statusText, _) =>
      if !IsOk(status) then Failure(SaveErrorPrefix + statusText)
      else Success(ModulesOrEmpty(reload))
  }

  /**
   * deleteContent: a non-ok response throws with the server's message, or a
   * default one; `data.success` is not consulted. An ok response answers with
   * whatever the reload yields.
   */
  function DeleteContentOutcome(f: Fetched<Reply>, reload: Fetched<seq<LearningModule>>): (r: Result<seq<LearningModule>>)
    ensures f.Thrown? ==> r == Failure(f.reason)
    ensures f.Received? && !IsOk(f.status) ==> r == Failure(OptOrElse(f.body.message, DeleteUnknownError))
    ensures f.Received? && IsOk(f.status) ==> r == Success(ModulesOrEmpty(reload))
    ensures r.Success? <==> f.Received? && IsOk(f.status)
  {
    match f
    case Thrown(reason) => Failure(reason)
    case Received(status, _, body) =>
      if !IsOk(status) then Failure(OptOrElse(body.message, DeleteUnknownError))
      else Success(ModulesOrEmpty(reload))
  }

  /**
   * addUser as written: true on `ok && success`. Any other response throws
   * the server's message (or the unknown-error default) inside the try, and
   * the catch replaces that, like any other thrown error, with the generic
   * connection error.
   */
  function AddUserOutcome(f: Fetched<Reply>): (r: Result<bool>)
    ensures r.Success? <==> Accepted(f)
    ensures r.Success? ==> r.value
    ensures r.Failure? ==> r.error == AddUserConnectionError
  {
    match f
    case Thrown(_) => Failure(AddUserConnectionError)
    case Received(status, _, body) =>
      if IsOk(status) && Succeeded(body) then Success(true)
      else Failure(AddUserConnectionError)
  }

  /**
   * addUser as its comments describe it: a refusal by the server surfaces the
   * server's message (or the default one), and only a failure to reach the
   * server reports the connection error.
   */
  function AddUserOutcomeIntended(f: Fetched<Reply>): (r: Result<bool>)
    ensures r.Success? <==> Accepted(f)
    ensures r.Success? ==> r.value
    ensures f.Thrown? ==> r == Failure(AddUserConnectionError)
    ensures f.Received? && !Accepted(f) ==> r == Failure(OptOrElse(f.body.message, AddUserUnknownError))
  {
    match f
    case Thrown(_) => Failure(AddUserConnectionError)
    case Received(status, _, body) =>
      if IsOk(status) && Succeeded(body) then Success(true)
      else Failure(OptOrElse(body.message, AddUserUnknownError))
  }

  /** The browser storage the service keeps its session in (other keys may be present). */
  class SessionStore {
    var items: map<string, Session>

    constructor(items: map<string, Session>)
      ensures this.items == items
    {
      this.items := items;
    }

    /** checkSession: a session record is stored. */
    function CheckSession(): (present: bool)
      reads this
      ensures present <==> SessionKey in items
    {
      SessionKey in items
    }

    /** getUser: the stored session's user, or null without a session. */
    function GetUser(): (user: Option<string>)
      reads this
      ensures SessionKey in items ==> user == items[SessionKey].user
      ensures SessionKey !in items ==> user.None?
    {
      if SessionKey in items then items[SessionKey].user else None
    }

    /** getUserRole: the stored session's role, or null without a session. */
    function GetUserRole(): (role: Option<string>)
      reads this
      ensures SessionKey in items ==> role == items[SessionKey].role
      ensures SessionKey !in items ==> role.None?
    {
      if SessionKey in items then items[SessionKey].role else None
    }

    /**
     * login: on `ok && success` stores `{user, role, token}` under the session
     * key and answers true; otherwise, thrown errors included, answers false
     * and leaves the storage as it was.
     */
    method Login(f: Fetched<Reply>) returns (ok: bool)
      modifies this
      ensures ok == Accepted(f)
      ensures ok ==> items == old(items)[SessionKey := Session(f.body.user, f.body.role, SessionToken)]
      ensures ok ==> CheckSession() && GetUser() == f.body.user && GetUserRole() == f.body.role
      ensures !ok ==> items == old(items)
    {
      match f
      case Thrown(_) =>
        ok := false;
      case Received(status, _, body) =>
        if IsOk(status) && Succeeded(body) {
          items := items[SessionKey := Session(body.user, body.role, SessionToken)];
          ok := true;
        } else {
          ok := false;
        }
    }

    /** logout: removes the session key and nothing else. */
    method Logout()
      modifies this
      ensures items == old(items) - {SessionKey}
      ensures !CheckSession() && GetUser().None? && GetUserRole().None?
    {
      items := items - {SessionKey};
    }
  }
}
