/**
 * The application shell: whether someone is signed in, who, which view is
 * shown, which module is open, the loaded module list and the loading flag,
 * with the handlers that change them and the choice of what to render.
 */
module Portal {
  import opened Types
  import opened Http
  import Storage
  import ContentManagement
  import Admin

  datatype View = DashboardView | PlayerView | AdminView

  /** What the shell renders. */
  datatype Screen = LoadingScreen | LoginScreen | PlayerScreen(shown: LearningModule) | AdminScreen | DashboardScreen

  /** The message handleLogin throws on a refused login. */
  const InvalidCredentialsError: string := "Invalid credentials"

  /** The shell renders the admin panel without an `onModulesUpdated` prop. */
  const AdminPanelGetsModulesUpdated: bool := false

  class AppState {
    var isAuthenticated: bool
    var isLoading: bool
    var modules: seq<LearningModule>
    var currentModuleId: Option<ModuleId>
    var view: View
    var currentUser: Option<string>
    const storage: Storage.SessionStore

    constructor(storage: Storage.SessionStore)
      ensures this.storage == storage
      ensures !isAuthenticated && isLoading && modules == []
      ensures currentModuleId.None? && view == DashboardView && currentUser.None?
    {
      this.storage := storage;
      isAuthenticated := false;
      isLoading := true;
      modules := [];
      currentModuleId := None;
      view := DashboardView;
      currentUser := None;
    }

    /**
     * The body of the initial load: a stored session signs the user in, then
     * the module list is fetched and loading ends.
     */
    method LoadData(fetched: Fetched<seq<LearningModule>>)
      modifies this
      ensures storage.CheckSession() ==> isAuthenticated && currentUser == storage.GetUser()
      ensures !storage.CheckSession() ==>
        isAuthenticated == old(isAuthenticated) && currentUser == old(currentUser)
      ensures modules == Storage.ModulesOrEmpty(fetched) && !isLoading
      ensures view == old(view) && currentModuleId == old(currentModuleId)
    {
      if storage.CheckSession() {
        isAuthenticated := true;
        currentUser := storage.GetUser();
      }
      modules := Storage.ModulesOrEmpty(fetched);
      isLoading := false;
    }

    /**
     * handleLogin: a successful login signs in the user name as typed; a
     * refused one throws and changes neither the shell nor the storage.
     */
    method HandleLogin(user: string, f: Fetched<Reply>) returns (r: Result<()>)
      modifies this, storage
      ensures r.Success? <==> Storage.Accepted(f)
      ensures r.Success? ==> isAuthenticated && currentUser == Some(user) && storage.CheckSession()
      ensures r.Success? ==>
        storage.items == old(storage.items)[Storage.SessionKey := Storage.Session(f.body.user, f.body.role, Storage.SessionToken)]
      ensures r.Success? ==> storage.GetUser() == f.body.user && storage.GetUserRole() == f.body.role
      ensures r.Failure? ==>
        r.error == InvalidCredentialsError &&
        isAuthenticated == old(isAuthenticated) && currentUser == old(currentUser) &&
        storage.items == old(storage.items)
      ensures isLoading == old(isLoading) && modules == old(modules)
      ensures view == old(view) && currentModuleId == old(currentModuleId)
    {
      var success := storage.Login(f);
      if success {
        isAuthenticated := true;
        currentUser := Some(user);
        r := Success(());
      } else {
        r := Failure(InvalidCredentialsError);
      }
    }

    /** handleLogout: signed out, no user, the dashboard, no open module, no stored session. */
    method HandleLogout()
      modifies this, storage
      ensures !isAuthenticated && currentUser.None? && view == DashboardView && currentModuleId.None?
      ensures !storage.CheckSession() && storage.GetUser().None? && storage.GetUserRole().None?
      ensures storage.items == old(storage.items) - {Storage.SessionKey}
      ensures isLoading == old(isLoading) && modules == old(modules)
    {
      storage.Logout();
      isAuthenticated := false;
      currentUser := None;
      view := DashboardView;
      currentModuleId := None;
    }

    /** handleModuleSelect: opens the module in the player. */
    method HandleModuleSelect(m: LearningModule)
      modifies this
      ensures currentModuleId == Some(m.id) && view == PlayerView
      ensures isAuthenticated == old(isAuthenticated) && currentUser == old(currentUser)
      ensures isLoading == old(isLoading) && modules == old(modules)
    {
      currentModuleId := Some(m.id);
      view := PlayerView;
    }

    /** handleBackToDashboard: closes the module and shows the dashboard. */
    method HandleBackToDashboard()
      modifies this
      ensures currentModuleId.None? && view == DashboardView
      ensures isAuthenticated == old(isAuthenticated) && currentUser == old(currentUser)
      ensures isLoading == old(isLoading) && modules == old(modules)
    {
      currentModuleId := None;
      view := DashboardView;
    }

    /** The header's management button. */
    method OpenAdmin()
      modifies this
      ensures view == AdminView && currentModuleId == old(currentModuleId)
      ensures isAuthenticated == old(isAuthenticated) && currentUser == old(currentUser)
      ensures isLoading == old(isLoading) && modules == old(modules)
    {
      view := AdminView;
    }

    /** The admin panel's close button. */
    method CloseAdmin()
      modifies this
      ensures view == DashboardView && currentModuleId == old(currentModuleId)
      ensures isAuthenticated == old(isAuthenticated) && currentUser == old(currentUser)
      ensures isLoading == old(isLoading) && modules == old(modules)
    {
      view := DashboardView;
    }

    /**
     * handleAddContent: `f` is the reply to the POST /content request the
     * admin form's submission makes, `reload` the module reload after it. On
     * success the list becomes the reloaded one (empty if the reload failed);
     * on failure it stays; loading ends either way.
     */
    method HandleAddContent(f: Fetched<Reply>, reload: Fetched<seq<LearningModule>>)
      modifies this
      ensures f.Received? && IsOk(f.status) ==> modules == Storage.ModulesOrEmpty(reload)
      ensures !(f.Received? && IsOk(f.status)) ==> modules == old(modules)
      ensures !isLoading
      ensures isAuthenticated == old(isAuthenticated) && currentUser == old(currentUser)
      ensures view == old(view) && currentModuleId == old(currentModuleId)
    {
      BeginAddContent();
      FinishAddContent(f, reload);
    }

    /** The part of handleAddContent before its first await: the loading flag is raised, so the spinner is all that renders. */
    method BeginAddContent()
      modifies this
      ensures isLoading && CurrentScreen() == LoadingScreen
      ensures modules == old(modules)
      ensures isAuthenticated == old(isAuthenticated) && currentUser == old(currentUser)
      ensures view == old(view) && currentModuleId == old(currentModuleId)
    {
      isLoading := true;
    }

    /** The rest of handleAddContent: the list from the outcome, then the `finally`. */
    method FinishAddContent(f: Fetched<Reply>, reload: Fetched<seq<LearningModule>>)
      modifies this
      ensures f.Received? && IsOk(f.status) ==> modules == Storage.ModulesOrEmpty(reload)
      ensures !(f.Received? && IsOk(f.status)) ==> modules == old(modules)
      ensures !isLoading
      ensures isAuthenticated == old(isAuthenticated) && currentUser == old(currentUser)
      ensures view == old(view) && currentModuleId == old(currentModuleId)
    {
      var outcome := Storage.AddContentOutcome(f, reload);
      if outcome.Success? {
        modules := outcome.value;
      }
      isLoading := false;
    }

    /**
     * A submit of the admin form as the shell runs it. The form hands its
     * submission to handleAddContent, which raises the loading flag before
     * its first await; the shell then renders only the spinner, so the admin
     * panel is unmounted, and once loading ends it is mounted afresh. The
     * success message the submit set is never shown, and the tab and the
     * selected module are back at their initial values.
     */
    method SubmitFromAdmin(form: Admin.AdminForm, f: Fetched<Reply>, reload: Fetched<seq<LearningModule>>)
      returns (s: Admin.Submission, during: Screen, remounted: Admin.AdminForm)
      requires isAuthenticated && !isLoading && view == AdminView
      modifies this, form
      ensures s.moduleId == old(form.selectedModule) && s.kind == old(form.activeTab)
      ensures during == LoadingScreen
      ensures CurrentScreen() == AdminScreen
      ensures fresh(remounted)
      ensures remounted.successMessage.None? && remounted.activeTab == VideoContent
      ensures remounted.selectedModule == (if |modules| > 0 then modules[0].id else "")
      ensures f.Received? && IsOk(f.status) ==> modules == Storage.ModulesOrEmpty(reload)
      ensures !(f.Received? && IsOk(f.status)) ==> modules == old(modules)
      ensures currentUser == old(currentUser) && currentModuleId == old(currentModuleId)
    {
      s := form.HandleSubmit();
      BeginAddContent();
      during := CurrentScreen();
      FinishAddContent(f, reload);
      remounted := new Admin.AdminForm(modules);
    }

    /**
     * handleAddContent without the full-screen loading flag: the list is
     * updated from the outcome and the shell keeps rendering what it rendered.
     */
    method HandleAddContentInPlace(f: Fetched<Reply>, reload: Fetched<seq<LearningModule>>)
      modifies this
      ensures f.Received? && IsOk(f.status) ==> modules == Storage.ModulesOrEmpty(reload)
      ensures !(f.Received? && IsOk(f.status)) ==> modules == old(modules)
      ensures isLoading == old(isLoading)
      ensures isAuthenticated == old(isAuthenticated) && currentUser == old(currentUser)
      ensures view == old(view) && currentModuleId == old(currentModuleId)
    {
      var outcome := Storage.AddContentOutcome(f, reload);
      if outcome.Success? {
        modules := outcome.value;
      }
    }

    /**
     * A submit of the admin form with the panel kept mounted: the admin panel
     * stays on screen, its success message is shown, and the tab, the selected
     * module and the document type stay as the user left them.
     */
    method SubmitFromAdminKeepingPanel(form: Admin.AdminForm, f: Fetched<Reply>, reload: Fetched<seq<LearningModule>>)
      returns (s: Admin.Submission)
      requires isAuthenticated && !isLoading && view == AdminView
      modifies this, form
      ensures s.moduleId == old(form.selectedModule) && s.kind == old(form.activeTab)
      ensures CurrentScreen() == AdminScreen
      ensures form.successMessage ==
        Some(if old(form.activeTab) == VideoContent then Admin.VideoAddedMessage else Admin.DocumentAddedMessage)
      ensures form.activeTab == old(form.activeTab) && form.selectedModule == old(form.selectedModule)
      ensures form.docType == old(form.docType)
      ensures f.Received? && IsOk(f.status) ==> modules == Storage.ModulesOrEmpty(reload)
      ensures !(f.Received? && IsOk(f.status)) ==> modules == old(modules)
      ensures currentUser == old(currentUser) && currentModuleId == old(currentModuleId)
    {
      s := form.HandleSubmit();
      HandleAddContentInPlace(f, reload);
    }

    /**
     * A confirmed delete in the content-management panel, wired as the shell
     * wires it: the panel gets no `onModulesUpdated`, so the shell's list never
     * changes and a delete the server confirmed ends in the failure alert.
     */
    method DeleteFromAdmin(panel: ContentManagement.ContentPanel, f: Fetched<Reply>, reload: Fetched<seq<LearningModule>>)
      returns (outcome: ContentManagement.DeleteOutcome)
      modifies panel
      ensures modules == old(modules)
      ensures old(panel.deletionTarget).Some? && f.Received? && IsOk(f.status) ==>
        outcome == ContentManagement.Alerted(ContentManagement.FailureAlert(old(panel.deletionTarget).value.kind))
      ensures !panel.isDeleting || old(panel.deletionTarget).None?
      ensures panel.deletionTarget.None?
      ensures panel.expandedModules == old(panel.expandedModules)
      ensures panel.expandedCategories == old(panel.expandedCategories)
      ensures isAuthenticated == old(isAuthenticated) && currentUser == old(currentUser) && isLoading == old(isLoading)
      ensures view == old(view) && currentModuleId == old(currentModuleId)
    {
      // Without the callback nothing reaches the shell's own state.
      outcome := panel.ExecuteDelete(f, reload, AdminPanelGetsModulesUpdated);
    }

    /**
     * The same delete with `onModulesUpdated` passed down to the panel: a
     * delete the server confirmed replaces the list with the reloaded one.
     */
    method DeleteFromAdminWired(panel: ContentManagement.ContentPanel, f: Fetched<Reply>, reload: Fetched<seq<LearningModule>>)
      returns (outcome: ContentManagement.DeleteOutcome)
      modifies this, panel
      ensures old(panel.deletionTarget).Some? && f.Received? && IsOk(f.status) ==>
        outcome == ContentManagement.ModulesUpdated(Storage.ModulesOrEmpty(reload)) &&
        modules == Storage.ModulesOrEmpty(reload)
      ensures !(old(panel.deletionTarget).Some? && f.Received? && IsOk(f.status)) ==> modules == old(modules)
      ensures !panel.isDeleting || old(panel.deletionTarget).None?
      ensures panel.deletionTarget.None?
      ensures panel.expandedModules == old(panel.expandedModules)
      ensures panel.expandedCategories == old(panel.expandedCategories)
      ensures isAuthenticated == old(isAuthenticated) && currentUser == old(currentUser) && isLoading == old(isLoading)
      ensures view == old(view) && currentModuleId == old(currentModuleId)
    {
      outcome := panel.ExecuteDelete(f, reload, true);
      if outcome.ModulesUpdated? {
        modules := outcome.modules;
      }
    }

    /** getCurrentModule: the first loaded module with the current id; none without a current id. */
    function GetCurrentModule(): (r: Option<LearningModule>)
      reads this
      ensures currentModuleId.None? ==> r.None?
      ensures r.Some? ==> r.value in modules && currentModuleId == Some(r.value.id)
      ensures r.Some? ==>
        exists i :: (0 <= i < |modules| && modules[i] == r.value &&
          forall j :: 0 <= j < i ==> modules[j].id != r.value.id)
      ensures currentModuleId.Some? && r.None? ==> forall j :: 0 <= j < |modules| ==> modules[j].id != currentModuleId.value
    {
      match currentModuleId
      case None => None
      case Some(id) =>
        match FindModule(modules, id)
        case None => None
        case Some(i) => Some(modules[i])
    }

    /**
     * The render guards: loading first, then the login form for a signed-out
     * user; the player only for the player view with an existing module;
     * otherwise the admin panel or the dashboard.
     */
    function CurrentScreen(): (s: Screen)
      reads this
      ensures isLoading ==> s == LoadingScreen
      ensures !isLoading && !isAuthenticated ==> s == LoginScreen
      ensures s.PlayerScreen? <==> !isLoading && isAuthenticated && view == PlayerView && GetCurrentModule().Some?
      ensures s.PlayerScreen? ==> s.shown in modules && currentModuleId == Some(s.shown.id)
      ensures s == AdminScreen <==> !isLoading && isAuthenticated && view == AdminView
      ensures s == DashboardScreen <==>
        !isLoading && isAuthenticated && view != AdminView && !(view == PlayerView && GetCurrentModule().Some?)
    {
      if isLoading then LoadingScreen
      else if !isAuthenticated then LoginScreen
      else if view == PlayerView && GetCurrentModule().Some? then PlayerScreen(GetCurrentModule().value)
      else if view == AdminView then AdminScreen
      else DashboardScreen
    }
  }
}
