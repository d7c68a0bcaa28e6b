/** The web frontend's routes: reading a pathname and printing the path of a session. */
module Routing {
  import opened PercentCoding
  import opened Text
  import opened Wrappers

  datatype SettingsSection = AccountsSection | AgentsSection

  datatype AppRoute =
    | Home
    | Register
    | SignIn
    | Accounts
    | Settings(section: SettingsSection)
    | Workspaces
    | Session(id: string)
    | WorkspaceSession(workspaceId: string, sessionId: string)
    | NotFound

  function TrimEndSlashes(s: string): (t: string)
    ensures t <= s && (t == "" || t[|t| - 1] != '/')
    ensures s != "" && s[|s| - 1] != '/' ==> t == s
  {
    if s != "" && s[|s| - 1] == '/' then TrimEndSlashes(s[..|s| - 1]) else s
  }

  function StaticAppRoute(pathname: string): Option<AppRoute> {
    var path := TrimEndSlashes(pathname);
    if path == "/app" then Some(Home)
    else if path == "/app/register" then Some(Register)
    else if path == "/app/sign-in" then Some(SignIn)
    else if path == "/app/accounts" then Some(Accounts)
    else if path == "/app/settings" || path == "/app/settings/accounts" then Some(Settings(AccountsSection))
    else if path == "/app/settings/agents" then Some(Settings(AgentsSection))
    else if path == "/app/workspaces" then Some(Workspaces)
    else None
  }

  const SESSIONS := "/app/sessions/"
  const WORKSPACES := "/app/workspaces/"
  const INFIX := "/sessions/"

  function WorkspaceSessionRoute(pathname: string): Option<AppRoute> {
    if !(WORKSPACES <= pathname) then None
    else
      match SplitOnce(StripPrefix(pathname, WORKSPACES), INFIX)
      case None => None
      case Some((workspaceId, sessionPart)) =>
        if workspaceId == "" || sessionPart == "" || '/' in sessionPart then None
        else
          match (Decoded(workspaceId), Decoded(sessionPart))
          case (Some(w), Some(s)) => Some(WorkspaceSession(w, s))
          case _ => None
  }

  function SessionRoute(pathname: string): Option<AppRoute> {
    match WorkspaceSessionRoute(pathname)
    case Some(route) => Some(route)
    case None =>
      if !(SESSIONS <= pathname) || pathname == SESSIONS then None
      else
        match Decoded(StripPrefix(pathname, SESSIONS))
        case Some(id) => Some(Session(id))
        case None => None
  }

  function RouteFromPathname(pathname: string): AppRoute {
    match StaticAppRoute(pathname)
    case Some(route) => route
    case None =>
      match SessionRoute(pathname)
      case Some(route) => route
      case None => NotFound
  }

  function AppSessionPath(sessionId: string): string {
    SESSIONS + Encoded(sessionId)
  }

  function AppWorkspaceSessionPath(workspaceId: string, sessionId: string): string {
    WORKSPACES + Encoded(workspaceId) + INFIX + Encoded(sessionId)
  }

  function AppSessionPathForWorkspace(workspaceId: Option<string>, sessionId: string): string {
    if workspaceId.Some? && Trim(workspaceId.value) != "" then
      AppWorkspaceSessionPath(workspaceId.value, sessionId)
    else
      AppSessionPath(sessionId)
  }

  // ----- parsing what was printed

  lemma NotStatic(path: string)
    requires path != "" && path[|path| - 1] != '/'
    requires SESSIONS <= path || WORKSPACES <= path
    ensures StaticAppRoute(path) == None
  {
    if SESSIONS <= path {
      assert path[7] == SESSIONS[7] == 's';
      assert |path| > 7 && path[5] == SESSIONS[5] == 's';
    } else {
      assert path[5] == WORKSPACES[5] == 'w' && path[15] == WORKSPACES[15] == '/';
    }
  }

  lemma LastOf(prefix: string, component: string)
    requires component != ""
    ensures (prefix + Encoded(component))[|prefix + Encoded(component)| - 1] != '/'
  {
    EncodedForm(component);
    var e := Encoded(component);
    assert (prefix + e)[|prefix + e| - 1] == e[|e| - 1];
  }

  lemma EmptySessionPath()
    ensures RouteFromPathname(SESSIONS) == NotFound
  {
    assert SESSIONS[..|SESSIONS| - 1] == "/app/sessions";
    assert TrimEndSlashes(SESSIONS) == "/app/sessions";
    assert SESSIONS[5] != WORKSPACES[5];
  }

  lemma SessionPathSplits(sessionId: string)
    requires sessionId != ""
    ensures SessionRoute(AppSessionPath(sessionId)) == Some(Session(sessionId))
  {
    var path := AppSessionPath(sessionId);
    EncodedForm(sessionId);
    assert path[5] == SESSIONS[5] != WORKSPACES[5];
    DecodedInvertsEncoded(sessionId);
  }

  lemma SessionPathParses(sessionId: string)
    ensures RouteFromPathname(AppSessionPath(sessionId)) == if sessionId == "" then NotFound else Session(sessionId)
  {
    if sessionId == "" {
      EncodedForm("");
      EmptySessionPath();
      assert AppSessionPath("") == SESSIONS;
    } else {
      SessionPathSplits(sessionId);
      LastOf(SESSIONS, sessionId);
      NotStatic(AppSessionPath(sessionId));
    }
  }

  lemma WorkspacePathSplits(workspaceId: string, sessionId: string)
    requires workspaceId != "" && sessionId != ""
    ensures WorkspaceSessionRoute(AppWorkspaceSessionPath(workspaceId, sessionId)) ==
              Some(WorkspaceSession(workspaceId, sessionId))
  {
    var w, s := Encoded(workspaceId), Encoded(sessionId);
    EncodedForm(workspaceId);
    EncodedForm(sessionId);
    assert AppWorkspaceSessionPath(workspaceId, sessionId) == WORKSPACES + (w + INFIX + s);
    SplitAtFirst(w, INFIX, s);
    DecodedInvertsEncoded(workspaceId);
    DecodedInvertsEncoded(sessionId);
  }

  lemma WorkspacePathParses(workspaceId: string, sessionId: string)
    requires workspaceId != "" && sessionId != ""
    ensures RouteFromPathname(AppWorkspaceSessionPath(workspaceId, sessionId)) == WorkspaceSession(workspaceId, sessionId)
  {
    WorkspacePathSplits(workspaceId, sessionId);
    LastOf(WORKSPACES + Encoded(workspaceId) + INFIX, sessionId);
    NotStatic(AppWorkspaceSessionPath(workspaceId, sessionId));
  }

  /** Reading undoes printing for every non-empty session id; a blank workspace is left out. */
  lemma RouteUndoesPath(workspaceId: Option<string>, sessionId: string)
    requires sessionId != ""
    ensures RouteFromPathname(AppSessionPathForWorkspace(workspaceId, sessionId)) ==
              if workspaceId.Some? && !Blank(workspaceId.value) then WorkspaceSession(workspaceId.value, sessionId)
              else Session(sessionId)
  {
    if workspaceId.Some? {
      TrimIsTrimmed(workspaceId.value);
    }
    if workspaceId.Some? && !Blank(workspaceId.value) {
      WorkspacePathParses(workspaceId.value, sessionId);
    } else {
      SessionPathParses(sessionId);
    }
  }

  // ----- printing what was parsed

  predicate IsSessionRoute(route: AppRoute) {
    route.Session? || route.WorkspaceSession?
  }

  function PathOf(route: AppRoute): string
    requires IsSessionRoute(route)
  {
    match route
    case Session(id) => AppSessionPath(id)
    case WorkspaceSession(w, s) => AppWorkspaceSessionPath(w, s)
  }

  lemma ParsedPartsAreNotEmpty(pathname: string)
    requires IsSessionRoute(RouteFromPathname(pathname))
    ensures match RouteFromPathname(pathname)
            case Session(id) => id != ""
            case WorkspaceSession(w, s) => w != "" && s != ""
  {
    match RouteFromPathname(pathname)
    case Session(_) =>
      DecodedEmptiness(StripPrefix(pathname, SESSIONS));
    case WorkspaceSession(_, _) =>
      var (w, s) := SplitOnce(StripPrefix(pathname, WORKSPACES), INFIX).value;
      DecodedEmptiness(w);
      DecodedEmptiness(s);
  }

  /** A pathname that names a session, printed back from its route, names the same session. */
  lemma PrintedRouteParsesBack(pathname: string)
    requires IsSessionRoute(RouteFromPathname(pathname))
    ensures RouteFromPathname(PathOf(RouteFromPathname(pathname))) == RouteFromPathname(pathname)
  {
    ParsedPartsAreNotEmpty(pathname);
    match RouteFromPathname(pathname)
    case Session(id) => SessionPathParses(id);
    case WorkspaceSession(w, s) => WorkspacePathParses(w, s);
  }

  /**
   app_session_path_for_workspace is the printer the frontend uses; it drops a workspace that
   is all white space, so a parsed route survives it exactly when the workspace is not blank.
   */
  lemma WorkspacePrinterKeepsRouteIffNotBlank(pathname: string)
    requires RouteFromPathname(pathname).WorkspaceSession?
    ensures var route := RouteFromPathname(pathname);
            RouteFromPathname(AppSessionPathForWorkspace(Some(route.workspaceId), route.sessionId)) == route
            <==> !Blank(route.workspaceId)
  {
    ParsedPartsAreNotEmpty(pathname);
    var route := RouteFromPathname(pathname);
    RouteUndoesPath(Some(route.workspaceId), route.sessionId);
  }

  /** A pathname with a blank workspace: %20 reads as one space. */
  lemma BlankWorkspaceIsLost()
    ensures var pathname := AppWorkspaceSessionPath(" ", "s1");
            && RouteFromPathname(pathname) == WorkspaceSession(" ", "s1")
            && RouteFromPathname(AppSessionPathForWorkspace(Some(" "), "s1")) == Session("s1")
  {
    WorkspacePathParses(" ", "s1");
    RouteUndoesPath(Some(" "), "s1");
  }

  // ----- which pathnames lead where

  function Slashes(n: nat): string {
    seq(n, i requires 0 <= i < n => '/')
  }

  lemma {:induction false} SlashesAreTrimmed(path: string, n: nat)
    requires path != "" && path[|path| - 1] != '/'
    ensures TrimEndSlashes(path + Slashes(n)) == path
  {
    if n == 0 {
      assert path + Slashes(0) == path;
    } else {
      assert (path + Slashes(n))[..|path| + n - 1] == path + Slashes(n - 1);
      SlashesAreTrimmed(path, n - 1);
    }
  }

  /** Slashes at the end do not matter to the fixed pages. */
  lemma TrailingSlashesPlayNoPart(path: string, n: nat)
    requires path != "" && path[|path| - 1] != '/'
    ensures StaticAppRoute(path + Slashes(n)) == StaticAppRoute(path)
  {
    SlashesAreTrimmed(path, n);
    SlashesAreTrimmed(path, 0);
    assert path + Slashes(0) == path;
  }

  /** The fixed pages. */
  lemma StaticPages(path: string)
    ensures path == "/app" ==> RouteFromPathname(path) == Home
    ensures path == "/app/register" ==> RouteFromPathname(path) == Register
    ensures path == "/app/sign-in" ==> RouteFromPathname(path) == SignIn
    ensures path == "/app/accounts" ==> RouteFromPathname(path) == Accounts
    ensures path == "/app/settings" || path == "/app/settings/accounts" ==> RouteFromPathname(path) == Settings(AccountsSection)
    ensures path == "/app/settings/agents" ==> RouteFromPathname(path) == Settings(AgentsSection)
    ensures path == "/app/workspaces" ==> RouteFromPathname(path) == Workspaces
    ensures !("/app" <= path) ==> RouteFromPathname(path) == NotFound
  {
    if path != "" && path[|path| - 1] != '/' {
      assert TrimEndSlashes(path) == path;
    }
    if !("/app" <= path) {
      assert TrimEndSlashes(path) <= path;
      assert "/app" <= SESSIONS && "/app" <= WORKSPACES;
    }
  }

  /** This pathname holds these two parts, as yet encoded, and the session part is a single segment. */
  ghost predicate HasParts(pathname: string, workspacePart: string, sessionPart: string) {
    && pathname == WORKSPACES + workspacePart + INFIX + sessionPart
    && FirstAfter(workspacePart + INFIX + sessionPart, INFIX, workspacePart, sessionPart)
    && workspacePart != "" && sessionPart != "" && '/' !in sessionPart
  }

  /** A pathname names a workspace session exactly if it holds two such parts and both decode. */
  lemma WorkspaceRouteIff(pathname: string, workspaceId: string, sessionId: string)
    ensures WorkspaceSessionRoute(pathname) == Some(WorkspaceSession(workspaceId, sessionId)) <==>
              exists w, s :: HasParts(pathname, w, s) && Decoded(w) == Some(workspaceId) && Decoded(s) == Some(sessionId)
  {
    if WorkspaceSessionRoute(pathname) == Some(WorkspaceSession(workspaceId, sessionId)) {
      var rest := StripPrefix(pathname, WORKSPACES);
      var (w, s) := SplitOnce(rest, INFIX).value;
      SplitOnceIff(rest, INFIX, w, s);
      assert HasParts(pathname, w, s);
    }
    if w, s :| HasParts(pathname, w, s) && Decoded(w) == Some(workspaceId) && Decoded(s) == Some(sessionId) {
      PartsAreFound(pathname, w, s);
    }
  }

  lemma PartsAreFound(pathname: string, w: string, s: string)
    requires HasParts(pathname, w, s)
    ensures WORKSPACES <= pathname && SplitOnce(StripPrefix(pathname, WORKSPACES), INFIX) == Some((w, s))
  {
    assert pathname == WORKSPACES + (w + INFIX + s);
    SplitOnceIff(w + INFIX + s, INFIX, w, s);
  }

  lemma PrefixesDiffer(pathname: string)
    ensures !(SESSIONS <= pathname && WORKSPACES <= pathname)
  {
    assert SESSIONS[5] != WORKSPACES[5];
  }

  /** A pathname names a plain session exactly if a part that is not empty follows the prefix and decodes; slashes in it are allowed. */
  lemma SessionRouteIff(pathname: string, sessionId: string)
    ensures SessionRoute(pathname) == Some(Session(sessionId)) <==>
              exists s :: s != "" && pathname == SESSIONS + s && Decoded(s) == Some(sessionId)
  {
    PrefixesDiffer(pathname);
    if SessionRoute(pathname) == Some(Session(sessionId)) {
      var s := StripPrefix(pathname, SESSIONS);
      assert s != "" && pathname == SESSIONS + s && Decoded(s) == Some(sessionId);
    }
    if s :| s != "" && pathname == SESSIONS + s && Decoded(s) == Some(sessionId) {
      assert StripPrefix(pathname, SESSIONS) == s;
    }
  }
}
