/** The credential check and the session gate of the admin console. */
module Auth {
  import opened Records

  /** The configured credentials; either is `None` when its environment
      variable is unset. */
  datatype AdminConfig = AdminConfig(username: Option<string>, password: Option<string>)

  /** The session entry that marks a logged-in administrator. */
  const AdminFlag: string := "admin"

  /** Python's `s == setting` where `setting` may be `None`: a string never equals `None`. */
  predicate EqualsSetting(s: string, setting: Option<string>)
  {
    match setting
    case None => false
    case Some(v) => v == s
  }

  /** `verify_admin`: exact comparison of both fields against the configuration. */
  function VerifyAdmin(cfg: AdminConfig, username: string, password: string): (ok: bool)
    ensures ok <==> cfg.username == Some(username) && cfg.password == Some(password)
  {
    EqualsSetting(username, cfg.username) && EqualsSetting(password, cfg.password)
  }

  /** With either setting missing, no pair of strings is accepted. */
  lemma UnsetCredentialsRejectAll(cfg: AdminConfig, username: string, password: string)
    requires cfg.username.None? || cfg.password.None?
    ensures !VerifyAdmin(cfg, username, password)
  {
  }

  /** A right username with a wrong password, or the reverse, is rejected. */
  lemma HalfRightRejected(cfg: AdminConfig, username: string, password: string)
    requires cfg.username == Some(username) <==> cfg.password != Some(password)
    ensures !VerifyAdmin(cfg, username, password)
  {
  }

  /** `session.get(key)`. */
  function SessionGet(session: map<string, bool>, key: string): (r: Option<bool>)
    ensures r.Some? <==> key in session
    ensures r.Some? ==> r.value == session[key]
  {
    if key in session then Some(session[key]) else None
  }

  /** Python truthiness of the value `session.get` returns. */
  predicate Truthy(v: Option<bool>)
  {
    match v
    case None => false
    case Some(b) => b
  }

  /** `require_admin`: passes exactly when the session holds a true `admin`
      entry, and otherwise rejects with 401. */
  function RequireAdmin(session: map<string, bool>): (r: Gate)
    ensures r.Pass? <==> AdminFlag in session && session[AdminFlag]
    ensures r.Fail? ==> r.error == Unauthorized && StatusCode(r.error) == 401
  {
    if Truthy(SessionGet(session, AdminFlag)) then Pass else Fail(Unauthorized)
  }

  /** An empty session (after logout, or never logged in) is rejected. */
  lemma EmptySessionRejected()
    ensures RequireAdmin(map[]) == Fail(Unauthorized)
  {
  }
}
