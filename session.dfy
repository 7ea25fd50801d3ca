/** The login and logout routes, which are the only writers of the session. */
module Session {
  import opened Records
  import Auth

  /** Where a route redirects to. */
  datatype Redirect = ToDashboard | ToLogin

  /** The signed-cookie session of one browser, as the dictionary the routes see. */
  class AdminSession {
    var entries: map<string, bool>

    constructor ()
      ensures entries == map[]
    {
      entries := map[];
    }

    /** `POST /login`: a verified pair sets the `admin` flag and redirects to
        the dashboard; any other pair leaves the session as it was. */
    method Login(cfg: Auth.AdminConfig, username: string, password: string) returns (target: Redirect)
      modifies this
      ensures Auth.VerifyAdmin(cfg, username, password) ==>
        entries == old(entries)[Auth.AdminFlag := true] && target == ToDashboard
      ensures Auth.VerifyAdmin(cfg, username, password) ==> Auth.RequireAdmin(entries) == Pass
      ensures !Auth.VerifyAdmin(cfg, username, password) ==>
        entries == old(entries) && target == ToLogin
    {
      if Auth.VerifyAdmin(cfg, username, password) {
        entries := entries[Auth.AdminFlag := true];
        target := ToDashboard;
      } else {
        target := ToLogin;
      }
    }

    /** `GET /logout`: clears the whole session, after which the gate rejects. */
    method Logout() returns (target: Redirect)
      modifies this
      ensures entries == map[] && target == ToLogin
      ensures Auth.RequireAdmin(entries) == Fail(Unauthorized)
    {
      entries := map[];
      target := ToLogin;
    }
  }
}
