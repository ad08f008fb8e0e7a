/**
 * The request guards of the server (`requireAuth`, `requireCompany`,
 * `requireManager`) and the chain of guards each route runs before its
 * handler.
 */
module Guards {
  import opened Common
  import opened ServerData

  /** A guard either hands the request on or answers it. */
  datatype Verdict = Next | Deny(status: int, error: string)

  /** 401 unless the session holds a user. */
  function RequireAuth(session: Option<SessionUser>): (v: Verdict)
    ensures v == Next <==> session.Some?
    ensures v.Deny? ==> v.status == 401
  {
    if session.None? then Deny(401, "Unauthorized - Please log in") else Next
  }

  /** The status of the company record with that slug, if one exists. */
  function CompanyStatus(companies: map<string, Status>, companyId: string): Option<Status> {
    if companyId in companies then Some(companies[companyId]) else None
  }

  /** 400 without a company id in the session; 403 when the company's
      record says it is suspended; a company without a record, or an active
      or trial one, passes. */
  function RequireCompany(session: Option<SessionUser>, companies: map<string, Status>): (v: Verdict)
    ensures v == Next <==>
      session.Some? && session.value.companyId != ""
      && CompanyStatus(companies, session.value.companyId) != Some(Suspended)
    ensures v.Deny? && (session.None? || session.value.companyId == "") ==> v.status == 400
    ensures v.Deny? && session.Some? && session.value.companyId != "" ==> v.status == 403
  {
    if session.None? || session.value.companyId == "" then Deny(400, "Missing companyId in session")
    else if CompanyStatus(companies, session.value.companyId) == Some(Suspended) then
      Deny(403, "Subscription expired. Please contact Jackie's Time Clock.")
    else Next
  }

  /** 403 unless the session user's role is exactly "manager". */
  function RequireManager(session: Option<SessionUser>): (v: Verdict)
    ensures v == Next <==> session.Some? && session.value.role == "manager"
    ensures v.Deny? ==> v.status == 403
  {
    if session.None? || session.value.role != "manager" then Deny(403, "Manager access required") else Next
  }

  datatype Guard = Auth | Company | Manager

  function Check(g: Guard, session: Option<SessionUser>, companies: map<string, Status>): Verdict {
    match g
    case Auth => RequireAuth(session)
    case Company => RequireCompany(session, companies)
    case Manager => RequireManager(session)
  }

  /** Runs the guards in order; the first that answers ends the request. */
  function RunChain(gs: seq<Guard>, session: Option<SessionUser>, companies: map<string, Status>): (v: Verdict)
    ensures v == Next <==> forall i :: 0 <= i < |gs| ==> Check(gs[i], session, companies) == Next
    ensures v.Deny? ==>
      exists i :: (0 <= i < |gs| && v == Check(gs[i], session, companies)
                   && forall j :: 0 <= j < i ==> Check(gs[j], session, companies) == Next)
  {
    if gs == [] then Next
    else
      var v0 := Check(gs[0], session, companies);
      if v0.Deny? then v0
      else
        var rest := RunChain(gs[1..], session, companies);
        if rest.Deny? then
          ghost var i :| 0 <= i < |gs[1..]| && rest == Check(gs[1..][i], session, companies)
            && forall j :: 0 <= j < i ==> Check(gs[1..][j], session, companies) == Next;
          assert rest == Check(gs[i + 1], session, companies);
          rest
        else
          assert forall i :: 1 <= i < |gs| ==> gs[i] == gs[1..][i - 1];
          rest
  }

  datatype Route =
    | GetCompanySettings | PutCompanySettings
    | GetPublicEmployees | GetEmployees | PostEmployee | PutEmployee | PutEmployeePassword | DeleteEmployee
    | PostPunch | GetPunches | DeletePunch
    | GetWeeklyReport

  /** The guards each route mounts, in order. */
  function ChainOf(r: Route): seq<Guard> {
    match r
    case GetCompanySettings => []
    case GetPublicEmployees => []
    case GetEmployees => [Auth, Company]
    case PostPunch => [Auth, Company]
    case GetPunches => [Auth, Company]
    case GetWeeklyReport => [Auth, Company]
    case _ => [Auth, Company, Manager]
  }

  predicate IsPublic(r: Route) {
    r == GetCompanySettings || r == GetPublicEmployees
  }

  predicate ManagersOnly(r: Route) {
    r == PutCompanySettings || r == PostEmployee || r == PutEmployee || r == PutEmployeePassword
    || r == DeleteEmployee || r == DeletePunch
  }

  /** A session with a company id whose company is not suspended. */
  predicate SessionAdmitted(session: Option<SessionUser>, companies: map<string, Status>) {
    session.Some? && session.value.companyId != ""
    && CompanyStatus(companies, session.value.companyId) != Some(Suspended)
  }

  /** A guarded route admits a request exactly when it carries a session
      with a company id whose company is not suspended, and, on the
      manager-only routes, a session whose role is "manager" (so a
      "super-admin" is refused there). The public routes admit everyone. */
  lemma {:induction false} RouteAdmits(r: Route, session: Option<SessionUser>, companies: map<string, Status>)
    ensures RunChain(ChainOf(r), session, companies) == Next <==>
      IsPublic(r)
      || (SessionAdmitted(session, companies) && (ManagersOnly(r) ==> session.value.role == "manager"))
  {
    ChainShape(r);
    if IsPublic(r) {
    } else if ManagersOnly(r) {
      ManagerChainAdmits(session, companies);
    } else {
      SessionChainAdmits(session, companies);
    }
  }

  /** The public routes mount no guard, the manager-only routes all three,
      and the others the session and company guards. */
  lemma ChainShape(r: Route)
    ensures IsPublic(r) ==> ChainOf(r) == []
    ensures ManagersOnly(r) ==> ChainOf(r) == [Auth, Company, Manager]
    ensures !IsPublic(r) && !ManagersOnly(r) ==> ChainOf(r) == [Auth, Company]
  {
  }

  /** The chain of the routes open to any logged-in user of an active company. */
  lemma SessionChainAdmits(session: Option<SessionUser>, companies: map<string, Status>)
    ensures RunChain([Auth, Company], session, companies) == Next <==> SessionAdmitted(session, companies)
  {
    var gs := [Auth, Company];
    if RequireAuth(session) == Next && RequireCompany(session, companies) == Next {
      forall i | 0 <= i < |gs| ensures Check(gs[i], session, companies) == Next {
        assert i == 0 || i == 1;
      }
    }
    assert Check(gs[0], session, companies) == RequireAuth(session);
    assert Check(gs[1], session, companies) == RequireCompany(session, companies);
  }

  /** The chain of the manager-only routes. */
  lemma ManagerChainAdmits(session: Option<SessionUser>, companies: map<string, Status>)
    ensures RunChain([Auth, Company, Manager], session, companies) == Next <==>
      SessionAdmitted(session, companies) && session.value.role == "manager"
  {
    var gs := [Auth, Company, Manager];
    if RequireAuth(session) == Next && RequireCompany(session, companies) == Next
       && RequireManager(session) == Next {
      forall i | 0 <= i < |gs| ensures Check(gs[i], session, companies) == Next {
        assert i == 0 || i == 1 || i == 2;
      }
    }
    assert Check(gs[0], session, companies) == RequireAuth(session);
    assert Check(gs[1], session, companies) == RequireCompany(session, companies);
    assert Check(gs[2], session, companies) == RequireManager(session);
  }

  /** The guards answer in the order they run: without a session every
      guarded route says 401, with a session but no company id 400, and a
      suspended company 403, before the role is looked at. */
  lemma {:induction false} RouteDenialOrder(r: Route, session: Option<SessionUser>, companies: map<string, Status>)
    requires !IsPublic(r)
    ensures session.None? ==> RunChain(ChainOf(r), session, companies) == Deny(401, "Unauthorized - Please log in")
    ensures session.Some? && session.value.companyId == "" ==>
      RunChain(ChainOf(r), session, companies) == Deny(400, "Missing companyId in session")
    ensures (session.Some? && session.value.companyId != ""
             && CompanyStatus(companies, session.value.companyId) == Some(Suspended)) ==>
      RunChain(ChainOf(r), session, companies)
        == Deny(403, "Subscription expired. Please contact Jackie's Time Clock.")
  {
    ChainDenialOrder(ChainOf(r), session, companies);
  }

  /** The same for any chain that starts with the session and company
      guards. */
  lemma ChainDenialOrder(gs: seq<Guard>, session: Option<SessionUser>, companies: map<string, Status>)
    requires |gs| >= 2 && gs[0] == Auth && gs[1] == Company
    ensures session.None? ==> RunChain(gs, session, companies) == Deny(401, "Unauthorized - Please log in")
    ensures session.Some? && session.value.companyId == "" ==>
      RunChain(gs, session, companies) == Deny(400, "Missing companyId in session")
    ensures (session.Some? && session.value.companyId != ""
             && CompanyStatus(companies, session.value.companyId) == Some(Suspended)) ==>
      RunChain(gs, session, companies) == Deny(403, "Subscription expired. Please contact Jackie's Time Clock.")
  {
    if session.Some? {
      assert Check(gs[0], session, companies) == Next;
      assert RunChain(gs, session, companies) == RunChain(gs[1..], session, companies);
    }
  }
}
