/**
 * Login: the request checks in their order, the two ways to log in
 * (an employee by employee id, a manager by username) and the session the
 * server keeps for the user.
 */
module AuthController {
  import opened Common
  import opened ServerData

  datatype LoginRequest = LoginRequest(username: Option<string>, password: Option<string>,
                                       employeeId: Option<string>, companyId: Option<string>)

  datatype LoginResult = LoginFailed(status: int, error: string) | LoggedIn(user: SessionUser)

  const InvalidCredentials := LoginFailed(401, "Invalid credentials")

  /** The manager account with that username in that company. */
  function ManagerAccount(companyId: string, username: string): User -> bool {
    (u: User) => u.companyId == companyId && u.username == username && u.role == "manager"
  }

  /** The session stored for a user: the employee id found on the employee
      path, else the account's own employee id; the employee name only when
      it is not empty. */
  function SessionOf(u: User, employeeId: Option<string>, employeeName: Option<string>): (s: SessionUser)
    ensures s.id == u.id && s.username == u.username && s.role == u.role && s.companyId == u.companyId
    ensures Truthy(employeeId) ==> s.employeeId == employeeId
    ensures !Truthy(employeeId) ==> s.employeeId == u.employeeId
    ensures s.employeeName.Some? ==> Truthy(employeeName) && s.employeeName == employeeName
  {
    SessionUser(u.id, u.username, u.role, u.companyId,
                if Truthy(employeeId) then employeeId else u.employeeId,
                if Truthy(employeeName) then employeeName else None)
  }

  /** The password check shared by both paths: no account or a wrong
      password is the same 401. */
  function Authenticate(account: Option<User>, password: string,
                        employeeId: Option<string>, employeeName: Option<string>): (r: LoginResult)
    ensures r.LoggedIn? <==> account.Some? && account.value.password == Hash(password)
    ensures r.LoginFailed? ==> r == InvalidCredentials
    ensures r.LoggedIn? ==> r.user == SessionOf(account.value, employeeId, employeeName)
  {
    if account.None? || account.value.password != Hash(password) then InvalidCredentials
    else LoggedIn(SessionOf(account.value, employeeId, employeeName))
  }

  function Login(req: LoginRequest, employees: seq<Employee>, users: seq<User>): (r: LoginResult)
    ensures r == LoginFailed(400, "companyId is required") <==> NormalizeCompanyId(req.companyId).None?
    ensures r == LoginFailed(400, "Password is required") <==>
      NormalizeCompanyId(req.companyId).Some? && !Truthy(req.password)
    ensures r == LoginFailed(400, "Username or employee_id required") <==>
      NormalizeCompanyId(req.companyId).Some? && Truthy(req.password)
      && !Truthy(req.employeeId) && !Truthy(req.username)
    ensures r.LoginFailed? ==> r.status == 400 || r == InvalidCredentials
    ensures r.LoggedIn? ==>
      && NormalizeCompanyId(req.companyId).Some? && Truthy(req.password)
      && (exists u :: u in users && u.id == r.user.id && u.password == Hash(req.password.value)
                   && u.companyId == NormalizeCompanyId(req.companyId).value)
  {
    var companyId := NormalizeCompanyId(req.companyId);
    if companyId.None? then LoginFailed(400, "companyId is required")
    else if !Truthy(req.password) then LoginFailed(400, "Password is required")
    else if Truthy(req.employeeId) then
      match Find(employees, ActiveEmployee(companyId.value, req.employeeId.value))
      case None => InvalidCredentials
      case Some(emp) =>
        Authenticate(Find(users, EmployeeAccount(companyId.value, emp.id)), req.password.value,
                     Some(emp.id), Some(emp.name))
    else if Truthy(req.username) then
      Authenticate(Find(users, ManagerAccount(companyId.value, req.username.value)), req.password.value,
                   None, None)
    else LoginFailed(400, "Username or employee_id required")
  }

  /** An employee id in the request takes precedence: the username is then
      ignored altogether. */
  lemma LoginEmployeeIdWins(req: LoginRequest, username: Option<string>, employees: seq<Employee>, users: seq<User>)
    requires Truthy(req.employeeId)
    ensures Login(req.(username := username), employees, users) == Login(req, employees, users)
  {
  }

  /** With a company and a password, a login by employee id succeeds
      exactly when the first active employee of the company with that id
      has an employee account whose hash matches; the session then names
      that employee. Any other outcome is the same 401. */
  lemma LoginByEmployeeId(req: LoginRequest, employees: seq<Employee>, users: seq<User>)
    requires NormalizeCompanyId(req.companyId).Some? && Truthy(req.password) && Truthy(req.employeeId)
    ensures var cid := NormalizeCompanyId(req.companyId).value;
      var r := Login(req, employees, users);
      var found := Find(employees, ActiveEmployee(cid, req.employeeId.value));
      var account := if found.Some? then Find(users, EmployeeAccount(cid, found.value.id)) else None;
      && (r.LoggedIn? <==> account.Some? && account.value.password == Hash(req.password.value))
      && (r.LoggedIn? ==> r.user == SessionOf(account.value, Some(found.value.id), Some(found.value.name)))
      && (r.LoginFailed? ==> r == InvalidCredentials)
  {
  }

  /** With a company, a password and no employee id, a login by username
      succeeds exactly when the company's manager account of that username
      has a matching hash; the session then carries no employee name. */
  lemma LoginByUsername(req: LoginRequest, employees: seq<Employee>, users: seq<User>)
    requires NormalizeCompanyId(req.companyId).Some? && Truthy(req.password)
    requires !Truthy(req.employeeId) && Truthy(req.username)
    ensures var cid := NormalizeCompanyId(req.companyId).value;
      var r := Login(req, employees, users);
      var account := Find(users, ManagerAccount(cid, req.username.value));
      && (r.LoggedIn? <==> account.Some? && account.value.password == Hash(req.password.value))
      && (r.LoggedIn? ==> r.user == SessionOf(account.value, None, None))
      && (r.LoginFailed? ==> r == InvalidCredentials)
  {
  }

  /** A login by employee id yields an employee-role session for an active
      employee of that company, carrying that employee's id and name. */
  lemma LoginAsEmployee(req: LoginRequest, employees: seq<Employee>, users: seq<User>)
    requires Truthy(req.employeeId)
    requires Login(req, employees, users).LoggedIn?
    ensures var s := Login(req, employees, users).user;
      && s.role == "employee"
      && s.employeeId == req.employeeId
      && s.companyId == NormalizeCompanyId(req.companyId).value
      && exists e :: e in employees && e.id == req.employeeId.value && e.active
                     && e.companyId == s.companyId && (s.employeeName.Some? ==> s.employeeName.value == e.name)
  {
    var companyId := NormalizeCompanyId(req.companyId).value;
    var emp := Find(employees, ActiveEmployee(companyId, req.employeeId.value)).value;
    var account := Find(users, EmployeeAccount(companyId, emp.id));
    assert account.Some? && EmployeeAccount(companyId, emp.id)(account.value);
  }

  /** Without an employee id, only a manager account can log in, by its
      username, and its session names no employee. */
  lemma LoginAsManager(req: LoginRequest, employees: seq<Employee>, users: seq<User>)
    requires !Truthy(req.employeeId)
    requires Login(req, employees, users).LoggedIn?
    ensures var s := Login(req, employees, users).user;
      && s.role == "manager" && Truthy(req.username) && s.username == req.username.value
      && s.companyId == NormalizeCompanyId(req.companyId).value
      && s.employeeName.None?
  {
    var companyId := NormalizeCompanyId(req.companyId).value;
    var account := Find(users, ManagerAccount(companyId, req.username.value));
    assert account.Some? && ManagerAccount(companyId, req.username.value)(account.value);
  }

  /** A password that matches no account of the company never logs in. */
  lemma LoginNeedsPassword(req: LoginRequest, employees: seq<Employee>, users: seq<User>)
    requires Truthy(req.password) && NormalizeCompanyId(req.companyId).Some?
    requires forall u :: u in users && u.companyId == NormalizeCompanyId(req.companyId).value
                         ==> u.password != Hash(req.password.value)
    ensures Login(req, employees, users).LoginFailed?
  {
  }
}
