/** The identity service: registration and login over the user collection.
    Password hashing and comparison (bcrypt) and token signing (JWT) are not
    interpreted: the comparison is a function the registry is given, and a
    token is the value that names the user it was issued for. */
module Auth {
  import opened Common

  datatype User = User(
    id: UserId,
    username: string,
    email: string,
    password: string,          // the stored credential; only `comparePassword` looks at it
    fullName: string,
    role: string,
    employeeId: Option<string>)

  /** `generateToken(id)`: a signed token whose payload is the user id. */
  datatype Token = Token(subject: UserId)

  /** The `{ token, user }` body of a successful login or registration. */
  datatype Session = Session(token: Token, user: PublicUser)

  const LoginFieldsMissing := Error(400, "Please provide email and password")
  const InvalidCredentials := Error(401, "Invalid credentials")
  const RegisterFieldsMissing := Error(400, "Please provide all required fields")
  const UserExists := Error(400, "User already exists")
  const EmployeeIdExists := Error(400, "Employee ID already exists")

  /** The user object of a reply: the stored user without password or employee id. */
  function Public(u: User): PublicUser
  {
    PublicUser(u.id, u.username, u.email, u.fullName, u.role)
  }

  /** The user object of a reply does not depend on the stored credential or
      the employee id: two users that differ only there give the same reply. */
  lemma PublicHidesCredentials(u: User, password: string, employeeId: Option<string>)
    ensures Public(u) == Public(u.(password := password, employeeId := employeeId))
  {
  }

  /** `role || 'employee'`. */
  function RoleOrDefault(role: Option<string>): (r: string)
    ensures r != ""
  {
    if Present(role) then role.value else EMPLOYEE
  }

  /** `employeeId || undefined`. */
  function EmployeeIdOrAbsent(employeeId: Option<string>): (e: Option<string>)
    ensures e.Some? ==> e.value != ""
  {
    if Present(employeeId) then employeeId else None
  }

  /** Ids are consistent, the required fields are non-empty, and email,
      username and (when present) employee id identify at most one user. */
  ghost predicate WellFormedUsers(users: map<UserId, User>, nextId: UserId)
  {
    && (forall id :: id in users ==>
          && id < nextId && users[id].id == id
          && users[id].username != "" && users[id].email != ""
          && users[id].password != "" && users[id].fullName != "" && users[id].role != ""
          && (users[id].employeeId.Some? ==> users[id].employeeId.value != ""))
    && (forall a, b :: a in users && b in users && a != b ==>
          && users[a].email != users[b].email
          && users[a].username != users[b].username
          && (users[a].employeeId.Some? ==> users[a].employeeId != users[b].employeeId))
  }

  /** Adding a user whose email, username and employee id are all unused keeps
      the collection well formed. */
  lemma AddUserKeepsWellFormed(users: map<UserId, User>, nextId: UserId, u: User)
    requires WellFormedUsers(users, nextId)
    requires u.id == nextId
    requires u.username != "" && u.email != "" && u.password != "" && u.fullName != "" && u.role != ""
    requires u.employeeId.Some? ==> u.employeeId.value != ""
    requires forall id :: id in users ==> users[id].email != u.email && users[id].username != u.username
    requires u.employeeId.Some? ==> forall id :: id in users ==> users[id].employeeId != u.employeeId
    ensures WellFormedUsers(users[nextId := u], nextId + 1)
  {
    var users' := users[nextId := u];
    forall a, b | a in users' && b in users' && a != b
      ensures && users'[a].email != users'[b].email
              && users'[a].username != users'[b].username
              && (users'[a].employeeId.Some? ==> users'[a].employeeId != users'[b].employeeId)
    {
      if a == nextId {
        assert b in users;
      } else if b == nextId {
        assert a in users;
      }
    }
  }

  class UserRegistry {
    /** The user collection, keyed by user id. */
    var users: map<UserId, User>
    /** The next id the collection hands out. */
    var nextId: UserId
    /** `user.comparePassword(candidate)`: stored credential, candidate. */
    const comparePassword: (string, string) -> bool

    ghost predicate Valid()
      reads this
    {
      WellFormedUsers(users, nextId)
    }

    constructor (compare: (string, string) -> bool)
      ensures Valid() && users == map[] && nextId == 0 && comparePassword == compare
    {
      users := map[];
      nextId := 0;
      comparePassword := compare;
    }

    /** Whether a stored user has this email or this username. */
    predicate Taken(email: string, username: string)
      reads this
    {
      exists id :: id in users && (users[id].email == email || users[id].username == username)
    }

    /** Whether a stored user has this employee id. */
    predicate EmployeeIdTaken(employeeId: string)
      reads this
    {
      exists id :: id in users && users[id].employeeId == Some(employeeId)
    }

    /** `register`: required fields, then email/username uniqueness, then
        employee-id uniqueness, then one new user. */
    method Register(username: Option<string>, email: Option<string>, password: Option<string>,
                    fullName: Option<string>, role: Option<string>, employeeId: Option<string>)
      returns (r: Result<Session>)
      requires Valid()
      modifies this
      ensures Valid()
      ensures !Present(username) || !Present(email) || !Present(password) || !Present(fullName) ==>
        r == Err(RegisterFieldsMissing) && users == old(users) && nextId == old(nextId)
      ensures Present(username) && Present(email) && Present(password) && Present(fullName) ==>
        if old(Taken(email.value, username.value)) then
          r == Err(UserExists) && users == old(users) && nextId == old(nextId)
        else if Present(employeeId) && old(EmployeeIdTaken(employeeId.value)) then
          r == Err(EmployeeIdExists) && users == old(users) && nextId == old(nextId)
        else
          var u := User(old(nextId), username.value, email.value, password.value, fullName.value,
                        RoleOrDefault(role), EmployeeIdOrAbsent(employeeId));
          && old(nextId) !in old(users)
          && users == old(users)[old(nextId) := u]
          && nextId == old(nextId) + 1
          && r == Ok(Session(Token(u.id), Public(u)))
    {
      if !Present(username) || !Present(email) || !Present(password) || !Present(fullName) {
        return Err(RegisterFieldsMissing);
      }
      if Taken(email.value, username.value) {
        return Err(UserExists);
      }
      if Present(employeeId) {
        if EmployeeIdTaken(employeeId.value) {
          return Err(EmployeeIdExists);
        }
      }
      var user := User(nextId, username.value, email.value, password.value, fullName.value,
                       RoleOrDefault(role), EmployeeIdOrAbsent(employeeId));
      AddUserKeepsWellFormed(users, nextId, user);
      users := users[nextId := user];
      nextId := nextId + 1;
      r := Ok(Session(Token(user.id), Public(user)));
    }

    /** `login`: both fields required; an unknown email and a wrong password
        give the same reply. */
    method Login(email: Option<string>, password: Option<string>) returns (r: Result<Session>)
      requires Valid()
      ensures !Present(email) || !Present(password) ==> r == Err(LoginFieldsMissing)
      ensures Present(email) && Present(password) ==>
        (r.Ok? <==> exists id :: id in users && users[id].email == email.value
                                 && comparePassword(users[id].password, password.value))
      ensures Present(email) && Present(password) && r.Err? ==> r == Err(InvalidCredentials)
      ensures r.Ok? ==>
        && r.value.user.id in users
        && r.value.user == Public(users[r.value.user.id])
        && r.value.token == Token(r.value.user.id)
        && users[r.value.user.id].email == email.value
    {
      if !Present(email) || !Present(password) {
        return Err(LoginFieldsMissing);
      }
      if !(exists id :: id in users && users[id].email == email.value) {
        return Err(InvalidCredentials);
      }
      var id :| id in users && users[id].email == email.value;
      var user := users[id];
      if !comparePassword(user.password, password.value) {
        return Err(InvalidCredentials);
      }
      r := Ok(Session(Token(user.id), Public(user)));
    }
  }
}
