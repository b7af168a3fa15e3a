/** The user half of internal/repository/db.go: the `User` record, the
    package counter `nextUserID`, the five registration rules of
    `ValidateNewUser`, and the `UserTable` map keyed by login with its
    `AddUser` and `ValidateUserCredentials` operations. The table's
    read/write lock is not modelled: every operation is one atomic step. */
module Users {
  import opened GoTypes
  import Email

  const MinLoginLength: nat := 3
  const MinUsernameLength: nat := 3
  const MinPasswordLength: nat := 6

  /** `var nextUserID uint = 1`: a package-level variable, so every table of
      the process draws its IDs from the same counter. */
  class IdCounter {
    var nextUserID: uint

    constructor()
      ensures nextUserID == 1
    {
      nextUserID := 1;
    }
  }

  /** A registered or candidate user. `AddUser` writes `id` into the very
      object the caller passed, and the table stores that object; no core
      operation writes the other fields. */
  class User {
    var id: uint
    const login: Bytes
    const username: Bytes
    const email: Bytes
    const password: Bytes

    /** A composite literal `&User{Login: ..., ...}`: `ID` is left zero. */
    constructor(login: Bytes, username: Bytes, email: Bytes, password: Bytes)
      ensures id == 0
      ensures this.login == login && this.username == username
      ensures this.email == email && this.password == password
    {
      id := 0;
      this.login := login;
      this.username := username;
      this.email := email;
      this.password := password;
    }
  }

  /** The five ways a candidate can fail registration, in the order
      `ValidateNewUser` checks them. */
  datatype ValidationError =
    | InvalidEmail
    | LoginTooShort
    | LoginTaken
    | UsernameTooShort
    | PasswordTooShort
  {
    /** The text of the `error` the source returns. */
    function Message(): string
    {
      match this
      case InvalidEmail => "неверный формат email"
      case LoginTooShort => "login должен быть не менее 3 символов"
      case LoginTaken => "пользователь с таким логином уже существует"
      case UsernameTooShort => "username должен быть не менее 3 символов"
      case PasswordTooShort => "пароль должен быть не менее 6 символов"
    }

    /** The position of this rule in the order of the checks. */
    function Rank(): nat
    {
      match this
      case InvalidEmail => 0
      case LoginTooShort => 1
      case LoginTaken => 2
      case UsernameTooShort => 3
      case PasswordTooShort => 4
    }
  }

  /** `user` passes the rule whose failure is `rule`, given the logins
      already in the table. */
  predicate Satisfies(user: User, rule: ValidationError, logins: set<Bytes>)
  {
    match rule
    case InvalidEmail => Email.MatchEmail(user.email)
    case LoginTooShort => |user.login| >= MinLoginLength
    case LoginTaken => user.login !in logins
    case UsernameTooShort => |user.username| >= MinUsernameLength
    case PasswordTooShort => |user.password| >= MinPasswordLength
  }

  /** Different failures carry different messages, so a caller can tell
      them apart by text alone. */
  lemma MessagesDistinct(e: ValidationError, f: ValidationError)
    ensures e.Message() == f.Message() ==> e == f
  {
  }

  class UserTable {
    var users: map<Bytes, User>
    /** The package counter `nextUserID` this table draws IDs from. */
    const ids: IdCounter

    /** `&UserTable{Users: make(map[string]*User)}` */
    constructor(ids: IdCounter)
      ensures users == map[] && this.ids == ids
    {
      users := map[];
      this.ids := ids;
    }

    /** Every user is stored under its own login. `AddUser` keeps this;
        the source does not check it of entries written into the map
        directly. */
    ghost predicate Valid()
      reads this
    {
      forall k :: k in users ==> users[k].login == k
    }

    /** Every stored ID was issued before the counter's current value and
        no two stored users share an ID. */
    ghost predicate IdsIssued()
      reads this, users.Values, ids
    {
      && (forall k :: k in users ==> users[k].id < ids.nextUserID)
      && (forall k, k' :: k in users && k' in users && k != k' ==> users[k].id != users[k'].id)
    }

    /** The registration rules checked in order; the result is the first
        one that fails, or None when all pass. Only reads the table. */
    function ValidateNewUser(user: User): (r: Option<ValidationError>)
      reads this
      ensures r.Some? ==> !Satisfies(user, r.value, users.Keys)
      ensures r.Some? ==>
                forall rule: ValidationError :: rule.Rank() < r.value.Rank() ==> Satisfies(user, rule, users.Keys)
      ensures r.None? <==> forall rule: ValidationError :: Satisfies(user, rule, users.Keys)
    {
      if !Email.MatchEmail(user.email) then Some(InvalidEmail)
      else if |user.login| < MinLoginLength then Some(LoginTooShort)
      else if user.login in users then Some(LoginTaken)
      else if |user.username| < MinUsernameLength then Some(UsernameTooShort)
      else if |user.password| < MinPasswordLength then Some(PasswordTooShort)
      else None
    }

    /** The stored user whose login and password both equal the given
        ones, or null. The password comparison is byte equality. */
    function ValidateUserCredentials(user: User): (r: User?)
      reads this
      ensures r != null <==> user.login in users && users[user.login].password == user.password
      ensures r != null ==> r == users[user.login]
    {
      if user.login in users && users[user.login].password == user.password then
        users[user.login]
      else
        null
    }

    /** Registers `user`: on a validation failure nothing changes and the
        failure is returned; otherwise `user` gets the counter's value as
        its ID, the counter moves on and `user` is stored under its login.
        The object passed in is returned either way. */
    method AddUser(user: User) returns (added: User, err: Option<ValidationError>)
      modifies this, user, ids
      ensures added == user
      ensures err == old(ValidateNewUser(user))
      ensures err.Some? ==>
                users == old(users) && ids.nextUserID == old(ids.nextUserID) && user.id == old(user.id)
      ensures err.None? ==>
                && user.id == old(ids.nextUserID)
                && ids.nextUserID == Succ(old(ids.nextUserID))
                && users == old(users)[user.login := user]
                && ValidateUserCredentials(user) == user
      ensures forall k :: k in old(users) && old(users)[k] != user ==>
                k in users && users[k] == old(users)[k] && users[k].id == old(users[k].id)
      ensures old(Valid()) ==> Valid()
      ensures old(Valid() && IdsIssued()) && old(ids.nextUserID) as int + 1 < UintModulus ==> IdsIssued()
    {
      added := user;
      err := ValidateNewUser(user);
      if err.Some? {
        return;
      }
      user.id := ids.nextUserID;
      ids.nextUserID := Succ(ids.nextUserID);
      users := users[user.login := user];
    }
  }
}
