/** The table-driven tests of internal/testing, replayed against the model:
    each method builds the fixtures of one test case and asserts what that
    test expects, using only the contracts of the operations. The last three
    methods are end-to-end scenarios of their own: register then log in, a
    rejected log-in, and log in then check the new session. */
module RepositoryTests {
  import opened GoTypes
  import opened Users
  import opened Sessions
  import Email

  /** An address of lower-case letters with one `@` at `a` and one `.` at
      `b`, like "valid@example.com", matches the pattern. */
  lemma WellFormedAddress(s: string, a: nat, b: nat)
    requires 0 < a && a + 1 < b && b < |s| && 2 <= |s| - (b + 1) <= 4
    requires s[a] == '@' && s[b] == '.'
    requires forall i :: 0 <= i < |s| && i != a && i != b ==> 'a' <= s[i] <= 'z'
    ensures Email.MatchEmail(Ascii(s))
  {
    assert Email.SplitsAt(Ascii(s), a, b);
  }

  /** An address without `@`, like "bademail", is rejected. */
  lemma AddressWithoutAtSign(s: string)
    requires forall i :: 0 <= i < |s| ==> 'a' <= s[i] <= 'z'
    ensures !Email.MatchEmail(Ascii(s))
  {
    Email.NoAtSignRejected(Ascii(s));
  }

  /** internal/testing/validateUser_test.go, "invalid email format" */
  method TestValidateInvalidEmail()
  {
    var ids := new IdCounter();
    var table := new UserTable(ids);
    AddressWithoutAtSign("bademail");
    var u := new User([], [], Ascii("bademail"), []);
    var err := table.ValidateNewUser(u);
    assert err == Some(InvalidEmail) && err.value.Message() == "неверный формат email";
  }

  /** internal/testing/validateUser_test.go, "login too short" */
  method TestValidateShortLogin()
  {
    var ids := new IdCounter();
    var table := new UserTable(ids);
    WellFormedAddress("valid@example.com", 5, 13);
    var u := new User(Ascii("ab"), [], Ascii("valid@example.com"), []);
    assert table.ValidateNewUser(u) == Some(LoginTooShort);
  }

  /** internal/testing/validateUser_test.go, "username too short" */
  method TestValidateShortUsername()
  {
    var ids := new IdCounter();
    var table := new UserTable(ids);
    WellFormedAddress("valid@example.com", 5, 13);
    var u := new User(Ascii("validLogin"), Ascii("ab"), Ascii("valid@example.com"), []);
    assert table.ValidateNewUser(u) == Some(UsernameTooShort);
  }

  /** internal/testing/validateUser_test.go, "password too short" */
  method TestValidateShortPassword()
  {
    var ids := new IdCounter();
    var table := new UserTable(ids);
    WellFormedAddress("valid@example.com", 5, 13);
    var u := new User(Ascii("validLogin"), Ascii("validUsername"), Ascii("valid@example.com"), Ascii("123"));
    assert table.ValidateNewUser(u) == Some(PasswordTooShort);
  }

  /** internal/testing/validateUser_test.go, "duplicate login" */
  method TestValidateDuplicateLogin()
  {
    WellFormedAddress("new@example.com", 3, 11);
    var u := new User(Ascii("existingLogin"), Ascii("New User"), Ascii("new@example.com"), Ascii("newpassword"));
    var ids := new IdCounter();
    var table := new UserTable(ids);
    var existing := new User(Ascii("existingLogin"), Ascii("Existing User"),
                             Ascii("existing@example.com"), Ascii("password123"));
    table.users := table.users[existing.login := existing];
    assert u.login in table.users;
    assert table.ValidateNewUser(u) == Some(LoginTaken);
  }

  /** internal/testing/addUser_test.go, "Add valid user", on a fresh counter */
  method TestAddValidUser()
  {
    var ids := new IdCounter();
    var table := new UserTable(ids);
    WellFormedAddress("newuser@example.com", 7, 15);
    var u := new User(Ascii("newUser"), Ascii("New User"), Ascii("newuser@example.com"), Ascii("password123"));
    assert table.ValidateNewUser(u) == None;
    var added, err := table.AddUser(u);
    assert err == None;
    assert added.id == 1 && added.login == Ascii("newUser") && added.email == Ascii("newuser@example.com");
    assert Ascii("newUser") in table.users;
  }

  /** internal/testing/addUser_test.go, "Add user with existing login" */
  method TestAddExistingLogin()
  {
    var ids := new IdCounter();
    var table := new UserTable(ids);
    var existing := new User(Ascii("existingUser"), Ascii("Existing User"),
                             Ascii("existing@example.com"), Ascii("password123"));
    table.users := table.users[existing.login := existing];
    WellFormedAddress("another@example.com", 7, 15);
    var u := new User(Ascii("existingUser"), Ascii("Another User"), Ascii("another@example.com"), Ascii("password123"));
    assert u.login in table.users;
    assert table.ValidateNewUser(u) == Some(LoginTaken);
    var added, err := table.AddUser(u);
    assert err == Some(LoginTaken);
    assert err.value.Message() == "пользователь с таким логином уже существует";
    assert table.users == map[Ascii("existingUser") := existing] && ids.nextUserID == 1;
  }

  /** internal/testing/addUser_test.go, "Add user with invalid email" */
  method TestAddInvalidEmail()
  {
    var ids := new IdCounter();
    var table := new UserTable(ids);
    AddressWithoutAtSign("notanemail");
    var u := new User(Ascii("uniqueUser"), Ascii("Unique User"), Ascii("notanemail"), Ascii("password123"));
    var added, err := table.AddUser(u);
    assert err == Some(InvalidEmail) && table.users == map[] && u.id == 0;
  }

  /** internal/testing/checkSession_test.go, with the clock at `now` */
  method TestCheckSession(now: Time)
  {
    var info1 := new UserSessionInfo();
    info1.userID, info1.login := 1, Ascii("user1");
    var table := new SessionTable();
    table.sessions := map[Ascii("sessionID1") := Session(now + 15 * Minute, info1, [])];
    var got := table.CheckSession(Ascii("sessionID1"), now);
    assert got == info1 && got.userID == 1 && got.login == Ascii("user1");

    var info2 := new UserSessionInfo();
    info2.userID, info2.login := 2, Ascii("user2");
    table.sessions := map[Ascii("sessionID2") := Session(now - 5 * Minute, info2, [])];
    got := table.CheckSession(Ascii("sessionID2"), now);
    assert got == null && table.sessions == map[];

    assert Ascii("sessionID3")[9] != Ascii("sessionID2")[9];
    got := table.CheckSession(Ascii("sessionID3"), now);
    assert got == null;
  }

  /** internal/testing/deleteSession_test.go */
  method TestDeleteSession()
  {
    var info1 := new UserSessionInfo();
    var info2 := new UserSessionInfo();
    var s1 := Session(0, info1, []);
    var s2 := Session(0, info2, []);
    var table := new SessionTable();
    assert Ascii("sessionID1")[9] != Ascii("sessionID2")[9];
    assert Ascii("sessionID1")[9] != Ascii("sessionID3")[9];

    table.sessions := map[Ascii("sessionID1") := s1, Ascii("sessionID2") := s2];
    var err := table.DeleteSession(Ascii("sessionID1"));
    assert err == None && table.sessions == map[Ascii("sessionID2") := s2];

    table.sessions := map[Ascii("sessionID1") := s1];
    err := table.DeleteSession(Ascii("sessionID3"));
    assert err == None && table.sessions == map[Ascii("sessionID1") := s1];

    err := table.DeleteSession(Ascii("sessionID1"));
    assert err == None && table.sessions == map[];
  }

  /** Registering "testUser" with password "password123" and then logging
      in with those credentials returns the registered user. */
  method TestRegisterThenLogin()
  {
    WellFormedAddress("test@example.com", 4, 12);
    var ids := new IdCounter();
    var users := new UserTable(ids);
    var candidate := new User(Ascii("testUser"), Ascii("Test User"), Ascii("test@example.com"), Ascii("password123"));
    assert users.ValidateNewUser(candidate) == None;
    var registered, err := users.AddUser(candidate);
    assert err == None && registered.id == 1;

    var credentials := new User(Ascii("testUser"), [], [], Ascii("password123"));
    assert users.ValidateUserCredentials(credentials) == registered;
  }

  /** Logging in with a wrong password, or with an unknown login, gives
      null. */
  method TestLoginRejected()
  {
    var ids := new IdCounter();
    var users := new UserTable(ids);
    var stored := new User(Ascii("testUser"), Ascii("Test User"), Ascii("test@example.com"), Ascii("password123"));
    users.users := map[stored.login := stored];

    var wrong := new User(Ascii("testUser"), [], [], Ascii("password124"));
    assert Ascii("password124")[10] != Ascii("password123")[10];
    assert users.ValidateUserCredentials(wrong) == null;

    var unknown := new User(Ascii("otherUser"), [], [], Ascii("password123"));
    assert Ascii("otherUser")[0] != Ascii("testUser")[0];
    assert users.ValidateUserCredentials(unknown) == null;
  }

  /** The identity of a logged-in user, stored in a new session, is what
      checking that session at once returns. */
  method TestLoginThenCheck(user: User, token: Bytes, now: Time)
  {
    var info := new UserSessionInfo();
    info.GetUserIDLogin(user);
    var sessions := new SessionTable();
    var sessionID, _ := sessions.AddSession(info, token, now);
    var who := sessions.CheckSession(sessionID, now);
    assert who == info && who.userID == user.id && who.login == user.login;
  }
}
