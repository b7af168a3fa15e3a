# Credential and session store — a Dafny model

This project models the in-memory store of a small session-based
authentication service, `internal/repository/db.go`. The store has two
tables:

- **`UserTable`** maps a login to its `User`. `ValidateNewUser` applies the
  five registration rules in a fixed order: e-mail format, login length,
  login not taken, username length, password length. `AddUser` validates a
  candidate, gives it the next ID from the package counter `nextUserID` and
  stores it under its login. `ValidateUserCredentials` returns the stored
  user only when both the login and the password match.
- **`SessionTable`** maps a token to a `Session`. A session holds an expiry
  instant and a `UserSessionInfo`, the user's ID and login. `AddSession`
  stores a session that lives for `SessionLiveTime` (10 minutes).
  `CheckSession` returns the identity behind a live token, and deletes the
  entry when the token has expired. `DeleteSession` removes a token.
  `SessionsCleanup` removes every expired entry.

Modules:

- `GoTypes` (`go_types.dfy`) holds Go's byte strings and the 64-bit `uint`
  with its wrap-around.
- `Email` (`email.dfy`) holds the e-mail pattern. It gives both a literal
  reading of the pattern and the decision procedure, and proves that the
  two agree.
- `Users` (`users.dfy`) holds the user table, the shared ID counter and the
  validation rules.
- `Sessions` (`sessions.dfy`) holds the identity projection, sessions and
  the session table. It also defines `Unexpired`, the specification of a
  sweep, and proves lemmas about how sweeps, deletions and checks combine.
- `RepositoryTests` (`repository_tests.dfy`) replays the table-driven tests
  of `internal/testing` as verified client methods. It also holds three
  end-to-end scenarios of its own, which are not from `internal/testing`:
  `TestRegisterThenLogin`, `TestLoginRejected` and `TestLoginThenCheck`.

Modelling choices:

- Go strings are byte sequences, and `len` counts bytes. A two-letter
  Cyrillic login is four bytes long, so it passes the 3-byte rule.
- `nextUserID` is a package variable. It is modelled as an `IdCounter`
  object that every `UserTable` references, so two tables share it just as
  they do in the source.
- `AddUser` writes the ID into the object the caller passed, and the table
  stores that same object. `User` is therefore a class with a mutable `id`.
  No core operation writes the other fields, so they are constants.
- Time is an integer number of nanoseconds. `time.Now()` and `ulid.Make()`
  become the parameters `now` and `token`.
- A session is expired only when its expiry is strictly before `now`, as
  `time.Time.Before` decides. A session whose expiry equals `now` is still
  live.

## Model

| member | source | states |
|---|---|---|
| GoTypes.Succ | internal/repository/db.go:52 | `nextUserID++` on a Go `uint` yields the old value plus one modulo 2^64, which is exactly one more whenever the old value is below the largest `uint` |
| Email.MatchEmail | internal/repository/db.go:18 | the decision procedure (cut at the first `@`, then at the last `.` after it) accepts a byte string iff the anchored pattern `^[a-z0-9._%+\-]+@[a-z0-9.\-]+\.[a-z]{2,4}$` matches all of it |
| Email.SplitsFixCuts | internal/repository/db.go:18 | every split of a string that matches the pattern puts its `@` at the first `@` and its `.` at the last `.` after it, so the pattern admits at most one split |
| Email.FirstAtSign | internal/repository/db.go:18 | an `@` preceded only by bytes of the local class is the first `@` of the string |
| Email.LastDot | internal/repository/db.go:18 | a `.` followed only by lower-case letters is the last `.` of the string |
| Email.PatternCuts | internal/repository/db.go:18 | in any split that matches the pattern, the `@` is the first `@` of the string and the `.` is the last `.` after it |
| Email.ExactlyOneAtSign | internal/repository/db.go:18 | a string that matches the pattern contains exactly one `@` |
| Email.NoAtSignRejected | internal/repository/db.go:60-62 | a string with no `@` (the tests' "bademail", "notanemail", "invalidemail") is never a valid e-mail |
| Email.UpperCaseRejected | internal/repository/db.go:18 | the pattern is case-sensitive: a string holding an upper-case ASCII letter never matches |
| Email.FirstIndex | internal/repository/db.go:18 | returns the first position of a byte, or None when the byte does not occur |
| Email.LastIndex | internal/repository/db.go:18 | returns the last position of a byte, or None when the byte does not occur |
| Users.IdCounter.constructor | internal/repository/db.go:14 | the package counter starts at 1 |
| Users.User.constructor | internal/repository/db.go:20-26 | a user literal carries the given login, username, e-mail and password, with ID zero |
| Users.MessagesDistinct | internal/repository/db.go:61-78 | the five validation failures carry five different messages |
| Users.UserTable.constructor | internal/repository/db.go:28-31 | a new table is empty and draws IDs from the given package counter |
| Users.UserTable.ValidateNewUser | internal/repository/db.go:59-82 | the result is None iff the candidate passes all five rules; otherwise it is the first rule, in the order e-mail, login length, login taken, username length, password length, that the candidate fails. Every earlier rule passes. The table is only read |
| Users.UserTable.ValidateUserCredentials | internal/repository/db.go:37-44 | returns the stored user iff the login is a key and the stored password is byte-equal to the given one; otherwise null. The table is only read |
| Users.UserTable.AddUser | internal/repository/db.go:46-57 | returns the object passed in. A failed validation returns that failure and leaves the map, the counter and the candidate's ID unchanged. On success the candidate's ID is the old counter value, the counter moves to its successor, the login maps to the candidate, every other entry is unchanged, and logging in with the candidate's credentials returns it. The method keeps every user stored under its own login and, below the counter's maximum, keeps every stored ID below the counter and distinct |
| Sessions.UserSessionInfo.constructor | internal/repository/db.go:84-87 | a new identity record has ID zero and an empty login |
| Sessions.UserSessionInfo.GetUserIDLogin | internal/repository/db.go:89-92 | afterwards the record holds exactly the user's ID and login |
| Sessions.NewSessionLifetime | internal/repository/db.go:16 | a session created at t with expiry t + SessionLiveTime is expired at `now` iff `now` is more than 600 seconds after t |
| Sessions.LiveAtExpiry | internal/repository/db.go:111 | `Before` is strict: a session is live at the instant of its expiry and expired one nanosecond later |
| Sessions.ExpiryPermanent | internal/repository/db.go:120-125 | a session expired at t1 is expired at every later t2, so neither a check nor a sweep ever revives it |
| Sessions.SweepIdempotent | internal/repository/db.go:120-128 | a second sweep at the same instant removes nothing |
| Sessions.LaterSweepSubsumes | internal/repository/db.go:120-128 | a sweep at t1 followed by a sweep at a later t2 leaves the same entries as one sweep at t2 |
| Sessions.CheckDeletionAbsorbed | internal/repository/db.go:111-113 | the deletion a check performs on an expired token is one that a sweep at the same instant would perform anyway |
| Sessions.DeleteCommutesWithSweep | internal/repository/db.go:130-138 | deleting a token and sweeping give the same table in either order |
| Sessions.SweepCount | internal/repository/db.go:120-128 | the live and the expired entries partition the table, so a sweep over N expired and M live entries leaves M |
| Sessions.DeleteIdempotent | internal/repository/db.go:130-138 | deleting a token twice leaves the same table as deleting it once |
| Sessions.SessionTable.constructor | internal/repository/db.go:100-103 | a new session table is empty |
| Sessions.SessionTable.CheckSession | internal/repository/db.go:105-118 | an unknown token gives null and changes nothing; a token whose expiry is strictly before `now` gives null and removes exactly that key; otherwise the stored identity is returned and nothing changes |
| Sessions.SessionTable.SessionsCleanup | internal/repository/db.go:120-128 | afterwards the table holds exactly the original entries that are not expired at `now`, with their sessions unchanged |
| Sessions.SessionTable.DeleteSession | internal/repository/db.go:130-138 | always returns no error; removes the key if present and leaves every other entry as it was |
| Sessions.SessionTable.AddSession | internal/repository/db.go:140-147 | returns the given token and no error; the token maps to a session that expires SessionLiveTime after `now` and carries the given identity; every other entry is unchanged |
| RepositoryTests.WellFormedAddress | internal/testing/validateUser_test.go:29 | an address of lower-case letters with one `@` and one `.`, such as "valid@example.com", passes the e-mail rule |
| RepositoryTests.AddressWithoutAtSign | internal/testing/validateUser_test.go:20 | an all-letter address such as "bademail" fails the e-mail rule |

## Left out

- `Renderer.DecodeJSON` and `Renderer.EncodeJSON` (internal/repository/db.go:149-169) are left out. They are JSON and HTTP I/O over library calls.
- The `sync.RWMutex` locks are not modelled. Each operation is one atomic, sequential step. The source has a race here: `AddUser` checks for a duplicate login and inserts under two separate critical sections, and it reads and increments `nextUserID` outside any lock. Two concurrent registrations of one login can therefore both succeed, or receive the same ID. The model does not capture this.
- `ulid.Make()` and `time.Now()` are foreign calls. The fresh token and the current time are parameters. Token uniqueness is not assumed: `AddSession` replaces an entry that already has the same token, as the source's map assignment does.
- Sessions.SessionTable.SessionsCleanup: the source reads the clock once per entry. The model takes one reading, `now`, for the whole sweep.
- `time.Time` is an integer number of nanoseconds. The model leaves out the monotonic-clock reading, time zones and the saturation of `Time.Add` at the limits of its range.
- The `regexp` engine is not modelled. The one fixed pattern is a hand-written predicate over bytes, which is exact because every class in the pattern is ASCII.
- No core operation writes `Login`, `Username`, `Email` or `Password`, so they are constant in the model. Only `ID` is mutable.
- GoTypes.Succ: Go's `uint` is 64 bits wide on 64-bit targets, which is what the model fixes. On 32-bit targets it is 32 bits wide and `nextUserID++` wraps at 2^32; the model does not capture that platform.
- Users.UserTable.AddUser: the preservation of distinct, issued IDs is stated only while the counter is below 2^64 − 1. At the maximum, the source wraps the counter to 0 and can then reissue an ID.
- The HTTP handlers in `internal/handler` and the program entry `internal/main.go` are not part of this model. They call store APIs that `db.go` no longer has.
