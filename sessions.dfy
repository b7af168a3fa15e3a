/** The session half of internal/repository/db.go: the `UserSessionInfo`
    identity projection, the `Session` record and the `SessionTable` map
    keyed by token with `AddSession`, `CheckSession`, `DeleteSession` and
    `SessionsCleanup`.

    Time is a number of nanoseconds (the unit of Go's `time.Duration`); the
    clock reading `time.Now()` and the fresh token `ulid.Make()` are
    parameters. A session is expired when its expiry is strictly before the
    current time, as `time.Time.Before` decides. The lock is not modelled:
    every operation is one atomic step. */
module Sessions {
  import opened GoTypes
  import Users

  /** Instants and durations, in nanoseconds. */
  type Time = int

  const Second: Time := 1_000_000_000
  const Minute: Time := 60 * Second
  /** `SessionLiveTime = 10 * time.Minute` */
  const SessionLiveTime: Time := 10 * Minute

  /** The part of a user a session carries: its ID and login. */
  class UserSessionInfo {
    var userID: uint
    var login: Bytes

    /** `&UserSessionInfo{}` */
    constructor()
      ensures userID == 0 && login == []
    {
      userID := 0;
      login := [];
    }

    /** Copies the ID and the login of `user` into this record. */
    method GetUserIDLogin(user: Users.User)
      modifies this
      ensures userID == user.id && login == user.login
    {
      userID := user.id;
      login := user.login;
    }
  }

  /** A session: when it stops being valid, whom it identifies (possibly
      nil, as the source allows) and its own token. */
  datatype Session = Session(expirationDate: Time, userInfo: UserSessionInfo?, id: Bytes)

  /** `session.ExpirationDate.Before(now)` */
  predicate Expired(s: Session, now: Time)
  {
    s.expirationDate < now
  }

  /** The sessions of `m` that are not expired at `now`, each under its
      own token and unchanged: a token is kept iff it is present and its
      session is live, and what a sweep leaves is exactly this map. */
  function Unexpired(m: map<Bytes, Session>, now: Time): map<Bytes, Session>
  {
    map k | k in m && !Expired(m[k], now) :: m[k]
  }

  /** `Before` is strict: a session is still live at the very instant of
      its expiry and expired from the next nanosecond on. */
  lemma LiveAtExpiry(s: Session, now: Time)
    ensures now == s.expirationDate ==> !Expired(s, now)
    ensures now == s.expirationDate + 1 ==> Expired(s, now)
  {
  }

  /** Once expired, a session stays expired: expiry is monotone in time,
      so a later check or sweep never revives it. */
  lemma ExpiryPermanent(s: Session, t1: Time, t2: Time)
    requires t1 <= t2
    ensures Expired(s, t1) ==> Expired(s, t2)
  {
  }

  /** A session created at `created` is live up to and including
      `created + SessionLiveTime`, and expired from then on. */
  lemma NewSessionLifetime(info: UserSessionInfo?, token: Bytes, created: Time, now: Time)
    ensures Expired(Session(created + SessionLiveTime, info, token), now)
            <==> now > created + 600 * Second
  {
  }

  /** Sweeping a second time at the same instant removes nothing more. */
  lemma SweepIdempotent(m: map<Bytes, Session>, now: Time)
    ensures Unexpired(Unexpired(m, now), now) == Unexpired(m, now)
  {
  }

  /** A sweep at `t1` followed by one at a later `t2` leaves what the
      sweep at `t2` alone leaves: an earlier sweep never keeps a session
      that a later one would keep, and never drops one either. */
  lemma LaterSweepSubsumes(m: map<Bytes, Session>, t1: Time, t2: Time)
    requires t1 <= t2
    ensures Unexpired(Unexpired(m, t1), t2) == Unexpired(m, t2)
  {
  }

  /** The deletion `CheckSession` performs on an expired token is one a
      sweep at the same instant would perform anyway. */
  lemma CheckDeletionAbsorbed(m: map<Bytes, Session>, id: Bytes, now: Time)
    requires id in m && Expired(m[id], now)
    ensures Unexpired(m - {id}, now) == Unexpired(m, now)
  {
  }

  /** Deleting a token and sweeping commute. */
  lemma DeleteCommutesWithSweep(m: map<Bytes, Session>, id: Bytes, now: Time)
    ensures Unexpired(m - {id}, now) == Unexpired(m, now) - {id}
  {
  }

  /** The live and the expired entries split the table: a sweep over N
      expired and M live entries leaves exactly M. */
  lemma SweepCount(m: map<Bytes, Session>, now: Time)
    ensures |Unexpired(m, now)| + |set k | k in m && Expired(m[k], now)| == |m|
  {
    var live := Unexpired(m, now).Keys;
    var dead := set k | k in m && Expired(m[k], now);
    assert live + dead == m.Keys;
    assert live * dead == {};
  }

  /** Deleting twice is the same as deleting once. */
  lemma DeleteIdempotent(m: map<Bytes, Session>, id: Bytes)
    ensures (m - {id}) - {id} == m - {id}
  {
  }

  class SessionTable {
    var sessions: map<Bytes, Session>

    /** `&SessionTable{Sessions: make(map[string]*Session)}` */
    constructor()
      ensures sessions == map[]
    {
      sessions := map[];
    }

    /** Looks `sessionID` up at time `now`. An unknown token gives nil and
        changes nothing; an expired one gives nil and is deleted; a live
        one gives the identity it carries and changes nothing. */
    method CheckSession(sessionID: Bytes, now: Time) returns (user: UserSessionInfo?)
      modifies this
      ensures sessionID !in old(sessions) ==> user == null && sessions == old(sessions)
      ensures sessionID in old(sessions) && Expired(old(sessions)[sessionID], now) ==>
                user == null && sessions == old(sessions) - {sessionID}
      ensures sessionID in old(sessions) && !Expired(old(sessions)[sessionID], now) ==>
                user == old(sessions)[sessionID].userInfo && sessions == old(sessions)
    {
      if sessionID in sessions {
        var session := sessions[sessionID];
        if Expired(session, now) {
          sessions := sessions - {sessionID};
          return null;
        }
        return session.userInfo;
      }
      return null;
    }

    /** Visits every entry once and deletes those expired at `now`; what
        is left is exactly the live entries, unchanged. */
    method SessionsCleanup(now: Time)
      modifies this
      ensures sessions == Unexpired(old(sessions), now)
    {
      ghost var original := sessions;
      var pending := sessions.Keys;
      while pending != {}
        invariant pending <= original.Keys
        invariant sessions.Keys <= original.Keys
        invariant forall k :: k in sessions ==> sessions[k] == original[k]
        invariant forall k :: k in original && k !in sessions ==> k !in pending && Expired(original[k], now)
        invariant forall k :: k in sessions && k !in pending ==> !Expired(original[k], now)
        decreases pending
      {
        var id :| id in pending;
        if Expired(sessions[id], now) {
          sessions := sessions - {id};
        }
        pending := pending - {id};
      }
    }

    /** Removes `sessionID` if present; never reports an error. */
    method DeleteSession(sessionID: Bytes) returns (err: Option<string>)
      modifies this
      ensures err == None
      ensures sessions == old(sessions) - {sessionID}
    {
      if sessionID in sessions {
        sessions := sessions - {sessionID};
        return None;
      }
      return None;
    }

    /** Stores a session for `user` under the fresh token `token` (the
        source's `ulid.Make()`), expiring `SessionLiveTime` after `now`,
        and returns the token with no error. Any entry already under that
        token is replaced; all others stay as they were. */
    method AddSession(user: UserSessionInfo?, token: Bytes, now: Time)
      returns (sessionID: Bytes, err: Option<string>)
      modifies this
      ensures sessionID == token && err == None
      ensures sessions == old(sessions)[token := Session(now + SessionLiveTime, user, token)]
      ensures forall k :: k in old(sessions) && k != token ==> k in sessions && sessions[k] == old(sessions)[k]
    {
      sessionID := token;
      var ses := Session(now + SessionLiveTime, user, sessionID);
      sessions := sessions[sessionID := ses];
      err := None;
    }
  }
}
