/** The registration e-mail rule, `emailRegex` in internal/repository/db.go:
    the anchored pattern `^[a-z0-9._%+\-]+@[a-z0-9.\-]+\.[a-z]{2,4}$`.

    `MatchesPattern` reads the pattern literally: a split of the string into
    a local part, `@`, a domain, `.` and a 2 to 4 letter top-level label.
    `MatchEmail` is the deterministic check the store runs: it cuts at the
    first `@` and at the last `.` after it. Its contract says the
    two agree on every byte string. The pattern is case-sensitive and every
    class in it is ASCII, so a byte that is not one of the listed ASCII
    characters (upper case, space, any non-ASCII byte) never matches. */
module Email {
  import opened GoTypes

  const AtSign: byte := 64   // '@'
  const Dot: byte := 46      // '.'

  /** `[a-z]` */
  predicate IsLower(b: byte) { 97 <= b <= 122 }

  /** `[0-9]` */
  predicate IsDigit(b: byte) { 48 <= b <= 57 }

  /** `[a-z0-9._%+\-]`, the class of the part before `@`. */
  predicate IsLocalByte(b: byte)
  {
    IsLower(b) || IsDigit(b) || b == Dot || b == 95 /* _ */ || b == 37 /* % */
    || b == 43 /* + */ || b == 45 /* - */
  }

  /** `[a-z0-9.\-]`, the class of the domain before its last `.`. */
  predicate IsDomainByte(b: byte)
  {
    IsLower(b) || IsDigit(b) || b == Dot || b == 45 /* - */
  }

  predicate AllLocal(s: Bytes) { forall i :: 0 <= i < |s| ==> IsLocalByte(s[i]) }
  predicate AllDomain(s: Bytes) { forall i :: 0 <= i < |s| ==> IsDomainByte(s[i]) }
  predicate AllLower(s: Bytes) { forall i :: 0 <= i < |s| ==> IsLower(s[i]) }

  /** `s` is `s[..a]`, `@`, `s[a+1..b]`, `.`, `s[b+1..]` with each piece
      matching its part of the pattern. */
  ghost predicate SplitsAt(s: Bytes, a: int, b: int)
  {
    && 0 < a && a + 1 < b && b < |s|
    && s[a] == AtSign && s[b] == Dot
    && AllLocal(s[..a])
    && AllDomain(s[a + 1..b])
    && AllLower(s[b + 1..]) && 2 <= |s| - (b + 1) <= 4
  }

  /** The whole of `s` matches the anchored pattern. */
  ghost predicate MatchesPattern(s: Bytes)
  {
    exists a, b :: SplitsAt(s, a, b)
  }

  /** The position of the first `x` in `s`, if any. */
  function FirstIndex(s: Bytes, x: byte): (r: Option<nat>)
    ensures r.Some? ==> r.value < |s| && s[r.value] == x
    ensures r.Some? ==> forall i :: 0 <= i < r.value ==> s[i] != x
    ensures r.None? ==> forall i :: 0 <= i < |s| ==> s[i] != x
  {
    if s == [] then None
    else if s[0] == x then Some(0)
    else match FirstIndex(s[1..], x)
      case None => None
      case Some(i) => Some(i + 1)
  }

  /** The position of the last `x` in `s`, if any. */
  function LastIndex(s: Bytes, x: byte): (r: Option<nat>)
    ensures r.Some? ==> r.value < |s| && s[r.value] == x
    ensures r.Some? ==> forall i :: r.value < i < |s| ==> s[i] != x
    ensures r.None? ==> forall i :: 0 <= i < |s| ==> s[i] != x
  {
    if s == [] then None
    else if s[|s| - 1] == x then Some(|s| - 1)
    else LastIndex(s[..|s| - 1], x)
  }

  /** The check `emailRegex.MatchString` performs, as a decision procedure:
      cut at the first `@`, then at the last `.` after it, and check the
      three pieces. It accepts exactly the strings the pattern matches. */
  function MatchEmail(s: Bytes): (r: bool)
    ensures r <==> MatchesPattern(s)
  {
    SplitsFixCuts(s);
    match FirstIndex(s, AtSign)
    case None => false
    case Some(a) =>
      match LastIndex(s[a + 1..], Dot)
      case None => false
      case Some(j) =>
        var b := a + 1 + j;
        var ok :=
          && 0 < a && 0 < j
          && AllLocal(s[..a])
          && AllDomain(s[a + 1..b])
          && AllLower(s[b + 1..]) && 2 <= |s| - (b + 1) <= 4;
        assert ok ==> SplitsAt(s, a, b);
        ok
  }

  /** Every split that matches the pattern makes the cuts of the decision
      procedure. */
  lemma SplitsFixCuts(s: Bytes)
    ensures forall a, b :: SplitsAt(s, a, b) ==>
              FirstIndex(s, AtSign) == Some(a) && LastIndex(s[a + 1..], Dot) == Some(b - a - 1)
  {
    forall a, b | SplitsAt(s, a, b)
      ensures FirstIndex(s, AtSign) == Some(a) && LastIndex(s[a + 1..], Dot) == Some(b - a - 1)
    {
      PatternCuts(s, a, b);
    }
  }

  /** An `@` with only local bytes before it is the first `@`. */
  lemma FirstAtSign(s: Bytes, a: int)
    requires 0 <= a < |s| && s[a] == AtSign && AllLocal(s[..a])
    ensures FirstIndex(s, AtSign) == Some(a)
  {
    assert forall i :: 0 <= i < a ==> s[i] == s[..a][i];
  }

  /** A `.` with only letters after it is the last `.`. */
  lemma LastDot(t: Bytes, j: int)
    requires 0 <= j < |t| && t[j] == Dot && AllLower(t[j + 1..])
    ensures LastIndex(t, Dot) == Some(j)
  {
    assert forall i :: j < i < |t| ==> t[i] == t[j + 1..][i - (j + 1)];
  }

  /** In a split that matches the pattern, `@` is the first `@` of the
      string and the `.` is the last `.` after it, so the decision
      procedure makes the same cuts. */
  lemma PatternCuts(s: Bytes, a: int, b: int)
    requires SplitsAt(s, a, b)
    ensures FirstIndex(s, AtSign) == Some(a)
    ensures LastIndex(s[a + 1..], Dot) == Some(b - a - 1)
  {
    FirstAtSign(s, a);
    var rest := s[a + 1..];
    assert rest[b - a..] == s[b + 1..];
    LastDot(rest, b - a - 1);
  }

  /** A matching string holds exactly one `@`: neither the local class,
      the domain class nor the letters contain `@`. */
  lemma ExactlyOneAtSign(s: Bytes, a: int, b: int, i: int)
    requires SplitsAt(s, a, b)
    requires 0 <= i < |s| && s[i] == AtSign
    ensures i == a
  {
  }

  /** A string without `@` never matches: the test candidates "bademail",
      "notanemail" and "invalidemail" are all rejected for this reason. */
  lemma NoAtSignRejected(s: Bytes)
    requires forall i :: 0 <= i < |s| ==> s[i] != AtSign
    ensures !MatchesPattern(s)
  {
  }

  /** Upper-case letters are outside every class of the pattern. */
  lemma UpperCaseRejected(s: Bytes, i: int)
    requires 0 <= i < |s| && 65 <= s[i] <= 90
    ensures !MatchesPattern(s)
  {
  }
}
