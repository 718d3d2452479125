/** The client's email check: the pattern `^[^\s@]+@[^\s@]+\.[^\s@]+$`, and the
    plain-words description of the addresses it accepts. */
module Email {
  import opened Text

  /** A character of the class `[^\s@]`. */
  predicate Plain(c: char)
  {
    !IsSpace(c) && c != '@'
  }

  /** A match of `[^\s@]+`. */
  predicate PlainRun(s: string)
  {
    |s| > 0 && forall k :: 0 <= k < |s| ==> Plain(s[k])
  }

  /** Splitting `s` at an `@` (position `at`) and then a `.` (position `dot`) leaves
      three non-empty runs of `[^\s@]`. */
  predicate EmailSplit(s: string, at: int, dot: int)
  {
    && 0 < at && at + 1 < dot < |s| - 1
    && s[at] == '@' && s[dot] == '.'
    && PlainRun(s[..at]) && PlainRun(s[at + 1..dot]) && PlainRun(s[dot + 1..])
  }

  /** `isValidEmail`: the pattern as written; `s` matches it at some split. */
  predicate IsValidEmail(s: string)
  {
    exists at, dot | 0 < at < dot < |s| :: EmailSplit(s, at, dot)
  }

  /** The domain has a `.` that is neither its first nor its last character. */
  predicate DotInside(d: string)
  {
    exists k | 0 < k < |d| - 1 :: d[k] == '.'
  }

  /** Position `at` holds an `@` with something before it and an inner `.` after it. */
  predicate LocalAndDomain(s: string, at: int)
  {
    0 < at < |s| && s[at] == '@' && DotInside(s[at + 1..])
  }

  /** The addresses the pattern accepts, described without the pattern: no whitespace,
      exactly one `@`, something before it, and an inner `.` after it. */
  predicate AddressShape(s: string)
  {
    && NoSpace(s)
    && multiset(s)['@'] == 1
    && exists at | 0 < at < |s| :: LocalAndDomain(s, at)
  }

  /** Splitting around position `at` keeps the count of `@` outside that position. */
  lemma AtCount(s: string, at: nat)
    requires at < |s|
    ensures multiset(s)['@'] == multiset(s[..at])['@'] + multiset(s[at + 1..])['@'] + (if s[at] == '@' then 1 else 0)
  {
    assert s == s[..at] + [s[at]] + s[at + 1..];
  }

  /** With exactly one `@`, found at `at`, no other position holds an `@`. */
  lemma OnlyAt(s: string, at: nat)
    requires at < |s| && s[at] == '@' && multiset(s)['@'] == 1
    ensures forall k :: 0 <= k < |s| && k != at ==> s[k] != '@'
  {
    AtCount(s, at);
    forall k | 0 <= k < |s| && k != at ensures s[k] != '@' {
      if k < at { assert s[k] == s[..at][k]; assert s[k] in s[..at]; }
      else { assert s[k] == s[at + 1..][k - at - 1]; assert s[k] in s[at + 1..]; }
    }
  }

  /** A stretch of `s` without whitespace or `@` is a match of `[^\s@]+`. */
  lemma PlainBetween(s: string, lo: nat, hi: nat)
    requires lo < hi <= |s| && NoSpace(s)
    requires forall k :: lo <= k < hi ==> s[k] != '@'
    ensures PlainRun(s[lo..hi])
  {
    forall k | 0 <= k < hi - lo ensures Plain(s[lo..hi][k]) {
      assert s[lo..hi][k] == s[lo + k];
    }
  }

  /** A match of the pattern, split at `at` and `dot`, has the address shape. */
  lemma PatternHasShape(s: string, at: nat, dot: nat)
    requires 0 < at && at + 1 < dot < |s| - 1
    requires s[at] == '@' && s[dot] == '.'
    requires PlainRun(s[..at]) && PlainRun(s[at + 1..dot]) && PlainRun(s[dot + 1..])
    ensures AddressShape(s)
  {
    var a, b, c := s[..at], s[at + 1..dot], s[dot + 1..];
    assert NoSpace(s) by {
      forall k | 0 <= k < |s| ensures !IsSpace(s[k]) {
        if k < at { assert s[k] == a[k]; }
        else if at < k < dot { assert s[k] == b[k - at - 1]; }
        else if dot < k { assert s[k] == c[k - dot - 1]; }
      }
    }
    assert '@' !in a by { forall k | 0 <= k < |a| ensures a[k] != '@' { assert Plain(a[k]); } }
    assert '@' !in b by { forall k | 0 <= k < |b| ensures b[k] != '@' { assert Plain(b[k]); } }
    assert '@' !in c by { forall k | 0 <= k < |c| ensures c[k] != '@' { assert Plain(c[k]); } }
    var d := s[at + 1..];
    assert d == b + ['.'] + c;
    assert multiset(d)['@'] == 0;
    AtCount(s, at);
    assert d[dot - at - 1] == '.';
    assert DotInside(d);
    assert LocalAndDomain(s, at);
  }

  /** An address of the right shape matches the pattern, split at its `@` and an inner `.`. */
  lemma ShapeMatchesPattern(s: string, at: nat, k: nat)
    requires NoSpace(s) && multiset(s)['@'] == 1
    requires 0 < at < |s| && s[at] == '@'
    requires 0 < k < |s| - at - 2 && s[at + 1 + k] == '.'
    ensures IsValidEmail(s)
  {
    var dot := at + 1 + k;
    OnlyAt(s, at);
    PlainBetween(s, 0, at);
    PlainBetween(s, at + 1, dot);
    PlainBetween(s, dot + 1, |s|);
    assert s[0..at] == s[..at];
    assert s[dot + 1..|s|] == s[dot + 1..];
    assert EmailSplit(s, at, dot);
  }

  /** The pattern accepts exactly the addresses of `AddressShape`. */
  lemma {:induction false} ValidEmailShape(s: string)
    ensures IsValidEmail(s) <==> AddressShape(s)
  {
    if IsValidEmail(s) {
      var at, dot :| 0 < at < dot < |s| && EmailSplit(s, at, dot);
      PatternHasShape(s, at, dot);
    }
    if AddressShape(s) {
      var at :| 0 < at < |s| && LocalAndDomain(s, at);
      var d := s[at + 1..];
      var k :| 0 < k < |d| - 1 && d[k] == '.';
      ShapeMatchesPattern(s, at, k);
    }
  }

  /** An address the pattern accepts contains no whitespace, so it is its own trim. */
  lemma ValidEmailIsTrimmed(s: string)
    requires IsValidEmail(s)
    ensures NoSpace(s) && s != "" && Trim(s) == s
  {
    ValidEmailShape(s);
    TrimUnique(s, 0, |s|);
  }
}
