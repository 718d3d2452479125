/** String operations the JavaScript code relies on: whitespace, `trim`, `join`,
    `split` and the decimal rendering of a number inside a template string. */
module Text {
  import opened Options

  /** The ECMAScript WhiteSpace and LineTerminator code points outside the U+2000..U+200A block. */
  const SpaceChars: set<char> := {
    '\t', '\n', '\U{000B}', '\U{000C}', '\r', ' ', '\U{00A0}', '\U{1680}',
    '\U{2028}', '\U{2029}', '\U{202F}', '\U{205F}', '\U{3000}', '\U{FEFF}'
  }

  /** ECMAScript WhiteSpace and LineTerminator code points. `String.prototype.trim`
      strips exactly these, and the regular-expression class `\s` matches exactly these. */
  predicate IsSpace(c: char)
  {
    c in SpaceChars || '\U{2000}' <= c <= '\U{200A}'
  }

  predicate AllSpace(s: string)
  {
    forall i :: 0 <= i < |s| ==> IsSpace(s[i])
  }

  predicate NoSpace(s: string)
  {
    forall i :: 0 <= i < |s| ==> !IsSpace(s[i])
  }

  /** Neither end of `s` is whitespace: what `trim` returns. */
  predicate IsTrimmed(s: string)
  {
    s == [] || (!IsSpace(s[0]) && !IsSpace(s[|s| - 1]))
  }

  /** `r` is what is left of `s` once some leading whitespace is cut off. */
  predicate LeadingCut(s: string, r: string)
  {
    |r| <= |s| && r == s[|s| - |r|..] && AllSpace(s[..|s| - |r|])
  }

  /** `r` is what is left of `s` once some trailing whitespace is cut off. */
  predicate TrailingCut(s: string, r: string)
  {
    |r| <= |s| && r == s[..|r|] && AllSpace(s[|r|..])
  }

  /** `s` with its leading whitespace removed. */
  function TrimStart(s: string): (r: string)
    ensures LeadingCut(s, r)
    ensures r == [] || !IsSpace(r[0])
    decreases |s|
  {
    if |s| > 0 && IsSpace(s[0]) then
      var r := TrimStart(s[1..]);
      LeadingCutStep(s, r);
      r
    else s
  }

  /** Cutting one more leading whitespace character is still a leading cut. */
  lemma LeadingCutStep(s: string, r: string)
    requires |s| > 0 && IsSpace(s[0]) && LeadingCut(s[1..], r)
    ensures LeadingCut(s, r)
  {
    var n := |s| - |r|;
    assert s[1..][n - 1..] == s[n..];
    forall k | 0 <= k < n ensures IsSpace(s[..n][k]) {
      if k > 0 {
        assert s[..n][k] == s[1..][..n - 1][k - 1];
      }
    }
  }

  /** `s` with its trailing whitespace removed. */
  function TrimEnd(s: string): (r: string)
    ensures TrailingCut(s, r)
    ensures r == [] || !IsSpace(r[|r| - 1])
    decreases |s|
  {
    if |s| > 0 && IsSpace(s[|s| - 1]) then
      var r := TrimEnd(s[..|s| - 1]);
      TrailingCutStep(s, r);
      r
    else s
  }

  /** Cutting one more trailing whitespace character is still a trailing cut. */
  lemma TrailingCutStep(s: string, r: string)
    requires |s| > 0 && IsSpace(s[|s| - 1]) && TrailingCut(s[..|s| - 1], r)
    ensures TrailingCut(s, r)
  {
    var n := |r|;
    assert s[..|s| - 1][..n] == s[..n];
    forall k | 0 <= k < |s| - n ensures IsSpace(s[n..][k]) {
      if k < |s| - 1 - n {
        assert s[n..][k] == s[..|s| - 1][n..][k];
      }
    }
  }

  /** `r` is the slice of `s` at offset `i`, with only whitespace around it. */
  predicate SpaceSplit(s: string, r: string, i: int)
  {
    0 <= i <= |s| - |r| && s[i..i + |r|] == r && AllSpace(s[..i]) && AllSpace(s[i + |r|..])
  }

  /** `r` is a slice of `s` with only whitespace around it. */
  ghost predicate SpaceAround(s: string, r: string)
  {
    exists i :: SpaceSplit(s, r, i)
  }

  /** JavaScript's `s.trim()`: whitespace removed from both ends (`TrimSpaceAround` shows
      that what is left is a slice of `s` with only whitespace around it). */
  function Trim(s: string): (r: string)
    ensures IsTrimmed(r)
    ensures r == [] <==> AllSpace(s)
  {
    TrimEndOfTrimStart(s);
    TrimEnd(TrimStart(s))
  }

  /** The facts `Trim` promises, for the composition it is built from. */
  lemma TrimEndOfTrimStart(s: string)
    ensures var r := TrimEnd(TrimStart(s));
      && IsTrimmed(r)
      && (r == [] <==> AllSpace(s))
  {
    var t := TrimStart(s);
    var r := TrimEnd(t);
    assert LeadingCut(s, t) && TrailingCut(t, r);
    if r == [] {
      assert t[|r|..] == t;
      assert t == [];
      assert s[..|s| - |t|] == s;
    } else {
      assert r[0] == t[0];
      assert t[0] == s[|s| - |t|];
    }
  }

  /** `Trim` only removes whitespace, and only at the ends: its result sits in `s`
      with nothing but whitespace before and after it. */
  lemma TrimSpaceAround(s: string)
    ensures SpaceAround(s, Trim(s))
  {
    var t := TrimStart(s);
    var r := TrimEnd(t);
    var i := |s| - |t|;
    SliceOfSuffix(s, t, r, i);
    assert SpaceSplit(s, r, i);
  }

  /** A prefix of a suffix is a middle slice, and what follows it is a suffix. */
  lemma SliceOfSuffix(s: string, t: string, r: string, i: nat)
    requires i <= |s| && t == s[i..] && |r| <= |t| && r == t[..|r|]
    ensures s[i..i + |r|] == r && s[i + |r|..] == t[|r|..]
  {
  }

  /** Slicing a suffix of `s` is slicing `s`. */
  lemma SuffixSlices<T>(s: seq<T>, i: nat, j: nat)
    requires i <= j <= |s|
    ensures s[i..][..j - i] == s[i..j] && s[i..][j - i..] == s[j..]
  {
  }

  /** The outer pieces of a three-part concatenation can be sliced back out. */
  lemma ConcatSlices<T>(a: seq<T>, b: seq<T>, c: seq<T>)
    ensures (a + b + c)[..|a|] == a && (a + b + c)[|a| + |b|..] == c
  {
  }

  /** If `s` has no leading whitespace, `TrimStart` leaves it alone; more generally
      it removes exactly the whitespace prefix `s[..i]`. */
  lemma {:induction false} TrimStartAt(s: string, i: nat)
    requires i <= |s| && AllSpace(s[..i])
    requires i == |s| || !IsSpace(s[i])
    ensures TrimStart(s) == s[i..]
    decreases i
  {
    if i > 0 {
      assert IsSpace(s[0]) by { assert s[0] == s[..i][0]; }
      var t := s[1..];
      assert AllSpace(t[..i - 1]) by {
        forall k | 0 <= k < i - 1 ensures IsSpace(t[k]) {
          assert t[k] == s[..i][k + 1];
        }
      }
      TrimStartAt(t, i - 1);
    }
  }

  /** `TrimEnd` removes exactly the whitespace suffix `s[j..]`. */
  lemma {:induction false} TrimEndAt(s: string, j: nat)
    requires j <= |s| && AllSpace(s[j..])
    requires j == 0 || !IsSpace(s[j - 1])
    ensures TrimEnd(s) == s[..j]
    decreases |s| - j
  {
    if j < |s| {
      var u := s[..|s| - 1];
      assert IsSpace(s[|s| - 1]) by { assert s[|s| - 1] == s[j..][|s| - 1 - j]; }
      assert AllSpace(u[j..]) by {
        forall k | 0 <= k < |u| - j ensures IsSpace(u[j..][k]) {
          assert u[j..][k] == s[j..][k];
        }
      }
      assert j == 0 || !IsSpace(u[j - 1]);
      TrimEndAt(u, j);
      assert u[..j] == s[..j];
    }
  }

  /** Trim has one answer: any slice `s[i..j]` with whitespace only outside it and
      no whitespace at its own ends is `Trim(s)`. */
  lemma TrimUnique(s: string, i: nat, j: nat)
    requires i <= j <= |s|
    requires AllSpace(s[..i]) && AllSpace(s[j..])
    requires i < j ==> !IsSpace(s[i]) && !IsSpace(s[j - 1])
    requires i == j ==> AllSpace(s)
    ensures Trim(s) == s[i..j]
  {
    if i == j {
      assert Trim(s) == [];
    } else {
      TrimStartAt(s, i);
      var t := s[i..];
      SuffixSlices(s, i, j);
      assert t[j - i - 1] == s[j - 1];
      TrimEndAt(t, j - i);
    }
  }

  /** Trimming twice is trimming once. */
  lemma TrimIdempotent(s: string)
    ensures Trim(Trim(s)) == Trim(s)
  {
    TrimOfTrimmed(Trim(s));
  }

  /** A string with no whitespace at either end is its own trim. */
  lemma TrimOfTrimmed(r: string)
    requires IsTrimmed(r)
    ensures Trim(r) == r
  {
    if r == [] {
      assert AllSpace(r);
    } else {
      assert r[..0] == [] && r[|r|..] == [] && r[0..|r|] == r;
      TrimUnique(r, 0, |r|);
    }
  }

  /** JavaScript's `xs.join(sep)`. */
  function Join(xs: seq<string>, sep: string): (r: string)
    ensures |xs| == 1 ==> r == xs[0]
    ensures |xs| == 0 ==> r == ""
    decreases |xs|
  {
    if |xs| == 0 then ""
    else if |xs| == 1 then xs[0]
    else xs[0] + sep + Join(xs[1..], sep)
  }

  /** `sep` occurs in `s` starting at position `k`. */
  predicate OccursAt(s: string, sep: string, k: nat)
  {
    k + |sep| <= |s| && s[k..k + |sep|] == sep
  }

  /** The first position at which `sep` occurs in `s`. */
  function Find(s: string, sep: string): (r: Option<nat>)
    requires |sep| > 0
    ensures r.Some? ==> OccursAt(s, sep, r.value)
    ensures r.Some? ==> forall k: nat :: k < r.value ==> !OccursAt(s, sep, k)
    ensures r.None? ==> forall k: nat :: !OccursAt(s, sep, k)
    decreases |s|
  {
    if |s| < |sep| then None
    else if s[..|sep|] == sep then Some(0)
    else
      var r := Find(s[1..], sep);
      OccursShift(s, sep);
      assert !OccursAt(s, sep, 0);
      if r.None? then None else Some(r.value + 1)
  }

  /** Occurrences in `s` past the first position are the occurrences in `s[1..]`, shifted by one. */
  lemma OccursShift(s: string, sep: string)
    requires |s| > 0
    ensures forall k: nat :: k >= 1 ==> OccursAt(s, sep, k) == OccursAt(s[1..], sep, k - 1)
  {
    forall k: nat | k >= 1 ensures OccursAt(s, sep, k) == OccursAt(s[1..], sep, k - 1) {
      if k + |sep| <= |s| { assert s[1..][k - 1..k - 1 + |sep|] == s[k..k + |sep|]; }
    }
  }

  /** JavaScript's `s.split(sep)` for a non-empty separator. */
  function Split(s: string, sep: string): (parts: seq<string>)
    requires |sep| > 0
    ensures |parts| > 0
    decreases |s|
  {
    match Find(s, sep)
    case None => [s]
    case Some(i) => [s[..i]] + Split(s[i + |sep|..], sep)
  }

  /** The last character of `sep` occurs nowhere else in `sep` (true of `", "`). */
  predicate EndsUniquely(sep: string)
  {
    |sep| > 0 && forall j :: 0 <= j < |sep| - 1 ==> sep[j] != sep[|sep| - 1]
  }

  /** `x` does not contain the last character of `sep`. */
  predicate Avoids(x: string, sep: string)
  {
    |sep| > 0 && sep[|sep| - 1] !in x
  }

  /** An occurrence of `sep` at `k` puts `sep`'s last character at `k + |sep| - 1`. */
  lemma OccursEnd(s: string, sep: string, k: nat)
    requires |sep| > 0 && OccursAt(s, sep, k)
    ensures s[k + |sep| - 1] == sep[|sep| - 1]
  {
    assert s[k..k + |sep|][|sep| - 1] == s[k + |sep| - 1];
  }

  /** A separator whose last character does not occur in `x` is not found in `x`. */
  lemma FindAbsent(x: string, sep: string)
    requires Avoids(x, sep)
    ensures Find(x, sep) == None
  {
    forall k: nat ensures !OccursAt(x, sep, k) {
      if OccursAt(x, sep, k) {
        assert x[k + |sep| - 1] in x;
        OccursEnd(x, sep, k);
      }
    }
  }

  /** In `x + sep + rest` the first separator is the one right after `x`. */
  lemma FindAfter(x: string, sep: string, rest: string)
    requires EndsUniquely(sep) && Avoids(x, sep)
    ensures Find(x + sep + rest, sep) == Some(|x|)
  {
    var s := x + sep + rest;
    assert s == x + (sep + rest);
    assert s[|x|..|x| + |sep|] == sep;
    assert OccursAt(s, sep, |x|);
    forall k: nat | k < |x| ensures !OccursAt(s, sep, k) {
      var p := k + |sep| - 1;
      if p < |x| {
        assert s[p] == x[p] && x[p] in x;
      } else {
        assert s[p] == sep[p - |x|];
      }
      if OccursAt(s, sep, k) {
        OccursEnd(s, sep, k);
      }
    }
  }

  /** No element of `xs` contains the last character of `sep`. */
  predicate AllAvoid(xs: seq<string>, sep: string)
  {
    forall k :: 0 <= k < |xs| ==> Avoids(xs[k], sep)
  }

  /** Splitting at the separator undoes a join of at least one element, provided the
      separator's last character occurs only at its end and in none of the elements. */
  lemma {:induction false} SplitJoin(xs: seq<string>, sep: string)
    requires |xs| > 0 && EndsUniquely(sep) && AllAvoid(xs, sep)
    ensures Split(Join(xs, sep), sep) == xs
    decreases |xs|
  {
    if |xs| == 1 {
      SplitJoinOne(xs, sep);
    } else {
      SplitJoinStep(xs, sep);
      TailAvoids(xs, sep);
      SplitJoin(xs[1..], sep);
      assert xs == [xs[0]] + xs[1..];
    }
  }

  /** Splitting a one-element join gives the element back. */
  lemma SplitJoinOne(xs: seq<string>, sep: string)
    requires |xs| == 1 && Avoids(xs[0], sep)
    ensures Split(Join(xs, sep), sep) == xs
  {
    FindAbsent(xs[0], sep);
  }

  /** The tail of a list whose elements avoid `sep`'s last character avoids it too. */
  lemma TailAvoids(xs: seq<string>, sep: string)
    requires |xs| > 0 && AllAvoid(xs, sep)
    ensures AllAvoid(xs[1..], sep)
  {
    forall k | 0 <= k < |xs| - 1 ensures Avoids(xs[1..][k], sep) {
      assert xs[1..][k] == xs[k + 1];
    }
  }

  /** Splitting a join of two or more elements peels off the first one. */
  lemma SplitJoinStep(xs: seq<string>, sep: string)
    requires |xs| > 1 && EndsUniquely(sep) && AllAvoid(xs, sep)
    ensures Split(Join(xs, sep), sep) == [xs[0]] + Split(Join(xs[1..], sep), sep)
  {
    var rest := Join(xs[1..], sep);
    var s := xs[0] + sep + rest;
    assert Join(xs, sep) == s;
    FindAfter(xs[0], sep, rest);
    ConcatSlices(xs[0], sep, rest);
  }

  /** The decimal digit for `d`. */
  function DigitChar(d: nat): (c: char)
    requires d < 10
    ensures '0' <= c <= '9' && (c as int) - ('0' as int) == d
  {
    (('0' as int) + d) as char
  }

  /** How a non-negative integer prints inside a JavaScript template string: the
      canonical decimal form, with no leading zero except for zero itself. */
  function Decimal(n: nat): (r: string)
    ensures |r| > 0
    ensures forall k :: 0 <= k < |r| ==> '0' <= r[k] <= '9'
    ensures n == 0 ==> r == "0"
    ensures n > 0 ==> r[0] != '0'
    decreases n
  {
    if n < 10 then [DigitChar(n)]
    else
      var r := Decimal(n / 10) + [DigitChar(n % 10)];
      assert r[0] == Decimal(n / 10)[0];
      r
  }

  /** The number a string of decimal digits denotes. */
  function DecimalValue(s: string): nat
    requires forall k :: 0 <= k < |s| ==> '0' <= s[k] <= '9'
    decreases |s|
  {
    if s == [] then 0
    else DecimalValue(s[..|s| - 1]) * 10 + ((s[|s| - 1] as int) - ('0' as int))
  }

  /** Reading back the printed number gives the number. */
  lemma {:induction false} DecimalRoundTrip(n: nat)
    ensures DecimalValue(Decimal(n)) == n
    decreases n
  {
    if n >= 10 {
      DecimalRoundTrip(n / 10);
      var r := Decimal(n);
      assert r[..|r| - 1] == Decimal(n / 10);
    }
  }
}
