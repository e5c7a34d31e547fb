/**
 Character classes and string helpers shared by the itinerary parser, the
 preference combiner and the tool-status detector. Python's Unicode-aware
 `\d`, `\s`, `str.strip` and `str.lower` are modelled on ASCII.
 */
module Text {

  /** Python's `\d`, restricted to ASCII. */
  predicate IsDigit(c: char) {
    '0' <= c <= '9'
  }

  /**
   Python's `\s` and `str.isspace`, restricted to ASCII: space, \t, \n, \v, \f, \r
   and the four separators U+001C to U+001F.
   */
  predicate IsSpace(c: char) {
    c == ' ' || '\t' <= c <= '\r' || '\U{1C}' <= c <= '\U{1F}'
  }

  predicate AllDigits(d: string) {
    forall k :: 0 <= k < |d| ==> IsDigit(d[k])
  }

  predicate AllSpace(s: string) {
    forall k :: 0 <= k < |s| ==> IsSpace(s[k])
  }

  function DigitValue(c: char): (v: nat)
    requires IsDigit(c)
    ensures v < 10
  {
    c as int - '0' as int
  }

  function DigitChar(v: nat): (c: char)
    requires v < 10
    ensures IsDigit(c) && DigitValue(c) == v
  {
    ('0' as int + v) as char
  }

  // ---------------------------------------------------------------------------
  // Decimal numerals: Python's int(digits) and str(n)
  // ---------------------------------------------------------------------------

  /** The value of a decimal numeral, read left to right as `int()` does. */
  function Value(d: string): nat
    requires AllDigits(d)
  {
    if |d| == 0 then 0 else Value(d[..|d| - 1]) * 10 + DigitValue(d[|d| - 1])
  }

  /** Python's `str(n)` for a non-negative integer. */
  function ShowNat(n: nat): (r: string)
    ensures 1 <= |r| && AllDigits(r)
    ensures r[0] == '0' ==> n == 0
  {
    if n < 10 then [DigitChar(n)] else ShowNat(n / 10) + [DigitChar(n % 10)]
  }

  /** A numeral without redundant leading zeros. */
  predicate Canonical(d: string) {
    1 <= |d| && AllDigits(d) && (d[0] == '0' ==> |d| == 1)
  }

  /** The numeral with its redundant leading zeros removed ("007" becomes "7", "00" becomes "0"). */
  function DropLeadingZeros(d: string): (r: string)
    requires 1 <= |d| && AllDigits(d)
    ensures Canonical(r) && |r| <= |d|
    ensures r == d[|d| - |r|..]
    ensures forall k :: 0 <= k < |d| - |r| ==> d[k] == '0'
  {
    if |d| > 1 && d[0] == '0' then DropLeadingZeros(d[1..]) else d
  }

  /** Reading back what `str` printed gives the number again. */
  lemma {:induction false} ValueOfShowNat(n: nat)
    ensures Value(ShowNat(n)) == n
  {
    if n >= 10 {
      ValueOfShowNat(n / 10);
      var r := ShowNat(n);
      assert r[..|r| - 1] == ShowNat(n / 10);
    }
  }

  /** A leading zero does not change a numeral's value. */
  lemma {:induction false} ValueLeadingZero(t: string)
    requires AllDigits(t)
    ensures AllDigits(['0'] + t) && Value(['0'] + t) == Value(t)
  {
    var d := ['0'] + t;
    if |t| > 0 {
      assert d[..|d| - 1] == ['0'] + t[..|t| - 1];
      ValueLeadingZero(t[..|t| - 1]);
    }
  }

  /** A numeral that starts with a non-zero digit has a positive value. */
  lemma {:induction false} ValuePositive(d: string)
    requires 1 <= |d| && AllDigits(d) && d[0] != '0'
    ensures Value(d) >= 1
  {
    if |d| > 1 {
      ValuePositive(d[..|d| - 1]);
    }
  }

  lemma {:induction false} ValueDropLeadingZeros(d: string)
    requires 1 <= |d| && AllDigits(d)
    ensures Value(DropLeadingZeros(d)) == Value(d)
  {
    if |d| > 1 && d[0] == '0' {
      var t := d[1..];
      assert AllDigits(t) by {
        forall k | 0 <= k < |t| ensures IsDigit(t[k]) {
          assert t[k] == d[k + 1];
        }
      }
      ValueDropLeadingZeros(t);
      ValueLeadingZero(t);
      assert d == ['0'] + t;
      calc {
        Value(DropLeadingZeros(d));
        Value(DropLeadingZeros(t));
        Value(t);
        Value(['0'] + t);
      }
    }
  }

  /** `str` prints every canonical numeral back exactly. */
  lemma {:induction false} ShowNatOfCanonical(d: string)
    requires Canonical(d)
    ensures ShowNat(Value(d)) == d
  {
    if |d| > 1 {
      var p := d[..|d| - 1];
      var x := DigitValue(d[|d| - 1]);
      assert Canonical(p);
      ShowNatOfCanonical(p);
      ValuePositive(p);
      var v := Value(d);
      assert v == Value(p) * 10 + x;
      assert v / 10 == Value(p) && v % 10 == x;
      assert DigitChar(x) == d[|d| - 1];
      assert d == p + [d[|d| - 1]];
    }
  }

  /** `str(int(d))` is `d` with its leading zeros dropped: "Day 01" is titled "Day 1". */
  lemma ShowNatOfValue(d: string)
    requires 1 <= |d| && AllDigits(d)
    ensures ShowNat(Value(d)) == DropLeadingZeros(d)
  {
    ValueDropLeadingZeros(d);
    ShowNatOfCanonical(DropLeadingZeros(d));
  }

  // ---------------------------------------------------------------------------
  // str.strip()
  // ---------------------------------------------------------------------------

  /** Index of the first non-whitespace character at or after `a`, or |s|. */
  function SkipSpace(s: string, a: nat): (b: nat)
    requires a <= |s|
    ensures a <= b <= |s|
    ensures forall k :: a <= k < b ==> IsSpace(s[k])
    ensures b == |s| || !IsSpace(s[b])
    decreases |s| - a
  {
    if a < |s| && IsSpace(s[a]) then SkipSpace(s, a + 1) else a
  }

  /** One past the last non-whitespace character before `b`, or `a` if there is none. */
  function TrimEnd(s: string, a: nat, b: nat): (e: nat)
    requires a <= b <= |s|
    ensures a <= e <= b
    ensures forall k :: e <= k < b ==> IsSpace(s[k])
    ensures e == a || !IsSpace(s[e - 1])
    decreases b
  {
    if a < b && IsSpace(s[b - 1]) then TrimEnd(s, a, b - 1) else b
  }

  /** `s[a..a+|r|] == r` with only whitespace around it in `s`. */
  predicate StrippedAt(s: string, r: string, a: nat) {
    a + |r| <= |s| && s[a..a + |r|] == r && AllSpace(s[..a]) && AllSpace(s[a + |r|..])
  }

  /** Whitespace-free at both ends. */
  predicate Trimmed(r: string) {
    |r| == 0 || (!IsSpace(r[0]) && !IsSpace(r[|r| - 1]))
  }

  /** Python's `str.strip()` with no argument. */
  function Strip(s: string): (r: string)
    ensures exists a :: StrippedAt(s, r, a)
    ensures Trimmed(r)
    ensures |r| == 0 <==> AllSpace(s)
  {
    var a := SkipSpace(s, 0);
    var e := TrimEnd(s, a, |s|);
    StripBounds(s, a, e);
    s[a..e]
  }

  lemma StripBounds(s: string, a: nat, e: nat)
    requires a == SkipSpace(s, 0) && e == TrimEnd(s, a, |s|)
    ensures StrippedAt(s, s[a..e], a)
    ensures a < e ==> !IsSpace(s[a])
    ensures a == e <==> AllSpace(s)
  {
  }

  /** `strip` is determined by its contract: the one trimmed core of `s` surrounded only by whitespace. */
  lemma StripUnique(s: string, r: string, a: nat)
    requires StrippedAt(s, r, a) && Trimmed(r)
    ensures Strip(s) == r
  {
    var t := Strip(s);
    var b: nat :| StrippedAt(s, t, b);
    if |r| == 0 {
      assert forall k :: 0 <= k < |s| ==> IsSpace(s[k]) by {
        forall k | 0 <= k < |s| ensures IsSpace(s[k]) {
          if k < a {
            assert s[..a][k] == s[k];
          } else {
            assert s[a..][k - a] == s[k];
          }
        }
      }
    } else {
      assert s[a] == r[0] && !IsSpace(s[a]);
      assert !AllSpace(s) by {
        assert !IsSpace(s[a]);
      }
      assert |t| > 0;
      assert s[b] == t[0];
      var e, f := a + |r|, b + |t|;
      assert s[e - 1] == r[|r| - 1] && s[f - 1] == t[|t| - 1];
      SpaceAround(s, a, e);
      SpaceAround(s, b, f);
      assert a == b;
      assert e == f;
    }
  }

  lemma SpaceAround(s: string, a: nat, e: nat)
    requires a <= e <= |s| && AllSpace(s[..a]) && AllSpace(s[e..])
    ensures forall k :: 0 <= k < a ==> IsSpace(s[k])
    ensures forall k :: e <= k < |s| ==> IsSpace(s[k])
  {
    forall k | 0 <= k < a ensures IsSpace(s[k]) {
      assert s[..a][k] == s[k];
    }
    forall k | e <= k < |s| ensures IsSpace(s[k]) {
      assert s[e..][k - e] == s[k];
    }
  }

  /** Stripping twice is stripping once. */
  lemma StripIdempotent(s: string)
    ensures Strip(Strip(s)) == Strip(s)
  {
    var r := Strip(s);
    if |r| > 0 {
      assert SkipSpace(r, 0) == 0;
      assert TrimEnd(r, 0, |r|) == |r|;
      assert r[0..|r|] == r;
    }
  }

  // ---------------------------------------------------------------------------
  // str.lower() and the `in` substring test
  // ---------------------------------------------------------------------------

  predicate IsUpper(c: char) {
    'A' <= c <= 'Z'
  }

  function LowerChar(c: char): char {
    if IsUpper(c) then (c as int + 32) as char else c
  }

  /** Python's `str.lower()`, restricted to ASCII letters. */
  function Lower(s: string): (r: string)
    ensures |r| == |s|
    ensures forall k :: 0 <= k < |r| ==> !IsUpper(r[k])
    ensures forall k :: 0 <= k < |r| ==>
      r[k] == s[k] || (IsUpper(s[k]) && r[k] as int == s[k] as int + 32)
  {
    seq(|s|, k requires 0 <= k < |s| => LowerChar(s[k]))
  }

  /** Lower-casing twice is lower-casing once. */
  lemma LowerIdempotent(s: string)
    ensures Lower(Lower(s)) == Lower(s)
  {
  }

  /** `t` occurs in `s` at offset `i`. */
  predicate OccursAt(s: string, t: string, i: int) {
    0 <= i && i + |t| <= |s| && s[i..i + |t|] == t
  }

  /** Search for `t` in `s` from offset `i` on. */
  function ContainsFrom(s: string, t: string, i: nat): (b: bool)
    requires i <= |s|
    ensures b <==> exists j :: i <= j && OccursAt(s, t, j)
    decreases |s| - i
  {
    if i + |t| > |s| then false
    else if s[i..i + |t|] == t then assert OccursAt(s, t, i); true
    else ContainsFrom(s, t, i + 1)
  }

  /** Python's `t in s` for strings. */
  function Contains(s: string, t: string): (b: bool)
    ensures b <==> exists j :: OccursAt(s, t, j)
  {
    ContainsFrom(s, t, 0)
  }

  // ---------------------------------------------------------------------------
  // sep.join(items)
  // ---------------------------------------------------------------------------

  /** Python's `sep.join(xs)`. */
  function Join(xs: seq<string>, sep: string): string
  {
    if |xs| == 0 then "" else if |xs| == 1 then xs[0] else xs[0] + sep + Join(xs[1..], sep)
  }

  /** Where item `k` begins in `sep.join(xs)`. */
  function JoinOffset(xs: seq<string>, sep: string, k: nat): nat
    requires k <= |xs|
  {
    if k == 0 then 0 else |xs[0]| + |sep| + JoinOffset(xs[1..], sep, k - 1)
  }

  lemma {:induction false} JoinOffsetStep(xs: seq<string>, sep: string, k: nat)
    requires k < |xs|
    ensures JoinOffset(xs, sep, k + 1) == JoinOffset(xs, sep, k) + |xs[k]| + |sep|
  {
    if k > 0 {
      JoinOffsetStep(xs[1..], sep, k - 1);
    }
  }

  /** A slice taken past a prefix is a slice of what follows it. */
  lemma SliceAfterPrefix(p: string, t: string, x: nat, y: nat)
    requires x <= y <= |t|
    ensures (p + t)[|p| + x..|p| + y] == t[x..y]
  {
    forall k | 0 <= k < y - x
      ensures (p + t)[|p| + x..|p| + y][k] == t[x..y][k]
    {
      assert (p + t)[|p| + x + k] == t[x + k];
    }
  }

  /** Every item sits in the joined string at its offset, in order. */
  lemma {:induction false} JoinItemAt(xs: seq<string>, sep: string, k: nat)
    requires k < |xs|
    ensures JoinOffset(xs, sep, k) + |xs[k]| <= |Join(xs, sep)|
    ensures Join(xs, sep)[JoinOffset(xs, sep, k)..JoinOffset(xs, sep, k) + |xs[k]|] == xs[k]
  {
    var j := Join(xs, sep);
    if k > 0 {
      var tail := xs[1..];
      var t := Join(tail, sep);
      var p := xs[0] + sep;
      JoinItemAt(tail, sep, k - 1);
      var a := JoinOffset(tail, sep, k - 1);
      assert tail[k - 1] == xs[k];
      assert j == p + t;
      assert JoinOffset(xs, sep, k) == |p| + a;
      SliceAfterPrefix(p, t, a, a + |xs[k]|);
    } else {
      assert |xs| > 1 ==> j == xs[0] + (sep + Join(xs[1..], sep));
    }
  }

  /** Every item but the last is followed by the separator, and the next item starts right after it. */
  lemma {:induction false} JoinSeparatorAfter(xs: seq<string>, sep: string, k: nat)
    requires k + 1 < |xs|
    ensures JoinOffset(xs, sep, k + 1) == JoinOffset(xs, sep, k) + |xs[k]| + |sep| <= |Join(xs, sep)|
    ensures Join(xs, sep)[JoinOffset(xs, sep, k) + |xs[k]|..JoinOffset(xs, sep, k) + |xs[k]| + |sep|] == sep
  {
    JoinOffsetStep(xs, sep, k);
    JoinItemAt(xs, sep, k + 1);
    var j := Join(xs, sep);
    var tail := xs[1..];
    var t := Join(tail, sep);
    assert j == xs[0] + sep + t;
    if k > 0 {
      var p := xs[0] + sep;
      JoinSeparatorAfter(tail, sep, k - 1);
      var a := JoinOffset(tail, sep, k - 1);
      assert tail[k - 1] == xs[k];
      assert j == p + t;
      assert JoinOffset(xs, sep, k) == |p| + a;
      SliceAfterPrefix(p, t, a + |xs[k]|, a + |xs[k]| + |sep|);
    } else {
      SliceAfterPrefix(xs[0], sep + t, 0, |sep|);
      assert xs[0] + (sep + t) == j;
    }
  }

  /** The joined string is exactly as long as its items and the separators between them. */
  lemma {:induction false} JoinLength(xs: seq<string>, sep: string)
    requires 1 <= |xs|
    ensures |Join(xs, sep)| == JoinOffset(xs, sep, |xs| - 1) + |xs[|xs| - 1]|
  {
    if |xs| > 1 {
      var tail := xs[1..];
      JoinLength(tail, sep);
      assert Join(xs, sep) == xs[0] + sep + Join(tail, sep);
      assert JoinOffset(xs, sep, |xs| - 1) == |xs[0]| + |sep| + JoinOffset(tail, sep, |tail| - 1);
      assert tail[|tail| - 1] == xs[|xs| - 1];
    }
  }
}
