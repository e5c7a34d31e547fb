/**
 The day-marker scanner of the itinerary exporter (app.py, generate_ics_content):
 `re.compile(r'Day (\d+)[:\s]+(.*?)(?=Day \d+|$)', re.DOTALL).findall(text)`
 written out as an explicit left-to-right scan over the text.

 Python's backtracking engine has no choice to make in this pattern: the
 digit run must be maximal (a shorter run would leave a digit where `[:\s]`
 is needed), the separator run is maximal because the lazy body then always
 finds a stop (at worst the end of the text), and the body is the shortest
 one that reaches a stop. `DayMatch`/`ValidMatch` record exactly that match.
 */
module DayScan {
  import opened Wrappers
  import opened Text

  /** The case-sensitive literal `Day ` followed by a digit starts at `i`: what `(?=Day \d+)` tests. */
  predicate MarkerAt(s: string, i: int) {
    && 0 <= i && i + 5 <= |s|
    && s[i] == 'D' && s[i + 1] == 'a' && s[i + 2] == 'y' && s[i + 3] == ' '
    && IsDigit(s[i + 4])
  }

  /** `$` without MULTILINE: the end of the text, or just before a newline that ends it. */
  predicate EndAnchorAt(s: string, j: int) {
    j == |s| || (0 <= j == |s| - 1 && s[j] == '\n')
  }

  /** The lazy body may stop at `j`: the lookahead `(?=Day \d+|$)` holds there. */
  predicate StopAt(s: string, j: int) {
    MarkerAt(s, j) || EndAnchorAt(s, j)
  }

  /** The character class `[:\s]`. */
  predicate IsSeparator(c: char) {
    c == ':' || IsSpace(c)
  }

  /** End of the maximal digit run starting at `k`. */
  function DigitRunEnd(s: string, k: nat): (e: nat)
    requires k <= |s|
    ensures k <= e <= |s|
    ensures forall m :: k <= m < e ==> IsDigit(s[m])
    ensures e == |s| || !IsDigit(s[e])
    decreases |s| - k
  {
    if k < |s| && IsDigit(s[k]) then DigitRunEnd(s, k + 1) else k
  }

  /** End of the maximal `[:\s]` run starting at `k`. */
  function SeparatorRunEnd(s: string, k: nat): (e: nat)
    requires k <= |s|
    ensures k <= e <= |s|
    ensures forall m :: k <= m < e ==> IsSeparator(s[m])
    ensures e == |s| || !IsSeparator(s[e])
    decreases |s| - k
  {
    if k < |s| && IsSeparator(s[k]) then SeparatorRunEnd(s, k + 1) else k
  }

  /** The first position at or after `j` where the lookahead holds. */
  function FirstStop(s: string, j: nat): (e: nat)
    requires j <= |s|
    ensures j <= e <= |s| && StopAt(s, e)
    ensures forall m :: j <= m < e ==> !StopAt(s, m)
    decreases |s| - j
  {
    if StopAt(s, j) then j else FirstStop(s, j + 1)
  }

  /**
   One match: `Day ` at `start`, the captured digits up to `digitsEnd`, the
   separators up to `bodyStart`, and the captured body up to `end`.
   */
  datatype DayMatch = DayMatch(start: nat, digitsEnd: nat, bodyStart: nat, end: nat, digits: string, body: string)

  /** `m` is the match the pattern makes when tried at `m.start`. */
  predicate ValidMatch(s: string, m: DayMatch) {
    && m.start + 4 < m.digitsEnd < m.bodyStart <= m.end <= |s|
    && MarkerAt(s, m.start)
    && m.digits == s[m.start + 4..m.digitsEnd]
    && (forall k :: m.start + 4 <= k < m.digitsEnd ==> IsDigit(s[k]))
    && (forall k :: m.digitsEnd <= k < m.bodyStart ==> IsSeparator(s[k]))
    && (m.bodyStart == |s| || !IsSeparator(s[m.bodyStart]))
    && m.body == s[m.bodyStart..m.end]
    && StopAt(s, m.end)
    && (forall k :: m.bodyStart <= k < m.end ==> !StopAt(s, k))
  }

  /** `Day `, one or more digits, and a `[:\s]` character at `d`: the pattern's required prefix. */
  predicate HeaderUpTo(s: string, i: int, d: int) {
    && MarkerAt(s, i) && i + 4 < d < |s|
    && (forall k :: i + 4 <= k < d ==> IsDigit(s[k]))
    && IsSeparator(s[d])
  }

  /** The pattern tried at position `i` (one step of `findall`). */
  function MatchAt(s: string, i: nat): (r: Option<DayMatch>)
    ensures r.Some? ==> r.value.start == i && ValidMatch(s, r.value)
  {
    if !MarkerAt(s, i) then None
    else
      var d := DigitRunEnd(s, i + 4);
      if d == |s| || !IsSeparator(s[d]) then None
      else
        var p := SeparatorRunEnd(s, d);
        var e := FirstStop(s, p);
        Some(DayMatch(i, d, p, e, s[i + 4..d], s[p..e]))
  }

  /**
   A match is found at `i` exactly when `i` starts `Day `, one or more digits
   and a `[:\s]` character: "day 1:" and "Day 1-" are not day markers.
   */
  lemma MatchAtIffHeader(s: string, i: nat)
    ensures MatchAt(s, i).Some? <==> exists d :: HeaderUpTo(s, i, d)
  {
    if MarkerAt(s, i) {
      var d := DigitRunEnd(s, i + 4);
      if d == |s| || !IsSeparator(s[d]) {
        NoHeaderWithoutSeparator(s, i, d);
      } else {
        assert HeaderUpTo(s, i, d);
      }
    }
  }

  lemma NoHeaderWithoutSeparator(s: string, i: nat, d: nat)
    requires MarkerAt(s, i) && d == DigitRunEnd(s, i + 4)
    requires d == |s| || !IsSeparator(s[d])
    ensures forall d' :: !HeaderUpTo(s, i, d')
  {
    forall d' | i + 4 < d' < |s|
      ensures !HeaderUpTo(s, i, d')
    {
      if d' < d {
        assert !IsSeparator(s[d']);
      } else if d' > d {
        assert !IsDigit(s[d]);
      }
    }
  }

  /** The pattern has exactly one way to match at a given position. */
  lemma MatchDeterminedByStart(s: string, m1: DayMatch, m2: DayMatch)
    requires ValidMatch(s, m1) && ValidMatch(s, m2) && m1.start == m2.start
    ensures m1 == m2
  {
    assert !IsDigit(s[m1.digitsEnd]) && !IsDigit(s[m2.digitsEnd]);
    assert m1.digitsEnd == m2.digitsEnd;
    assert m1.bodyStart == m2.bodyStart;
    assert m1.end == m2.end;
  }

  /** Every valid match is the one `MatchAt` finds at its start. */
  lemma MatchAtFindsValidMatch(s: string, m: DayMatch)
    requires ValidMatch(s, m)
    ensures MatchAt(s, m.start) == Some(m)
  {
    assert HeaderUpTo(s, m.start, m.digitsEnd);
    MatchAtIffHeader(s, m.start);
    MatchDeterminedByStart(s, MatchAt(s, m.start).value, m);
  }

  /** A match holds no `Day <digit>` except the one it starts with. */
  lemma NoMarkerInsideMatch(s: string, m: DayMatch, p: int)
    requires ValidMatch(s, m) && m.start < p < m.end
    ensures !MarkerAt(s, p)
  {
    if p < m.start + 4 {
      assert s[p] != 'D';
    } else if p < m.digitsEnd {
      assert IsDigit(s[p]);
    } else if p < m.bodyStart {
      assert IsSeparator(s[p]);
    } else {
      assert !StopAt(s, p);
    }
  }

  /** The captured body, before stripping, contains no `Day ` followed by a digit. */
  lemma BodyHasNoMarker(s: string, m: DayMatch)
    requires ValidMatch(s, m)
    ensures forall q :: !MarkerAt(m.body, q)
  {
    forall q | 0 <= q && q + 5 <= |m.body|
      ensures !MarkerAt(m.body, q)
    {
      assert !StopAt(s, m.bodyStart + q);
      var b, o := m.body, m.bodyStart + q;
      assert b[q] == s[o] && b[q + 1] == s[o + 1] && b[q + 2] == s[o + 2];
      assert b[q + 3] == s[o + 3] && b[q + 4] == s[o + 4];
    }
  }

  /** Python's `findall` from position `i`: match and resume at the match's end, else advance by one. */
  function FindAll(s: string, i: nat): seq<DayMatch>
    requires i <= |s|
    decreases |s| - i
  {
    if i == |s| then []
    else
      match MatchAt(s, i)
      case Some(m) => [m] + FindAll(s, m.end)
      case None => FindAll(s, i + 1)
  }

  /** Position `p` lies inside one of the matches in `r`. */
  predicate Covers(r: seq<DayMatch>, p: int) {
    exists k :: 0 <= k < |r| && r[k].start <= p < r[k].end
  }

  /** Every reported match is the pattern's match at its start, at or after `i`. */
  predicate ScanMatches(s: string, i: nat, r: seq<DayMatch>) {
    forall k :: 0 <= k < |r| ==> i <= r[k].start && ValidMatch(s, r[k])
  }

  /** Reported matches follow one another without overlapping. */
  predicate ScanOrdered(r: seq<DayMatch>) {
    forall k :: 0 <= k < |r| - 1 ==> r[k].end <= r[k + 1].start
  }

  /** No position from `i` on that lies outside every reported match admits a match. */
  predicate ScanComplete(s: string, i: nat, r: seq<DayMatch>) {
    forall p :: i <= p < |s| && !Covers(r, p) ==> MatchAt(s, p).None?
  }

  /** A left-to-right, non-overlapping, leftmost scan from `i`. */
  predicate IsScan(s: string, i: nat, r: seq<DayMatch>) {
    ScanMatches(s, i, r) && ScanOrdered(r) && ScanComplete(s, i, r)
  }

  lemma {:induction false} FindAllMatches(s: string, i: nat)
    requires i <= |s|
    ensures ScanMatches(s, i, FindAll(s, i))
    decreases |s| - i
  {
    if i < |s| {
      match MatchAt(s, i)
      case None =>
        FindAllMatches(s, i + 1);
      case Some(m) =>
        FindAllMatches(s, m.end);
        var t := FindAll(s, m.end);
        var r := [m] + t;
        assert FindAll(s, i) == r;
        forall k | 0 <= k < |r|
          ensures i <= r[k].start && ValidMatch(s, r[k])
        {
          if k > 0 {
            assert r[k] == t[k - 1];
          }
        }
    }
  }

  lemma {:induction false} FindAllOrdered(s: string, i: nat)
    requires i <= |s|
    ensures ScanOrdered(FindAll(s, i))
    ensures forall k :: 0 <= k < |FindAll(s, i)| ==> i <= FindAll(s, i)[k].start
    decreases |s| - i
  {
    if i < |s| {
      match MatchAt(s, i)
      case None =>
        FindAllOrdered(s, i + 1);
        assert FindAll(s, i) == FindAll(s, i + 1);
      case Some(m) =>
        FindAllOrdered(s, m.end);
        var t := FindAll(s, m.end);
        var r := [m] + t;
        assert FindAll(s, i) == r;
        forall k | 0 <= k < |r| - 1
          ensures r[k].end <= r[k + 1].start
        {
          assert r[k + 1] == t[k];
          if k > 0 {
            assert r[k] == t[k - 1];
          }
        }
    }
  }

  /** Position `p`, lying from `i` on outside every match the scan reports, admits no match. */
  lemma {:induction false} FindAllCompleteAt(s: string, i: nat, p: nat)
    requires i <= p < |s| && !Covers(FindAll(s, i), p)
    ensures MatchAt(s, p).None?
    decreases |s| - i
  {
    match MatchAt(s, i)
    case None =>
      assert FindAll(s, i) == FindAll(s, i + 1);
      if p > i {
        FindAllCompleteAt(s, i + 1, p);
      }
    case Some(m) =>
      var t := FindAll(s, m.end);
      var r := [m] + t;
      assert FindAll(s, i) == r;
      assert !(r[0].start <= p < r[0].end);
      assert !Covers(t, p) by {
        forall k | 0 <= k < |t|
          ensures !(t[k].start <= p < t[k].end)
        {
          assert r[k + 1] == t[k];
        }
      }
      FindAllCompleteAt(s, m.end, p);
  }

  lemma FindAllComplete(s: string, i: nat)
    requires i <= |s|
    ensures ScanComplete(s, i, FindAll(s, i))
  {
    forall p | i <= p < |s| && !Covers(FindAll(s, i), p)
      ensures MatchAt(s, p).None?
    {
      FindAllCompleteAt(s, i, p);
    }
  }

  /** `FindAll` is the leftmost, non-overlapping scan of the pattern over the text. */
  lemma FindAllIsScan(s: string, i: nat)
    requires i <= |s|
    ensures IsScan(s, i, FindAll(s, i))
  {
    FindAllMatches(s, i);
    FindAllOrdered(s, i);
    FindAllComplete(s, i);
  }

  /** The scan finds nothing exactly when no position of the text admits a match. */
  lemma EmptyScanIffNoMatch(s: string)
    ensures FindAll(s, 0) == [] <==> forall p :: 0 <= p < |s| ==> MatchAt(s, p).None?
  {
    var r := FindAll(s, 0);
    FindAllIsScan(s, 0);
    if r != [] {
      MatchAtFindsValidMatch(s, r[0]);
    } else {
      assert forall p :: !Covers(r, p);
    }
  }

  /**
   No `Day <digit>` lies strictly inside a reported match, since the lazy body
   stops at the first one; a `Day <digits>` that lacks a separator (the
   `Day 3` of `Day 3x`) starts no match and lies inside none.
   */
  lemma ScanBoundaries(s: string, p: int)
    ensures forall k, q :: 0 <= k < |FindAll(s, 0)| && FindAll(s, 0)[k].start < q < FindAll(s, 0)[k].end ==>
      !MarkerAt(s, q)
    ensures MarkerAt(s, p) && MatchAt(s, p).None? ==> !Covers(FindAll(s, 0), p)
  {
    var r := FindAll(s, 0);
    FindAllMatches(s, 0);
    forall k, q | 0 <= k < |r| && r[k].start < q < r[k].end
      ensures !MarkerAt(s, q)
    {
      NoMarkerInsideMatch(s, r[k], q);
    }
    if MarkerAt(s, p) && MatchAt(s, p).None? {
      forall k | 0 <= k < |r|
        ensures !(r[k].start <= p < r[k].end)
      {
        if r[k].start == p {
          MatchAtFindsValidMatch(s, r[k]);
        }
      }
    }
  }

  /**
   The text from a `Day <digits>` without a separator up to the next
   `Day <digit>` lies in no match, so it belongs to no event.
   */
  lemma OrphanTextUncovered(s: string, p: nat, q: nat)
    requires MarkerAt(s, p) && MatchAt(s, p).None?
    requires p <= q < |s| && forall x :: p < x <= q ==> !MarkerAt(s, x)
    ensures !Covers(FindAll(s, 0), q)
  {
    var r := FindAll(s, 0);
    ScanBoundaries(s, p);
    FindAllMatches(s, 0);
    forall k | 0 <= k < |r|
      ensures !(r[k].start <= q < r[k].end)
    {
      assert MarkerAt(s, r[k].start);
      if r[k].start <= p {
        assert !(r[k].start <= p < r[k].end);
      }
    }
  }

  /** Every position that admits a match has that match among the ones `findall` reports. */
  lemma EveryMatchReported(s: string, p: nat)
    requires p < |s| && MatchAt(s, p).Some?
    ensures exists k :: 0 <= k < |FindAll(s, 0)| && FindAll(s, 0)[k] == MatchAt(s, p).value
  {
    var m := MatchAt(s, p).value;
    var r := FindAll(s, 0);
    FindAllMatches(s, 0);
    assert Covers(r, p) by {
      if !Covers(r, p) {
        FindAllCompleteAt(s, 0, p);
      }
    }
    var k :| 0 <= k < |r| && r[k].start <= p < r[k].end;
    assert ValidMatch(s, r[k]) && ValidMatch(s, m) && m.start == p;
    if r[k].start < p {
      NoMarkerInsideMatch(s, r[k], p);
    } else {
      MatchDeterminedByStart(s, r[k], m);
    }
  }
}
