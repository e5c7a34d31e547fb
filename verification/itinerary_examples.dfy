/**
 Worked examples of `generate_ics_content` (app.py) on concrete itineraries:
 a two-day itinerary, a text without markers, a lower-case "day", a dash
 separator, a leading zero, out-of-order days, a repeated day, day zero, a
 marker without a separator whose text belongs to no event, and a numeral
 padded with more zeros than `int()` reads.
 */
module ItineraryExamples {
  import opened Wrappers
  import opened Text
  import opened DayScan
  import opened IcsExport

  /** One step of the scan over a position that starts a match. */
  lemma FindAllStep(s: string, m: DayMatch)
    requires m.start < |s| && ValidMatch(s, m)
    ensures FindAll(s, m.start) == [m] + FindAll(s, m.end)
  {
    MatchAtFindsValidMatch(s, m);
  }

  /** Without a capital `D` from `i` on, the scan finds nothing more. */
  lemma {:induction false} FindAllWithoutD(s: string, i: nat)
    requires i <= |s|
    requires forall p :: i <= p < |s| ==> s[p] != 'D'
    ensures FindAll(s, i) == []
    decreases |s| - i
  {
    if i < |s| {
      FindAllWithoutD(s, i + 1);
    }
  }

  lemma Summary0()
    ensures DaySummary(0) == "Day 0 Itinerary"
  {
    assert ShowNat(0) == "0";
  }

  lemma Summary1()
    ensures DaySummary(1) == "Day 1 Itinerary"
  {
    assert ShowNat(1) == "1";
  }

  lemma Summary2()
    ensures DaySummary(2) == "Day 2 Itinerary"
  {
    assert ShowNat(2) == "2";
  }

  lemma Summary3()
    ensures DaySummary(3) == "Day 3 Itinerary"
  {
    assert ShowNat(3) == "3";
  }

  /** A text already trimmed is its own `strip()`. */
  lemma StripOfTrimmed(t: string)
    requires Trimmed(t)
    ensures Strip(t) == t
  {
    assert StrippedAt(t, t, 0);
    StripUnique(t, t, 0);
  }

  /** A trimmed text followed by one whitespace character strips back to the text. */
  lemma StripOfTrailingSpace(t: string, c: char)
    requires Trimmed(t) && IsSpace(c)
    ensures Strip(t + [c]) == t
  {
    var s := t + [c];
    assert s[..0] == [] && s[0..|t|] == t && s[|t|..] == [c];
    assert StrippedAt(s, t, 0);
    StripUnique(s, t, 0);
  }

  /** The calendar for a text whose scan finds exactly one match, which the loop accepts. */
  lemma GenerateIcsOne(text: string, start: Ordinal, m: DayMatch, e: Event)
    requires FindAll(text, 0) == [m] && AllDigits(m.digits)
    requires Accepted(m, start)
    requires e.summary == DaySummary(Value(m.digits)) && e.description == Strip(m.body)
    requires e.dtstart == e.dtend == start + Value(m.digits) - 1
    ensures GenerateIcs(text, start) == Success(Calendar(ProdId, Version, [e]))
  {
    var ms := [m];
    assert DayDate(ms, 0, start) == e.dtstart;
    var r := DayEvents(ms, start);
    assert r.value[0] == e;
    assert r.value == [e];
  }

  /** The calendar for a text whose scan finds exactly two matches, both of which the loop accepts. */
  lemma GenerateIcsTwo(text: string, start: Ordinal, m1: DayMatch, m2: DayMatch, e1: Event, e2: Event)
    requires FindAll(text, 0) == [m1, m2] && AllDigits(m1.digits) && AllDigits(m2.digits)
    requires Accepted(m1, start) && Accepted(m2, start)
    requires e1.summary == DaySummary(Value(m1.digits)) && e1.description == Strip(m1.body)
    requires e1.dtstart == e1.dtend == start + Value(m1.digits) - 1
    requires e2.summary == DaySummary(Value(m2.digits)) && e2.description == Strip(m2.body)
    requires e2.dtstart == e2.dtend == start + Value(m2.digits) - 1
    ensures GenerateIcs(text, start) == Success(Calendar(ProdId, Version, [e1, e2]))
  {
    var ms := [m1, m2];
    assert DayDate(ms, 0, start) == e1.dtstart;
    assert DayDate(ms, 1, start) == e2.dtstart;
    var r := DayEvents(ms, start);
    assert r.value[0] == e1 && r.value[1] == e2;
    assert r.value == [e1, e2];
  }

  // ---------------------------------------------------------------------------
  // "Day 1: Arrive and check in.\nDay 2: City tour."
  // ---------------------------------------------------------------------------

  const Arrive: string := "Arrive and check in.\n"
  const Tour: string := "City tour."
  const TwoDays: string := "Day 1: " + Arrive + "Day 2: " + Tour

  lemma TwoDaysFirstMatch()
    ensures ValidMatch(TwoDays, DayMatch(0, 5, 7, 28, "1", Arrive))
  {
    var s := TwoDays;
    assert |s| == 45;
    assert s[7..28] == Arrive;
    forall k | 7 <= k < 28
      ensures !StopAt(s, k)
    {
      assert s[k] == Arrive[k - 7];
    }
    assert s[4..5] == "1";
    assert MarkerAt(s, 28);
  }

  lemma TwoDaysSecondMatch()
    ensures ValidMatch(TwoDays, DayMatch(28, 33, 35, 45, "2", Tour))
  {
    var s := TwoDays;
    assert |s| == 45;
    assert s[35..] == Tour;
    forall k | 35 <= k < 45
      ensures !StopAt(s, k)
    {
      assert s[k] == Tour[k - 35];
    }
    assert s[32..33] == "2";
  }

  lemma TwoDaysMatches()
    ensures FindAll(TwoDays, 0) == [DayMatch(0, 5, 7, 28, "1", Arrive), DayMatch(28, 33, 35, 45, "2", Tour)]
  {
    var m1 := DayMatch(0, 5, 7, 28, "1", Arrive);
    var m2 := DayMatch(28, 33, 35, 45, "2", Tour);
    TwoDaysFirstMatch();
    TwoDaysSecondMatch();
    FindAllStep(TwoDays, m1);
    FindAllStep(TwoDays, m2);
  }

  lemma TwoDaysEvents(text: string, start: Ordinal)
    requires FindAll(text, 0) == [DayMatch(0, 5, 7, 28, "1", Arrive), DayMatch(28, 33, 35, 45, "2", Tour)]
    requires start + 1 <= MaxOrdinal
    ensures GenerateIcs(text, start) == Success(Calendar(ProdId, Version, [
      Event("Day 1 Itinerary", "Arrive and check in.", start, start),
      Event("Day 2 Itinerary", "City tour.", start + 1, start + 1)]))
  {
    var m1 := DayMatch(0, 5, 7, 28, "1", Arrive);
    var m2 := DayMatch(28, 33, 35, 45, "2", Tour);
    assert Value(m1.digits) == 1 && Value(m2.digits) == 2;
    assert Accepted(m1, start) && Accepted(m2, start);
    Summary1();
    Summary2();
    StripOfTrailingSpace("Arrive and check in.", '\n');
    assert Arrive == "Arrive and check in." + ['\n'];
    StripOfTrimmed("City tour.");
    GenerateIcsTwo(text, start, m1, m2,
      Event("Day 1 Itinerary", "Arrive and check in.", start, start),
      Event("Day 2 Itinerary", "City tour.", start + 1, start + 1));
  }

  /** Two day markers give two events on consecutive days, with the bodies stripped. */
  lemma TwoDaysExample(start: Ordinal)
    requires start + 1 <= MaxOrdinal
    ensures GenerateIcs(TwoDays, start) == Success(Calendar(ProdId, Version, [
      Event("Day 1 Itinerary", "Arrive and check in.", start, start),
      Event("Day 2 Itinerary", "City tour.", start + 1, start + 1)]))
  {
    TwoDaysMatches();
    TwoDaysEvents(TwoDays, start);
  }

  // ---------------------------------------------------------------------------
  // Texts without a day marker
  // ---------------------------------------------------------------------------

  /** A text with no day structure becomes one "Travel Itinerary" event holding it verbatim. */
  lemma NoPlanExample(start: Ordinal)
    ensures GenerateIcs("Just relax, no fixed plan.", start) == Success(Calendar(ProdId, Version, [
      Event("Travel Itinerary", "Just relax, no fixed plan.", start, start)]))
  {
    var s := "Just relax, no fixed plan.";
    forall p | 0 <= p < |s|
      ensures s[p] != 'D'
    {
    }
    FindAllWithoutD(s, 0);
  }

  /** "Day" is matched case-sensitively: "day 1:" is not a marker. */
  lemma LowerCaseDayExample(start: Ordinal)
    ensures GenerateIcs("day 1: rest", start) == Success(Calendar(ProdId, Version, [
      Event("Travel Itinerary", "day 1: rest", start, start)]))
  {
    var s := "day 1: rest";
    forall p | 0 <= p < |s|
      ensures s[p] != 'D'
    {
    }
    FindAllWithoutD(s, 0);
  }

  /** A dash is not a separator: "Day 1- rest" has no marker. */
  lemma DashSeparatorExample(start: Ordinal)
    ensures GenerateIcs("Day 1- rest", start) == Success(Calendar(ProdId, Version, [
      Event("Travel Itinerary", "Day 1- rest", start, start)]))
  {
    var s := "Day 1- rest";
    assert DigitRunEnd(s, 4) == 5;
    assert MatchAt(s, 0) == None;
    forall p | 1 <= p < |s|
      ensures s[p] != 'D'
    {
    }
    FindAllWithoutD(s, 1);
  }

  // ---------------------------------------------------------------------------
  // Day numbers come from the captured numeral, not from the position
  // ---------------------------------------------------------------------------

  lemma LeadingZeroMatches()
    ensures FindAll("Day 01: Arrive", 0) == [DayMatch(0, 6, 8, 14, "01", "Arrive")]
  {
    var s := "Day 01: Arrive";
    var m := DayMatch(0, 6, 8, 14, "01", "Arrive");
    forall k | 8 <= k < 14
      ensures !StopAt(s, k)
    {
    }
    assert s[4..6] == "01";
    assert s[8..14] == "Arrive";
    assert ValidMatch(s, m);
    FindAllStep(s, m);
  }

  lemma LeadingZeroEvents(text: string, start: Ordinal)
    requires FindAll(text, 0) == [DayMatch(0, 6, 8, 14, "01", "Arrive")]
    ensures GenerateIcs(text, start) == Success(Calendar(ProdId, Version, [
      Event("Day 1 Itinerary", "Arrive", start, start)]))
  {
    assert Value("01") == 1;
    Summary1();
    StripOfTrimmed("Arrive");
    GenerateIcsOne(text, start, DayMatch(0, 6, 8, 14, "01", "Arrive"), Event("Day 1 Itinerary", "Arrive", start, start));
  }

  /** "Day 01" is titled "Day 1 Itinerary": int() drops the leading zero. */
  lemma LeadingZeroExample(start: Ordinal)
    ensures GenerateIcs("Day 01: Arrive", start) == Success(Calendar(ProdId, Version, [
      Event("Day 1 Itinerary", "Arrive", start, start)]))
  {
    LeadingZeroMatches();
    LeadingZeroEvents("Day 01: Arrive", start);
  }

  const Museum: string := "Museum\n"
  const OutOfOrder: string := "Day 3: " + Museum + "Day 1: Arrive"

  lemma OutOfOrderFirstMatch()
    ensures ValidMatch(OutOfOrder, DayMatch(0, 5, 7, 14, "3", Museum))
  {
    var s := OutOfOrder;
    assert |s| == 27;
    assert s[7..14] == Museum;
    forall k | 7 <= k < 14
      ensures !StopAt(s, k)
    {
      assert s[k] == Museum[k - 7];
    }
    assert s[4..5] == "3";
    assert MarkerAt(s, 14);
  }

  lemma OutOfOrderSecondMatch()
    ensures ValidMatch(OutOfOrder, DayMatch(14, 19, 21, 27, "1", "Arrive"))
  {
    var s := OutOfOrder;
    assert |s| == 27;
    assert s[21..] == "Arrive";
    forall k | 21 <= k < 27
      ensures !StopAt(s, k)
    {
      assert s[k] == "Arrive"[k - 21];
    }
    assert s[18..19] == "1";
  }

  lemma OutOfOrderMatches()
    ensures FindAll(OutOfOrder, 0) == [DayMatch(0, 5, 7, 14, "3", Museum), DayMatch(14, 19, 21, 27, "1", "Arrive")]
  {
    var m1 := DayMatch(0, 5, 7, 14, "3", Museum);
    var m2 := DayMatch(14, 19, 21, 27, "1", "Arrive");
    OutOfOrderFirstMatch();
    OutOfOrderSecondMatch();
    FindAllStep(OutOfOrder, m1);
    FindAllStep(OutOfOrder, m2);
  }

  lemma OutOfOrderEvents(text: string, start: Ordinal)
    requires FindAll(text, 0) == [DayMatch(0, 5, 7, 14, "3", Museum), DayMatch(14, 19, 21, 27, "1", "Arrive")]
    requires start + 2 <= MaxOrdinal
    ensures GenerateIcs(text, start) == Success(Calendar(ProdId, Version, [
      Event("Day 3 Itinerary", "Museum", start + 2, start + 2),
      Event("Day 1 Itinerary", "Arrive", start, start)]))
  {
    var m1 := DayMatch(0, 5, 7, 14, "3", Museum);
    var m2 := DayMatch(14, 19, 21, 27, "1", "Arrive");
    assert Value(m1.digits) == 3 && Value(m2.digits) == 1;
    assert Accepted(m1, start) && Accepted(m2, start);
    Summary3();
    Summary1();
    StripOfTrailingSpace("Museum", '\n');
    StripOfTrimmed("Arrive");
    GenerateIcsTwo(text, start, m1, m2,
      Event("Day 3 Itinerary", "Museum", start + 2, start + 2),
      Event("Day 1 Itinerary", "Arrive", start, start));
  }

  /** Markers "Day 3" then "Day 1" give events dated start + 2 then start, in that order. */
  lemma OutOfOrderExample(start: Ordinal)
    requires start + 2 <= MaxOrdinal
    ensures GenerateIcs(OutOfOrder, start) == Success(Calendar(ProdId, Version, [
      Event("Day 3 Itinerary", "Museum", start + 2, start + 2),
      Event("Day 1 Itinerary", "Arrive", start, start)]))
  {
    OutOfOrderMatches();
    OutOfOrderEvents(OutOfOrder, start);
  }

  const Hike: string := "Hike\n"
  const Duplicate: string := "Day 2: " + Hike + "Day 2: Swim"

  lemma DuplicateFirstMatch()
    ensures ValidMatch(Duplicate, DayMatch(0, 5, 7, 12, "2", Hike))
  {
    var s := Duplicate;
    assert |s| == 23;
    assert s[7..12] == Hike;
    forall k | 7 <= k < 12
      ensures !StopAt(s, k)
    {
      assert s[k] == Hike[k - 7];
    }
    assert s[4..5] == "2";
    assert MarkerAt(s, 12);
  }

  lemma DuplicateSecondMatch()
    ensures ValidMatch(Duplicate, DayMatch(12, 17, 19, 23, "2", "Swim"))
  {
    var s := Duplicate;
    assert |s| == 23;
    assert s[19..] == "Swim";
    forall k | 19 <= k < 23
      ensures !StopAt(s, k)
    {
      assert s[k] == "Swim"[k - 19];
    }
    assert s[16..17] == "2";
  }

  lemma DuplicateMatches()
    ensures FindAll(Duplicate, 0) == [DayMatch(0, 5, 7, 12, "2", Hike), DayMatch(12, 17, 19, 23, "2", "Swim")]
  {
    var m1 := DayMatch(0, 5, 7, 12, "2", Hike);
    var m2 := DayMatch(12, 17, 19, 23, "2", "Swim");
    DuplicateFirstMatch();
    DuplicateSecondMatch();
    FindAllStep(Duplicate, m1);
    FindAllStep(Duplicate, m2);
  }

  lemma DuplicateEvents(text: string, start: Ordinal)
    requires FindAll(text, 0) == [DayMatch(0, 5, 7, 12, "2", Hike), DayMatch(12, 17, 19, 23, "2", "Swim")]
    requires start + 1 <= MaxOrdinal
    ensures GenerateIcs(text, start) == Success(Calendar(ProdId, Version, [
      Event("Day 2 Itinerary", "Hike", start + 1, start + 1),
      Event("Day 2 Itinerary", "Swim", start + 1, start + 1)]))
  {
    var m1 := DayMatch(0, 5, 7, 12, "2", Hike);
    var m2 := DayMatch(12, 17, 19, 23, "2", "Swim");
    assert Value(m1.digits) == 2 && Value(m2.digits) == 2;
    assert Accepted(m1, start) && Accepted(m2, start);
    Summary2();
    StripOfTrailingSpace("Hike", '\n');
    assert Hike == "Hike" + ['\n'];
    StripOfTrimmed("Swim");
    GenerateIcsTwo(text, start, m1, m2,
      Event("Day 2 Itinerary", "Hike", start + 1, start + 1),
      Event("Day 2 Itinerary", "Swim", start + 1, start + 1));
  }

  /** A repeated "Day 2" gives two events, both dated start + 1: numbers pass through as written. */
  lemma DuplicateExample(start: Ordinal)
    requires start + 1 <= MaxOrdinal
    ensures GenerateIcs(Duplicate, start) == Success(Calendar(ProdId, Version, [
      Event("Day 2 Itinerary", "Hike", start + 1, start + 1),
      Event("Day 2 Itinerary", "Swim", start + 1, start + 1)]))
  {
    DuplicateMatches();
    DuplicateEvents(Duplicate, start);
  }

  lemma DayZeroMatches()
    ensures FindAll("Day 0: Pack", 0) == [DayMatch(0, 5, 7, 11, "0", "Pack")]
  {
    var s := "Day 0: Pack";
    var m := DayMatch(0, 5, 7, 11, "0", "Pack");
    forall k | 7 <= k < 11
      ensures !StopAt(s, k)
    {
    }
    assert s[4..5] == "0";
    assert s[7..11] == "Pack";
    assert ValidMatch(s, m);
    FindAllStep(s, m);
  }

  lemma DayZeroEvents(text: string, start: Ordinal)
    requires FindAll(text, 0) == [DayMatch(0, 5, 7, 11, "0", "Pack")]
    ensures start > MinOrdinal ==> GenerateIcs(text, start) == Success(Calendar(ProdId, Version, [
      Event("Day 0 Itinerary", "Pack", start - 1, start - 1)]))
    ensures start == MinOrdinal ==> GenerateIcs(text, start) == Failure(DateOutOfRange(0))
  {
    assert Value("0") == 0;
    if start > MinOrdinal {
      Summary0();
      StripOfTrimmed("Pack");
      GenerateIcsOne(text, start, DayMatch(0, 5, 7, 11, "0", "Pack"), Event("Day 0 Itinerary", "Pack", start - 1, start - 1));
    } else {
      assert FirstRejected(FindAll(text, 0), 0, start);
    }
  }

  /**
   "Day 0" is dated the day before the start; on the first Python date that
   date does not exist and the export raises.
   */
  lemma DayZeroExample(start: Ordinal)
    ensures start > MinOrdinal ==> GenerateIcs("Day 0: Pack", start) == Success(Calendar(ProdId, Version, [
      Event("Day 0 Itinerary", "Pack", start - 1, start - 1)]))
    ensures start == MinOrdinal ==> GenerateIcs("Day 0: Pack", start) == Failure(DateOutOfRange(0))
  {
    DayZeroMatches();
    DayZeroEvents("Day 0: Pack", start);
  }

  // ---------------------------------------------------------------------------
  // A marker without a separator
  // ---------------------------------------------------------------------------

  const Walk: string := "Walk "
  const Orphan: string := "Day 1: " + Walk + "Day 3x dinner"

  lemma OrphanFirstMatch()
    ensures ValidMatch(Orphan, DayMatch(0, 5, 7, 12, "1", Walk))
  {
    var s := Orphan;
    assert |s| == 25;
    assert s[7..12] == Walk;
    forall k | 7 <= k < 12
      ensures !StopAt(s, k)
    {
      assert s[k] == Walk[k - 7];
    }
    assert s[4..5] == "1";
    assert MarkerAt(s, 12);
  }

  /** "Day 3x" has no separator after its digits, and no capital `D` follows it. */
  lemma OrphanTail()
    ensures FindAll(Orphan, 12) == []
  {
    var s := Orphan;
    assert |s| == 25;
    assert s[12..] == "Day 3x dinner";
    assert s[16] == '3' && s[17] == 'x';
    assert DigitRunEnd(s, 16) == 17;
    assert MatchAt(s, 12) == None;
    forall p | 13 <= p < |s|
      ensures s[p] != 'D'
    {
      assert s[p] == "Day 3x dinner"[p - 12];
    }
    FindAllWithoutD(s, 13);
  }

  lemma OrphanMatches()
    ensures FindAll(Orphan, 0) == [DayMatch(0, 5, 7, 12, "1", Walk)]
  {
    var m := DayMatch(0, 5, 7, 12, "1", Walk);
    OrphanFirstMatch();
    FindAllStep(Orphan, m);
    OrphanTail();
  }

  lemma OrphanEvents(text: string, start: Ordinal)
    requires FindAll(text, 0) == [DayMatch(0, 5, 7, 12, "1", Walk)]
    ensures GenerateIcs(text, start) == Success(Calendar(ProdId, Version, [
      Event("Day 1 Itinerary", "Walk", start, start)]))
  {
    assert Value("1") == 1;
    Summary1();
    StripOfTrailingSpace("Walk", ' ');
    GenerateIcsOne(text, start, DayMatch(0, 5, 7, 12, "1", Walk), Event("Day 1 Itinerary", "Walk", start, start));
  }

  /** The body stops at "Day 3", which lacks a separator, so "Day 3x dinner" belongs to no event. */
  lemma OrphanExample(start: Ordinal)
    ensures GenerateIcs(Orphan, start) == Success(Calendar(ProdId, Version, [
      Event("Day 1 Itinerary", "Walk", start, start)]))
  {
    OrphanMatches();
    OrphanEvents(Orphan, start);
  }

  // ---------------------------------------------------------------------------
  // "Day " + z zeros + "1: x"
  // ---------------------------------------------------------------------------

  function Zeros(z: nat): (r: string)
    ensures |r| == z && forall k :: 0 <= k < z ==> r[k] == '0'
  {
    if z == 0 then [] else ['0'] + Zeros(z - 1)
  }

  /** Day one written with `z` leading zeros. */
  function PaddedOne(z: nat): string {
    Zeros(z) + "1"
  }

  function PaddedDayOne(z: nat): string {
    "Day " + PaddedOne(z) + ": x"
  }

  /** However many zeros pad it, the numeral still reads as one. */
  lemma {:induction false} ValueOfPaddedOne(z: nat)
    ensures AllDigits(PaddedOne(z)) && Value(PaddedOne(z)) == 1
  {
    if z == 0 {
      assert PaddedOne(0) == "1";
    } else {
      ValueOfPaddedOne(z - 1);
      assert PaddedOne(z) == ['0'] + PaddedOne(z - 1);
      ValueLeadingZero(PaddedOne(z - 1));
    }
  }

  lemma PaddedDayOneMatches(z: nat)
    ensures FindAll(PaddedDayOne(z), 0) == [DayMatch(0, z + 5, z + 7, z + 8, PaddedOne(z), "x")]
  {
    var s := PaddedDayOne(z);
    var m := DayMatch(0, z + 5, z + 7, z + 8, PaddedOne(z), "x");
    assert |s| == z + 8;
    assert s[z + 4] == '1' && s[z + 5] == ':' && s[z + 6] == ' ' && s[z + 7] == 'x';
    forall k | 4 <= k < z + 5
      ensures IsDigit(s[k])
    {
      assert s[k] == PaddedOne(z)[k - 4];
    }
    assert s[4..z + 5] == PaddedOne(z);
    assert s[z + 7..z + 8] == "x";
    assert !StopAt(s, z + 7);
    assert ValidMatch(s, m);
    FindAllStep(s, m);
  }

  /**
   `int()`'s digit limit counts the padding: "Day 0…01" dates its event on
   the start day while the numeral has at most 4300 digits, and one zero
   more makes the export raise although the day number is still one.
   */
  lemma PaddedDayOneExample(z: nat, start: Ordinal)
    ensures z + 1 <= MaxIntDigits ==> GenerateIcs(PaddedDayOne(z), start) == Success(Calendar(ProdId, Version, [
      Event("Day 1 Itinerary", "x", start, start)]))
    ensures z + 1 > MaxIntDigits ==> GenerateIcs(PaddedDayOne(z), start) == Failure(NumeralTooLong(PaddedOne(z)))
  {
    var m := DayMatch(0, z + 5, z + 7, z + 8, PaddedOne(z), "x");
    PaddedDayOneMatches(z);
    ValueOfPaddedOne(z);
    if z + 1 <= MaxIntDigits {
      Summary1();
      StripOfTrimmed("x");
      GenerateIcsOne(PaddedDayOne(z), start, m, Event("Day 1 Itinerary", "x", start, start));
    } else {
      assert FirstRejected([m], 0, start);
    }
  }
}
