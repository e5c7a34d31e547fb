/**
 The calendar exporter `generate_ics_content` (app.py): the calendar it builds
 for an itinerary text and a start date. Dates are proleptic Gregorian day
 ordinals, as Python's `date.toordinal()` numbers them; the start is midnight
 of the chosen day, so adding whole days is exact.
 */
module IcsExport {
  import opened Wrappers
  import opened Text
  import opened DayScan

  /** `date.min` (0001-01-01) and `date.max` (9999-12-31) as ordinals. */
  const MinOrdinal: int := 1
  const MaxOrdinal: int := 3652059

  type Ordinal = d: int | MinOrdinal <= d <= MaxOrdinal witness MinOrdinal

  /** `d` is the ordinal of a Python date: the test `Ordinal` makes, for an unconstrained `int`. */
  predicate InRange(d: int) {
    MinOrdinal <= d <= MaxOrdinal
  }

  /** PRODID (section 3.7.3 of RFC 5545) and VERSION (section 3.7.4) of every exported calendar. */
  const ProdId: string := "-//AI Travel Planner//github.com//"
  const Version: string := "2.0"

  /** Title of the single event made when the text has no day markers. */
  const FallbackSummary: string := "Travel Itinerary"

  /**
   An all-day VEVENT (section 3.6.1 of RFC 5545) as the exporter fills it in; DTSTAMP is left out.
   The exporter sets DTEND equal to DTSTART, although section 3.8.2.2 of RFC 5545 makes a
   date-valued DTEND exclusive and so later than DTSTART.
   */
  datatype Event = Event(summary: string, description: string, dtstart: Ordinal, dtend: Ordinal)

  /** The VCALENDAR object: PRODID, VERSION and the events in the order they were added. */
  datatype Calendar = Calendar(prodid: string, version: string, events: seq<Event>)

  /** The calendar made when the text has no day marker: one event on the start day holding the whole text. */
  function FallbackCalendar(text: string, start: Ordinal): Calendar {
    Calendar(ProdId, Version, [Event(FallbackSummary, text, start, start)])
  }

  /**
   `int()` refuses a decimal numeral of more than this many digits, leading
   zeros included (`sys.get_int_max_str_digits()`, default 4300), with `ValueError`.
   */
  const MaxIntDigits: nat := 4300

  /** Why the export raised. */
  datatype ExportError =
    | NumeralTooLong(numeral: string)  // `int(day_num)` raised `ValueError`
    | DateOutOfRange(day: nat)         // `start + timedelta(days=n - 1)` raised `OverflowError`

  /** Title of the event for day `n`: `f"Day {n} Itinerary"` with `n = int(digits)`. */
  function DaySummary(n: nat): string {
    "Day " + ShowNat(n) + " Itinerary"
  }

  /** The captured day number, `int(day_num)`. */
  function DayNumber(m: DayMatch): nat
    requires AllDigits(m.digits)
  {
    Value(m.digits)
  }

  predicate AllNumerals(ms: seq<DayMatch>) {
    forall k :: 0 <= k < |ms| ==> AllDigits(ms[k].digits)
  }

  /** The date of match `k`: the start shifted by its captured day number less one. */
  function DayDate(ms: seq<DayMatch>, k: nat, start: Ordinal): int
    requires k < |ms| && AllNumerals(ms)
  {
    start + DayNumber(ms[k]) - 1
  }

  /** The loop body gets through match `m`: `int()` reads its numeral and its date is a Python date. */
  predicate Accepted(m: DayMatch, start: Ordinal)
    requires AllDigits(m.digits)
  {
    |m.digits| <= MaxIntDigits && InRange(start + DayNumber(m) - 1)
  }

  /** What the loop body raises on a match it does not accept: `int()` runs before the date arithmetic. */
  function Rejection(m: DayMatch, start: Ordinal): ExportError
    requires AllDigits(m.digits)
  {
    if |m.digits| > MaxIntDigits then NumeralTooLong(m.digits) else DateOutOfRange(DayNumber(m))
  }

  /** Match `k` is the first the loop does not accept. */
  predicate FirstRejected(ms: seq<DayMatch>, k: nat, start: Ordinal)
    requires k < |ms| && AllNumerals(ms)
  {
    && !Accepted(ms[k], start)
    && forall j :: 0 <= j < k ==> Accepted(ms[j], start)
  }

  /**
   The loop over the matches: one all-day event per match, in scan order;
   the first match whose numeral `int()` refuses, or whose date leaves the
   range of Python dates, aborts the whole export with that exception.
   */
  function DayEvents(ms: seq<DayMatch>, start: Ordinal): (r: Result<seq<Event>, ExportError>)
    requires AllNumerals(ms)
    ensures r.Success? <==> forall k :: 0 <= k < |ms| ==> Accepted(ms[k], start)
    ensures r.Success? ==> |r.value| == |ms|
    ensures r.Success? ==> forall k :: 0 <= k < |ms| ==>
      && r.value[k].summary == DaySummary(DayNumber(ms[k]))
      && r.value[k].description == Strip(ms[k].body)
      && r.value[k].dtstart == r.value[k].dtend == DayDate(ms, k, start)
    ensures r.Failure? ==>
      exists k :: 0 <= k < |ms| && FirstRejected(ms, k, start) && r.error == Rejection(ms[k], start)
  {
    if |ms| == 0 then Success([])
    else if !Accepted(ms[0], start) then
      assert FirstRejected(ms, 0, start);
      Failure(Rejection(ms[0], start))
    else
      var n := DayNumber(ms[0]);
      var d := start + n - 1;
      var e := Event(DaySummary(n), Strip(ms[0].body), d, d);
      TailNumerals(ms);
      match DayEvents(ms[1..], start)
      case Failure(err) =>
        var j :| 0 <= j < |ms[1..]| && FirstRejected(ms[1..], j, start) && err == Rejection(ms[1..][j], start);
        FirstRejectedShift(ms, j, start);
        Failure(err)
      case Success(es) =>
        AcceptedShift(ms, start);
        EventsShift(ms, start, e, es);
        Success([e] + es)
  }

  /** The matches after the first are the tail's, one position earlier. */
  lemma TailNumerals(ms: seq<DayMatch>)
    requires 1 <= |ms| && AllNumerals(ms)
    ensures AllNumerals(ms[1..])
    ensures forall k :: 1 <= k < |ms| ==> ms[1..][k - 1] == ms[k]
  {
  }

  /** Dates of the matches after the first are the dates of the tail. */
  lemma DayDateShift(ms: seq<DayMatch>, start: Ordinal)
    requires 1 <= |ms| && AllNumerals(ms)
    ensures AllNumerals(ms[1..])
    ensures forall k :: 1 <= k < |ms| ==> DayDate(ms, k, start) == DayDate(ms[1..], k - 1, start)
  {
    TailNumerals(ms);
  }

  /** The first rejected match of the tail is the first of the whole when the head is accepted. */
  lemma FirstRejectedShift(ms: seq<DayMatch>, j: nat, start: Ordinal)
    requires 1 <= |ms| && AllNumerals(ms) && j + 1 < |ms|
    requires Accepted(ms[0], start)
    requires AllNumerals(ms[1..]) && FirstRejected(ms[1..], j, start)
    ensures FirstRejected(ms, j + 1, start) && ms[1..][j] == ms[j + 1]
  {
    TailNumerals(ms);
    forall i | 1 <= i < j + 1
      ensures Accepted(ms[i], start)
    {
      assert ms[i] == ms[1..][i - 1];
    }
  }

  /** The head accepted and every match of the tail accepted: every match is accepted. */
  lemma AcceptedShift(ms: seq<DayMatch>, start: Ordinal)
    requires 1 <= |ms| && AllNumerals(ms) && Accepted(ms[0], start)
    requires AllNumerals(ms[1..]) && forall k :: 0 <= k < |ms| - 1 ==> Accepted(ms[1..][k], start)
    ensures forall k :: 0 <= k < |ms| ==> Accepted(ms[k], start)
  {
    TailNumerals(ms);
    forall k | 1 <= k < |ms|
      ensures Accepted(ms[k], start)
    {
      assert Accepted(ms[1..][k - 1], start);
    }
  }

  /** Event `k - 1` of the tail, built from match `k - 1` of the tail, is event `k` of the whole for match `k`. */
  lemma EventShiftAt(ms: seq<DayMatch>, start: Ordinal, e: Event, es: seq<Event>, k: nat)
    requires 1 <= k < |ms| && AllNumerals(ms) && AllNumerals(ms[1..]) && |es| == |ms| - 1
    requires es[k - 1].summary == DaySummary(DayNumber(ms[1..][k - 1]))
    requires es[k - 1].description == Strip(ms[1..][k - 1].body)
    requires es[k - 1].dtstart == es[k - 1].dtend == DayDate(ms[1..], k - 1, start)
    ensures ([e] + es)[k].summary == DaySummary(DayNumber(ms[k]))
    ensures ([e] + es)[k].description == Strip(ms[k].body)
    ensures ([e] + es)[k].dtstart == ([e] + es)[k].dtend == DayDate(ms, k, start)
  {
    assert ([e] + es)[k] == es[k - 1];
    assert ms[1..][k - 1] == ms[k];
  }

  /** Putting the head's event in front of the tail's events keeps the pointwise correspondence. */
  lemma EventsShift(ms: seq<DayMatch>, start: Ordinal, e: Event, es: seq<Event>)
    requires 1 <= |ms| && AllNumerals(ms) && AllNumerals(ms[1..])
    requires e.summary == DaySummary(DayNumber(ms[0])) && e.description == Strip(ms[0].body)
    requires e.dtstart == e.dtend == DayDate(ms, 0, start)
    requires |es| == |ms| - 1
    requires forall k :: 0 <= k < |ms| - 1 ==>
      && es[k].summary == DaySummary(DayNumber(ms[1..][k]))
      && es[k].description == Strip(ms[1..][k].body)
      && es[k].dtstart == es[k].dtend == DayDate(ms[1..], k, start)
    ensures forall k :: 0 <= k < |ms| ==>
      && ([e] + es)[k].summary == DaySummary(DayNumber(ms[k]))
      && ([e] + es)[k].description == Strip(ms[k].body)
      && ([e] + es)[k].dtstart == ([e] + es)[k].dtend == DayDate(ms, k, start)
  {
    forall k | 0 <= k < |ms|
      ensures ([e] + es)[k].summary == DaySummary(DayNumber(ms[k]))
      ensures ([e] + es)[k].description == Strip(ms[k].body)
      ensures ([e] + es)[k].dtstart == ([e] + es)[k].dtend == DayDate(ms, k, start)
    {
      if k == 0 {
        assert ([e] + es)[0] == e;
      } else {
        EventShiftAt(ms, start, e, es, k);
      }
    }
  }

  /** Every match the scan reports captured a non-empty numeral. */
  lemma ScanNumerals(s: string)
    ensures AllNumerals(FindAll(s, 0))
    ensures forall k :: 0 <= k < |FindAll(s, 0)| ==> 1 <= |FindAll(s, 0)[k].digits|
  {
    FindAllMatches(s, 0);
  }

  /**
   `generate_ics_content(plan_text, start_date)`: with no day marker, one
   "Travel Itinerary" event on the start date holding the whole text;
   otherwise one event per marker.
   */
  function GenerateIcs(text: string, start: Ordinal): (r: Result<Calendar, ExportError>)
    ensures r.Success? ==> r.value.prodid == ProdId && r.value.version == Version
    ensures r.Success? ==> 1 <= |r.value.events|
    ensures FindAll(text, 0) == [] ==> r == Success(FallbackCalendar(text, start))
    ensures FindAll(text, 0) != [] ==> AllNumerals(FindAll(text, 0))
    ensures FindAll(text, 0) != [] ==> match DayEvents(FindAll(text, 0), start)
      case Success(es) => r == Success(Calendar(ProdId, Version, es))
      case Failure(err) => r == Failure(err)
  {
    var days := FindAll(text, 0);
    ScanNumerals(text);
    if |days| == 0 then
      Success(FallbackCalendar(text, start))
    else
      match DayEvents(days, start)
      case Failure(err) => Failure(err)
      case Success(es) => Success(Calendar(ProdId, Version, es))
  }
}
