/**
 What `generate_ics_content` (app.py) promises about the calendar it builds,
 stated over all itinerary texts and start dates.
 */
module ItineraryProperties {
  import opened Wrappers
  import opened Text
  import opened DayScan
  import opened IcsExport

  /**
   The single "Travel Itinerary" event holding the whole text is produced
   exactly when no position of the text starts a day marker.
   */
  lemma FallbackIffNoMarker(text: string, start: Ordinal)
    ensures GenerateIcs(text, start) == Success(FallbackCalendar(text, start))
      <==> forall p :: 0 <= p < |text| ==> MatchAt(text, p).None?
  {
    EmptyScanIffNoMatch(text);
    ScanNumerals(text);
    var ms := FindAll(text, 0);
    if ms != [] {
      var r := DayEvents(ms, start);
      if r.Success? {
        assert r.value[0].summary == DaySummary(DayNumber(ms[0]));
        assert DaySummary(DayNumber(ms[0]))[0] == 'D';
        assert FallbackSummary[0] == 'T';
        assert r.value[0] != FallbackCalendar(text, start).events[0];
      }
    }
  }

  /**
   With k >= 1 markers the calendar holds exactly k events, in scan order:
   event i is titled "Day n Itinerary" where n is the captured numeral with its
   leading zeros dropped, is dated (start + int(numeral) - 1) on both ends, and
   holds the stripped body. No fallback event is added.
   */
  lemma DayEventsFollowMarkers(text: string, start: Ordinal)
    requires FindAll(text, 0) != [] && GenerateIcs(text, start).Success?
    ensures var ms, es := FindAll(text, 0), GenerateIcs(text, start).value.events;
      && AllNumerals(ms)
      && |es| == |ms|
      && forall k :: 0 <= k < |ms| ==>
        && 1 <= |ms[k].digits|
        && es[k].summary == "Day " + DropLeadingZeros(ms[k].digits) + " Itinerary"
        && es[k].dtstart == es[k].dtend == start + Value(ms[k].digits) - 1
        && es[k].description == Strip(ms[k].body)
  {
    var ms := FindAll(text, 0);
    ScanNumerals(text);
    forall k | 0 <= k < |ms|
      ensures ShowNat(Value(ms[k].digits)) == DropLeadingZeros(ms[k].digits)
    {
      ShowNatOfValue(ms[k].digits);
    }
  }

  /**
   The export fails exactly when some marker's numeral is longer than `int()`
   reads or its date falls outside the range of Python dates; it never fails
   without a marker, and it raises what the first such marker provokes.
   */
  lemma FailsIffMarkerRejected(text: string, start: Ordinal)
    ensures AllNumerals(FindAll(text, 0))
    ensures GenerateIcs(text, start).Failure? <==>
      exists k :: 0 <= k < |FindAll(text, 0)| && !Accepted(FindAll(text, 0)[k], start)
    ensures GenerateIcs(text, start).Failure? ==>
      (exists k :: 0 <= k < |FindAll(text, 0)| && FirstRejected(FindAll(text, 0), k, start) &&
        GenerateIcs(text, start).error == Rejection(FindAll(text, 0)[k], start))
  {
    ScanNumerals(text);
    var ms := FindAll(text, 0);
    var g := GenerateIcs(text, start);
    if ms == [] {
      assert g.Success?;
    } else {
      var r := DayEvents(ms, start);
      if r.Failure? {
        assert g == Failure(r.error);
        var k :| 0 <= k < |ms| && FirstRejected(ms, k, start) && r.error == Rejection(ms[k], start);
        assert !Accepted(FindAll(text, 0)[k], start);
        assert g.error == Rejection(FindAll(text, 0)[k], start);
      } else {
        assert g.Success?;
      }
    }
  }

  /** A slice of a text without `Day <digit>` has none either. */
  lemma NoMarkerInSlice(s: string, a: nat, b: nat)
    requires a <= b <= |s| && forall q :: !MarkerAt(s, q)
    ensures forall q :: !MarkerAt(s[a..b], q)
  {
    forall q | 0 <= q && q + 5 <= b - a
      ensures !MarkerAt(s[a..b], q)
    {
      assert !MarkerAt(s, a + q);
      var t := s[a..b];
      assert t[q] == s[a + q] && t[q + 1] == s[a + q + 1] && t[q + 2] == s[a + q + 2];
      assert t[q + 3] == s[a + q + 3] && t[q + 4] == s[a + q + 4];
    }
  }

  /** The description made from one match is trimmed and holds no `Day <digit>`. */
  lemma DescriptionOfMatch(s: string, m: DayMatch)
    requires ValidMatch(s, m)
    ensures Trimmed(Strip(m.body))
    ensures forall q :: !MarkerAt(Strip(m.body), q)
  {
    BodyHasNoMarker(s, m);
    StripKeepsNoMarker(m.body);
  }

  /** Stripping a text without `Day <digit>` cannot create one. */
  lemma StripKeepsNoMarker(b: string)
    requires forall q :: !MarkerAt(b, q)
    ensures forall q :: !MarkerAt(Strip(b), q)
  {
    var d := Strip(b);
    var a: nat :| StrippedAt(b, d, a);
    NoMarkerInSlice(b, a, a + |d|);
  }

  /**
   Every day event's description is trimmed and contains no `Day ` followed
   by a digit: the lazy body stops at the first such marker.
   */
  lemma DescriptionsHaveNoMarker(text: string, start: Ordinal)
    requires FindAll(text, 0) != [] && GenerateIcs(text, start).Success?
    ensures var es := GenerateIcs(text, start).value.events;
      forall k, q :: 0 <= k < |es| ==> Trimmed(es[k].description) && !MarkerAt(es[k].description, q)
  {
    var ms := FindAll(text, 0);
    FindAllMatches(text, 0);
    DayEventsFollowMarkers(text, start);
    forall k | 0 <= k < |ms|
      ensures Trimmed(Strip(ms[k].body)) && forall q :: !MarkerAt(Strip(ms[k].body), q)
    {
      DescriptionOfMatch(text, ms[k]);
    }
  }

  /**
   Markers "Day 1" ... "Day K" in that order, with the last date a Python
   date, are exported exactly when `int()` reads every numeral (only zero
   padding can make "Day 1" too long), and then the events are dated start,
   start + 1, ..., start + K - 1.
   */
  lemma ContiguousDays(text: string, start: Ordinal)
    requires FindAll(text, 0) != [] && AllNumerals(FindAll(text, 0))
    requires forall k :: 0 <= k < |FindAll(text, 0)| ==> DayNumber(FindAll(text, 0)[k]) == k + 1
    requires start + |FindAll(text, 0)| - 1 <= MaxOrdinal
    ensures GenerateIcs(text, start).Success? <==>
      forall k :: 0 <= k < |FindAll(text, 0)| ==> |FindAll(text, 0)[k].digits| <= MaxIntDigits
    ensures GenerateIcs(text, start).Success? ==> var es := GenerateIcs(text, start).value.events;
      |es| == |FindAll(text, 0)| && forall k :: 0 <= k < |es| ==> es[k].dtstart == start + k
  {
  }
}
