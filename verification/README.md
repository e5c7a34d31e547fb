# AI travel planner: itinerary calendar export, preference combination, tool-status detection

This project is a Dafny model of the deterministic core of the AI travel planner's Streamlit
application (`app.py`).

**Calendar export.** `generate_ics_content` turns the agent's itinerary text and a start date
into an iCalendar object.
- A pattern scan finds every `Day <digits>` that is followed by `:` or whitespace; each such
  marker's body runs up to the next `Day <digit>`, or to the end of the text or just before a
  newline that ends it (`$` without MULTILINE). The scan is
  `re.compile(r'Day (\d+)[:\s]+(.*?)(?=Day \d+|$)', re.DOTALL).findall`.
- Each marker becomes one all-day event:
  - it is titled `Day <int(n)> Itinerary`;
  - it is dated `start + (int(n) - 1)` days on both DTSTART and DTEND. Section 3.8.2.2 of
    RFC 5545 makes a date-valued DTEND exclusive, so it must come after DTSTART; the exported
    one-day events, like the fallback event, therefore do not conform. The model keeps this
    behaviour as written;
  - its description is the stripped body text that follows the marker.
- A text with no marker becomes a single event titled "Travel Itinerary". It is dated on the
  start day and holds the whole text.

**Preference combination.** The planner form combines the free-text preference box and the
twelve quick-preference options into the preference string it sends to the agent. It then
checks the destination and the preferences before calling the agent.

**Tool-status detection.** After the agent answers, the form decides which tool servers were
used by keyword search on the lower-cased response. The servers are flight search, Airbnb and
Google Maps.

Modules:

- `Wrappers`: `Option` and `Result`.
- `Text`: the pieces of Python's string library the core uses:
  - `\d` and `\s`;
  - `int()` on a digit string and `str()` on a number;
  - `str.strip()` and `str.lower()`;
  - the substring test `t in s`;
  - `sep.join(xs)`.
- `DayScan`: the pattern and `findall`, written out as an explicit left-to-right scan.
  - Each match is recorded as a `DayMatch`, holding the marker position, the captured numeral,
    the separators and the body.
  - `ValidMatch` says what makes such a record the match Python's engine returns.
- `IcsExport`: the calendar export.
  - Dates are proleptic Gregorian ordinals, the numbering Python's `date.toordinal()` uses,
    bounded by `date.min` and `date.max`.
- `ItineraryProperties`: properties of the export over all texts and start dates.
- `ItineraryExamples`: the export on concrete itineraries.
- `Preferences`: the combined preference string and the checks made when "Generate Itinerary"
  is pressed.
- `ToolStatus`: detection of the tool servers used.

The export can raise, and the model returns the exception as a `Failure`.
- `int(day_num)` (app.py:79) raises `ValueError` on a numeral of more than 4300 digits,
  leading zeros included (CPython's default `sys.get_int_max_str_digits()`). The model returns
  `Failure(NumeralTooLong(numeral))`.
- `start_date + timedelta(days=day_num - 1)` (app.py:80) raises `OverflowError` when the date
  leaves Python's date range, as for "Day 0" on 0001-01-01 or "Day 99999999". The model returns
  `Failure(DateOutOfRange(n))`.
- The loop stops at the first marker that raises; `int()` runs before the date arithmetic.
  `ItineraryProperties.FailsIffMarkerRejected` proves that these are the only ways the export
  fails.

## Model

| member | source | states |
|---|---|---|
| DayScan.DigitRunEnd | app.py:65 | `\d+` takes the maximal run of digits: every character before the returned end is a digit, and the character at the end is not |
| DayScan.SeparatorRunEnd | app.py:65 | `[:\s]+` takes the maximal run of `:` and whitespace characters |
| DayScan.FirstStop | app.py:65 | the lazy `(.*?)` ends at the first position where the lookahead for `Day <digit>` or `$` holds, and at no earlier position |
| DayScan.MatchAt | app.py:65 | a match found at a position starts there and is the pattern's match: maximal digits, maximal separators, body up to the first stop |
| DayScan.MatchAtIffHeader | app.py:65 | a match exists at `i` exactly when `Day `, one or more digits and a `[:\s]` character start at `i`, so "day 1:" and "Day 1-" match nothing |
| DayScan.MatchDeterminedByStart | app.py:65 | two valid matches at the same position are equal, so the pattern allows only one match per start |
| DayScan.MatchAtFindsValidMatch | app.py:65 | any valid match at a position is exactly the one the scan reports there |
| DayScan.NoMarkerInsideMatch | app.py:65 | no `Day <digit>` lies strictly inside a match |
| DayScan.BodyHasNoMarker | app.py:65 | a captured body contains no `Day <digit>` |
| DayScan.FindAllMatches | app.py:65-66 | every match `findall` reports from position `i` on starts at or after `i` and is a valid match of the pattern |
| DayScan.FindAllOrdered | app.py:65-66 | the matches `findall` reports are in text order, and each ends no later than the next begins |
| DayScan.FindAllIsScan | app.py:65-66 | `FindAll` is `findall`: `findall` reports valid matches, in increasing order, without overlap, and misses no position outside them that admits a match |
| DayScan.EmptyScanIffNoMatch | app.py:66-68 | `findall` returns nothing exactly when no position of the text admits a match |
| DayScan.ScanBoundaries | app.py:65-66 | no `Day <digit>` lies strictly inside a reported match; a `Day <digits>` with no separator ("Day 3x") starts no match and its own position lies inside none |
| DayScan.OrphanTextUncovered | app.py:65-66 | the text from a `Day <digits>` without a separator up to the next `Day <digit>` lies in no match, so `findall` drops it and it belongs to no event |
| DayScan.EveryMatchReported | app.py:65-66 | every position where `Day <digits>` is followed by `:` or whitespace has its match among those `findall` reports |
| Text.ValueOfShowNat | app.py:79-84 | `Value` is `int()` and `ShowNat` is `str()`: `int(str(n)) == n` |
| Text.ShowNatOfValue | app.py:79-84 | `str(int(d))` is `d` with its leading zeros dropped, so "Day 01" is titled "Day 1 Itinerary" |
| Text.ShowNat | app.py:84 | `str(n)` is a non-empty digit string that starts with `0` only for zero |
| Text.DropLeadingZeros | app.py:79 | the result is canonical, is a suffix of the numeral, and everything dropped was a `0` |
| Text.Strip | app.py:85 | `strip()` returns a contiguous piece of the text with only whitespace around it, non-whitespace at both ends, and empty exactly for all-whitespace text |
| Text.StripUnique | app.py:85 | any trimmed piece of the text with only whitespace around it is the result of `strip()` |
| Text.StripIdempotent | app.py:85 | stripping twice is stripping once |
| Text.Lower | app.py:341-346 | `lower()` keeps the length, leaves no capital letter, and changes only capitals, each to its small letter |
| Text.LowerIdempotent | app.py:341-346 | lower-casing twice is lower-casing once |
| Text.Contains | app.py:341-346 | `t in s` holds exactly when `t` occurs in `s` at some offset |
| Text.JoinItemAt | app.py:309 | `Join` is `sep.join`: each item of `", ".join(items)` occurs in the joined string at its offset |
| Text.JoinSeparatorAfter | app.py:309 | every item but the last is followed by the separator, and the next item starts right after it |
| Text.JoinLength | app.py:309 | the joined string ends with the last item |
| IcsExport.DayEvents | app.py:76-91 | `DaySummary(n)` is `f"Day {n} Itinerary"`: one event per match, in order, with title, stripped description and equal start and end dates; it fails exactly when some numeral is longer than `int()` reads or some date is out of range, raising what the first such marker provokes (`ValueError` before `OverflowError`) |
| IcsExport.ScanNumerals | app.py:65-79 | every captured numeral is a non-empty digit string; `int()` parses it when it has at most 4300 digits |
| IcsExport.GenerateIcs | app.py:46-93 | PRODID and VERSION are fixed; a successful calendar holds at least one event; with no marker the result is the single fallback event holding the text; otherwise the result is the day events or their failure |
| ItineraryProperties.FallbackIffNoMarker | app.py:64-75 | the fallback calendar is produced exactly when no position of the text starts a day marker |
| ItineraryProperties.DayEventsFollowMarkers | app.py:76-91 | with markers, the calendar holds exactly one event per marker, in scan order, titled with the numeral without leading zeros and dated `start + int(n) - 1`; no fallback event is added |
| ItineraryProperties.FailsIffMarkerRejected | app.py:78-80 | the export fails exactly when some marker's numeral has more than 4300 digits or its date lies outside Python's date range, and the error is the first such marker's |
| ItineraryProperties.NoMarkerInSlice | app.py:65 | a piece of a text with no `Day <digit>` has none either |
| ItineraryProperties.DescriptionOfMatch | app.py:65-85 | the description made from a match is trimmed and holds no `Day <digit>` |
| ItineraryProperties.DescriptionsHaveNoMarker | app.py:65-85 | every day event's description is trimmed and holds no `Day <digit>` |
| ItineraryProperties.ContiguousDays | app.py:78-89 | markers "Day 1" to "Day K", in that order, with the last date in range, are exported exactly when every numeral has at most 4300 digits, and then give events on K consecutive dates from the start date |
| ItineraryExamples.TwoDaysExample | app.py:46-93 | "Day 1: Arrive and check in.\nDay 2: City tour." gives two events on consecutive days, with stripped bodies |
| ItineraryExamples.NoPlanExample | app.py:68-75 | a text without markers gives the one "Travel Itinerary" event holding the text |
| ItineraryExamples.LowerCaseDayExample | app.py:65-75 | "day 1: rest" is not a marker, so the fallback event is made |
| ItineraryExamples.DashSeparatorExample | app.py:65-75 | "Day 1- rest" is not a marker, because `-` is not a separator |
| ItineraryExamples.LeadingZeroExample | app.py:78-85 | "Day 01: Arrive" gives "Day 1 Itinerary" on the start date |
| ItineraryExamples.OutOfOrderExample | app.py:76-91 | "Day 3" followed by "Day 1" gives events dated start + 2 and then start, in text order |
| ItineraryExamples.DuplicateExample | app.py:76-91 | a repeated "Day 2" gives two events, both dated start + 1, in text order |
| ItineraryExamples.DayZeroExample | app.py:78-88 | "Day 0" is dated the day before the start, and the export fails when the start is the first Python date |
| ItineraryExamples.ValueOfPaddedOne | app.py:79 | `int()` reads "1" padded with any number of leading zeros as one |
| ItineraryExamples.PaddedDayOneExample | app.py:78-88 | "Day " + z zeros + "1: x" gives "Day 1 Itinerary" on the start date while the numeral has at most 4300 digits, and `ValueError` once it has more |
| ItineraryExamples.OrphanExample | app.py:65-91 | in "Day 1: Walk Day 3x dinner" the body stops before "Day 3", and "Day 3x dinner" belongs to no event |
| Preferences.Label | app.py:294-300 | every quick-preference option has a non-empty label |
| Preferences.Labels | app.py:306-307 | the selected options' labels, in selection order |
| Preferences.PreferenceItems | app.py:303-307 | the free text comes first when it is non-empty, then one label per selected option, in order; no item is empty |
| Preferences.CombinePreferences | app.py:303-309 | the combined string is never empty; it is "General sightseeing" when nothing was entered; otherwise it starts with the free text, or is the single label when only one option was chosen |
| Preferences.PreferencesInOrder | app.py:309 | every item occurs in the combined string at its join offset |
| Preferences.PreferencesSeparated | app.py:309 | consecutive items are separated by exactly ", " |
| Preferences.PreferencesEndWithLastItem | app.py:309 | nothing follows the last item |
| Preferences.CheckRequest | app.py:315-320 | a missing destination is reported first, then missing preferences, otherwise the agent is called |
| Preferences.SubmitForm | app.py:303-320 | with the combined preferences, the "describe your preferences" warning is never shown, and the agent is called exactly when a destination is given |
| ToolStatus.AnyTerm | app.py:341 | `any(term in s for term in terms)` holds exactly when some term occurs in `s` |
| ToolStatus.DetectServers | app.py:340-346 | flight search is reported when any flight term occurs; Airbnb when "airbnb" occurs along with "listing" or "accommodation"; Google Maps when "distance" occurs along with "maps" or "location". All tests are on the lower-cased response, and the report is always in the order flight, Airbnb, Maps |
| ToolStatus.DetectionIgnoresCase | app.py:341-346 | lower-casing the response first changes nothing in what is detected |
| ToolStatus.DetectionMonotone | app.py:341-346 | a server detected in a response is still detected after more text is appended |

## Left out

- Only the core logic is modelled. Left out are:
  - the Streamlit page;
  - the session state;
  - the download button;
  - the agent run through the MCP servers (`run_mcp_travel_planner`, `run_travel_planner`);
  - the API-key handling;
  - logging.

  These are I/O or calls into external services.
- The defaulting of `start_date` to `datetime.today()` is left out, because it reads the
  clock. The start date is a parameter.
- `dtstamp` (`datetime.now()`) is left out, because it reads the clock.
- `Calendar.to_ical()` serialisation to bytes is left out. It is the icalendar library's code.
  The model stops at the calendar object: PRODID, VERSION, and the events with their SUMMARY,
  DESCRIPTION, DTSTART and DTEND.
- The start date is a `datetime` in the code. The page passes midnight of the chosen date
  (app.py:363), whole days are added, and `.date()` is taken, so only the date matters. The
  model uses date ordinals.
- The page only offers start dates from today on. The model accepts any Python date, because
  `generate_ics_content` itself does.
- Text.IsDigit: `\d` is modelled as ASCII `0`-`9`, not Python's Unicode decimal digits.
- Text.IsSpace: `\s` and `str.strip()` are modelled on the whitespace Python recognises in ASCII, including U+001C to U+001F. Non-ASCII
  spaces such as U+00A0 are not treated as whitespace.
- Text.Lower: `str.lower()` is modelled on ASCII letters only.
- The messages the form shows after detection are left out as UI text (app.py:348-353). Both
  success messages and the info message for no detected server are fixed strings. The other
  info message joins the detected servers' display labels ("✈️ Flight Search MCP", …) with ", ".
- A free-text preference consisting only of whitespace is kept as entered, as in the code.
  This is not an omission.
