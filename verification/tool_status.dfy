/**
 Which tool servers the finished itinerary appears to have used, decided by
 keyword search on the lower-cased agent response.
 */
module ToolStatus {
  import opened Text

  /** The three tool servers the agent is connected to, in the order they are reported. */
  datatype McpServer = FlightSearch | Airbnb | GoogleMaps

  function Rank(m: McpServer): nat {
    match m
    case FlightSearch => 0
    case Airbnb => 1
    case GoogleMaps => 2
  }

  /** Any one of these in the response counts as evidence of the flight server. */
  const FlightTerms: seq<string> := [
    "search_flights", "search_airports", "get_flight_prices", "serpapi_response",
    "flight data", "airline", "booking link"]

  /** Some term of `terms` occurs in `s`. */
  function AnyTerm(s: string, terms: seq<string>): (b: bool)
    ensures b <==> exists k :: 0 <= k < |terms| && Contains(s, terms[k])
  {
    if |terms| == 0 then false
    else
      var rest := AnyTerm(s, terms[1..]);
      assert forall k :: 1 <= k < |terms| ==> terms[k] == terms[1..][k - 1];
      Contains(s, terms[0]) || rest
  }

  predicate FlightEvidence(low: string) {
    AnyTerm(low, FlightTerms)
  }

  predicate AirbnbEvidence(low: string) {
    Contains(low, "airbnb") && (Contains(low, "listing") || Contains(low, "accommodation"))
  }

  predicate MapsEvidence(low: string) {
    Contains(low, "distance") && (Contains(low, "maps") || Contains(low, "location"))
  }

  /** The servers reported as used for `response`, in reporting order. */
  function DetectServers(response: string): (r: seq<McpServer>)
    ensures FlightSearch in r <==>
      exists k :: 0 <= k < |FlightTerms| && Contains(Lower(response), FlightTerms[k])
    ensures Airbnb in r <==>
      Contains(Lower(response), "airbnb") &&
      (Contains(Lower(response), "listing") || Contains(Lower(response), "accommodation"))
    ensures GoogleMaps in r <==>
      Contains(Lower(response), "distance") &&
      (Contains(Lower(response), "maps") || Contains(Lower(response), "location"))
    ensures forall i, j :: 0 <= i < j < |r| ==> Rank(r[i]) < Rank(r[j])
  {
    var low := Lower(response);
    (if FlightEvidence(low) then [FlightSearch] else []) +
    (if AirbnbEvidence(low) then [Airbnb] else []) +
    (if MapsEvidence(low) then [GoogleMaps] else [])
  }

  /** An occurrence in `a` is still an occurrence in `a + b`. */
  lemma ContainsExtend(a: string, b: string, t: string)
    requires Contains(a, t)
    ensures Contains(a + b, t)
  {
    var j :| OccursAt(a, t, j);
    assert (a + b)[j..j + |t|] == a[j..j + |t|];
    assert OccursAt(a + b, t, j);
  }

  lemma LowerAppend(a: string, b: string)
    ensures Lower(a + b) == Lower(a) + Lower(b)
  {
    assert forall k :: 0 <= k < |a| ==> (a + b)[k] == a[k];
    assert forall k :: 0 <= k < |b| ==> (a + b)[|a| + k] == b[k];
  }

  /** Upper- or lower-casing the response changes nothing in what is detected. */
  lemma DetectionIgnoresCase(response: string)
    ensures DetectServers(Lower(response)) == DetectServers(response)
  {
    LowerIdempotent(response);
  }

  lemma FlightEvidenceExtends(a: string, b: string)
    requires FlightEvidence(a)
    ensures FlightEvidence(a + b)
  {
    var k :| 0 <= k < |FlightTerms| && Contains(a, FlightTerms[k]);
    ContainsExtend(a, b, FlightTerms[k]);
  }

  lemma AirbnbEvidenceExtends(a: string, b: string)
    requires AirbnbEvidence(a)
    ensures AirbnbEvidence(a + b)
  {
    ContainsExtend(a, b, "airbnb");
    if Contains(a, "listing") {
      ContainsExtend(a, b, "listing");
    } else {
      ContainsExtend(a, b, "accommodation");
    }
  }

  lemma MapsEvidenceExtends(a: string, b: string)
    requires MapsEvidence(a)
    ensures MapsEvidence(a + b)
  {
    ContainsExtend(a, b, "distance");
    if Contains(a, "maps") {
      ContainsExtend(a, b, "maps");
    } else {
      ContainsExtend(a, b, "location");
    }
  }

  /**
   Detection only grows as the response grows: a server detected in a
   response is still detected once more text is appended.
   */
  lemma DetectionMonotone(a: string, b: string)
    ensures forall m :: m in DetectServers(a) ==> m in DetectServers(a + b)
  {
    LowerAppend(a, b);
    var la, lb := Lower(a), Lower(b);
    assert Lower(a + b) == la + lb;
    if FlightEvidence(la) {
      FlightEvidenceExtends(la, lb);
    }
    if AirbnbEvidence(la) {
      AirbnbEvidenceExtends(la, lb);
    }
    if MapsEvidence(la) {
      MapsEvidenceExtends(la, lb);
    }
  }
}
