/**
 The preference string the planner form hands to the agent, and the checks the
 "Generate Itinerary" button runs before it calls the agent.

 The free-text box comes first (when it is not empty), then the quick
 preferences in the order they were selected, joined with ", "; with neither,
 the agent is asked for "General sightseeing".
 */
module Preferences {
  import opened Text

  /** The twelve options of the quick-preference multiselect. */
  datatype QuickPreference =
    | Adventure | Relaxation | Sightseeing | CulturalExperiences
    | Beach | Mountain | Luxury | BudgetFriendly | FoodAndDining
    | Shopping | Nightlife | FamilyFriendly

  /** The text the multiselect shows for, and returns as, each option. */
  function Label(p: QuickPreference): (r: string)
    ensures |r| > 0
  {
    match p
    case Adventure => "Adventure"
    case Relaxation => "Relaxation"
    case Sightseeing => "Sightseeing"
    case CulturalExperiences => "Cultural Experiences"
    case Beach => "Beach"
    case Mountain => "Mountain"
    case Luxury => "Luxury"
    case BudgetFriendly => "Budget-Friendly"
    case FoodAndDining => "Food & Dining"
    case Shopping => "Shopping"
    case Nightlife => "Nightlife"
    case FamilyFriendly => "Family-Friendly"
  }

  const Separator := ", "
  const DefaultPreferences := "General sightseeing"

  /** The labels of the selected quick preferences, in selection order. */
  function Labels(quick: seq<QuickPreference>): (r: seq<string>)
    ensures |r| == |quick|
    ensures forall k :: 0 <= k < |quick| ==> r[k] == Label(quick[k])
  {
    if |quick| == 0 then [] else [Label(quick[0])] + Labels(quick[1..])
  }

  /**
   The list the form builds: the free text when the box is not empty, then
   every selected quick preference.
   */
  function PreferenceItems(freeText: string, quick: seq<QuickPreference>): (xs: seq<string>)
    ensures |xs| == (if freeText == "" then 0 else 1) + |quick|
    ensures freeText != "" ==> xs[0] == freeText
    ensures forall k :: 0 <= k < |quick| ==> xs[|xs| - |quick| + k] == Label(quick[k])
    ensures forall k :: 0 <= k < |xs| ==> |xs[k]| > 0
  {
    (if freeText == "" then [] else [freeText]) + Labels(quick)
  }

  /** A join of non-empty items is empty only when there are no items. */
  lemma {:induction false} JoinNonEmpty(xs: seq<string>, sep: string)
    requires forall k :: 0 <= k < |xs| ==> |xs[k]| > 0
    ensures |Join(xs, sep)| > 0 <==> |xs| > 0
  {
    if |xs| > 0 {
      JoinItemAt(xs, sep, 0);
    }
  }

  /** The preference string passed to the agent. */
  function CombinePreferences(freeText: string, quick: seq<QuickPreference>): (r: string)
    ensures |r| > 0
    ensures freeText == "" && quick == [] ==> r == DefaultPreferences
    ensures freeText != "" ==> |freeText| <= |r| && r[..|freeText|] == freeText
    ensures freeText != "" && quick == [] ==> r == freeText
    ensures freeText == "" && |quick| == 1 ==> r == Label(quick[0])
  {
    var items := PreferenceItems(freeText, quick);
    JoinNonEmpty(items, Separator);
    if |items| > 0 then
      JoinItemAt(items, Separator, 0);
      Join(items, Separator)
    else
      DefaultPreferences
  }

  /** With anything entered, the combined string is the ", "-join of the items. */
  lemma CombineIsJoin(freeText: string, quick: seq<QuickPreference>)
    requires freeText != "" || quick != []
    ensures CombinePreferences(freeText, quick) == Join(PreferenceItems(freeText, quick), Separator)
  {
  }

  /**
   When anything was entered, every item sits in the combined string at its
   join offset, in order.
   */
  lemma {:induction false} PreferencesInOrder(freeText: string, quick: seq<QuickPreference>, k: nat)
    requires k < |PreferenceItems(freeText, quick)|
    ensures OccursAt(CombinePreferences(freeText, quick), PreferenceItems(freeText, quick)[k],
      JoinOffset(PreferenceItems(freeText, quick), Separator, k))
  {
    var xs := PreferenceItems(freeText, quick);
    JoinItemAt(xs, Separator, k);
    assert OccursAt(Join(xs, Separator), xs[k], JoinOffset(xs, Separator, k));
    CombineIsJoin(freeText, quick);
  }

  /** Item `k + 1` starts right after item `k` and a separator, which `r` holds there. */
  predicate SeparatedAt(r: string, xs: seq<string>, k: nat)
    requires k + 1 < |xs|
  {
    var e := JoinOffset(xs, Separator, k) + |xs[k]|;
    e + |Separator| == JoinOffset(xs, Separator, k + 1) && OccursAt(r, Separator, e)
  }

  /** Consecutive items are separated by exactly ", ". */
  lemma {:induction false} PreferencesSeparated(freeText: string, quick: seq<QuickPreference>, k: nat)
    requires k + 1 < |PreferenceItems(freeText, quick)|
    ensures SeparatedAt(CombinePreferences(freeText, quick), PreferenceItems(freeText, quick), k)
  {
    var xs := PreferenceItems(freeText, quick);
    JoinSeparatorAfter(xs, Separator, k);
    assert SeparatedAt(Join(xs, Separator), xs, k);
    CombineIsJoin(freeText, quick);
  }

  /** Nothing follows the last item. */
  lemma {:induction false} PreferencesEndWithLastItem(freeText: string, quick: seq<QuickPreference>)
    requires freeText != "" || quick != []
    ensures var xs := PreferenceItems(freeText, quick);
      |xs| > 0 &&
      |CombinePreferences(freeText, quick)| == JoinOffset(xs, Separator, |xs| - 1) + |xs[|xs| - 1]|
  {
    var xs := PreferenceItems(freeText, quick);
    assert CombinePreferences(freeText, quick) == Join(xs, Separator);
    JoinLength(xs, Separator);
  }

  /** The outcome of pressing "Generate Itinerary". */
  datatype RequestCheck =
    | MissingDestination   // "Please enter a destination."
    | MissingPreferences   // "Please describe your preferences or select quick preferences."
    | Ready                // the agent is called

  /** The button's checks, in the order the form makes them. */
  function CheckRequest(destination: string, preferences: string): (c: RequestCheck)
    ensures c == MissingDestination <==> destination == ""
    ensures c == MissingPreferences <==> destination != "" && preferences == ""
    ensures c == Ready <==> destination != "" && preferences != ""
  {
    if destination == "" then MissingDestination
    else if preferences == "" then MissingPreferences
    else Ready
  }

  /**
   The form as wired: the preference check sees the combined string, which is
   never empty, so the preferences warning can never be shown and the agent is
   called exactly when a destination was entered.
   */
  function SubmitForm(destination: string, freeText: string, quick: seq<QuickPreference>): (c: RequestCheck)
    ensures c != MissingPreferences
    ensures c == Ready <==> destination != ""
    ensures c == MissingDestination <==> destination == ""
  {
    CheckRequest(destination, CombinePreferences(freeText, quick))
  }
}
