/** The local content provider: template substitution, the conflict
    narrative, and the rulebook lookup that produces an opportunity payload
    (a bound event, or the "nothing happens" fallback). */
module Narrative {
  import opened Wrappers
  import opened Types
  import opened Text
  import opened Search

  const SectSlot: string := "{Sect}"
  const LocationSlot: string := "{Location}"
  const WeatherSlot: string := "{Weather}"

  lemma SlotsHeadUnique()
    ensures HeadUnique(SectSlot) && HeadUnique(LocationSlot) && HeadUnique(WeatherSlot)
  {
  }

  /** Substitutes the sect name, location name and weather into a template. */
  function FormatNarrative(text: string, sectName: string, locationName: string, weather: string): string {
    var withSect := ReplaceAll(text, SectSlot, sectName);
    var withLocation := ReplaceAll(withSect, LocationSlot, locationName);
    ReplaceAll(withLocation, WeatherSlot, weather)
  }

  /** A template without placeholders is returned as it is. */
  lemma FormatNarrativeFixedText(text: string, sectName: string, locationName: string, weather: string)
    requires !Occurs(SectSlot, text) && !Occurs(LocationSlot, text) && !Occurs(WeatherSlot, text)
    ensures FormatNarrative(text, sectName, locationName, weather) == text
  {
    ReplaceAllAbsent(text, SectSlot, sectName);
    ReplaceAllAbsent(text, LocationSlot, locationName);
    ReplaceAllAbsent(text, WeatherSlot, weather);
  }

  /** Every placeholder is filled. Read the template as placeholder-free
      pieces around its `{Sect}`s; once those are filled, read the text as
      pieces around its `{Location}`s; once those are filled, as pieces
      around its `{Weather}`s. The result is the last pieces joined by the
      weather. */
  lemma FormatNarrativeFillsSlots(
    text: string, sectName: string, locationName: string, weather: string,
    ps1: seq<string>, ps2: seq<string>, ps3: seq<string>)
    requires |ps1| > 0 && |ps2| > 0 && |ps3| > 0
    requires text == Join(ps1, SectSlot)
    requires forall i :: 0 <= i < |ps1| ==> !Occurs(SectSlot, ps1[i])
    requires Join(ps1, sectName) == Join(ps2, LocationSlot)
    requires forall i :: 0 <= i < |ps2| ==> !Occurs(LocationSlot, ps2[i])
    requires Join(ps2, locationName) == Join(ps3, WeatherSlot)
    requires forall i :: 0 <= i < |ps3| ==> !Occurs(WeatherSlot, ps3[i])
    ensures FormatNarrative(text, sectName, locationName, weather) == Join(ps3, weather)
  {
    SlotsHeadUnique();
    ReplaceAllJoin(ps1, SectSlot, sectName);
    ReplaceAllJoin(ps2, LocationSlot, locationName);
    ReplaceAllJoin(ps3, WeatherSlot, weather);
  }

  // ---------------------------------------------------------------------
  // Conflict narrative

  /** The fixed conflict template: where, who meets whom, and the weather. */
  function ConflictNarrative(cfg: Config, mover: SectId, occupant: SectId, locationName: string, weather: string): string {
    "在【" + locationName + "】，" + cfg.sectName(mover) + "与" + cfg.sectName(occupant)
      + "狭路相逢。" + weather + "中，双方对峙，互不相让。"
  }

  /** The conflict narrative names the location, both sects and the weather. */
  lemma ConflictNarrativeMentions(cfg: Config, mover: SectId, occupant: SectId, locationName: string, weather: string)
    ensures var text := ConflictNarrative(cfg, mover, occupant, locationName, weather);
      && Occurs(locationName, text)
      && Occurs(cfg.sectName(mover), text)
      && Occurs(cfg.sectName(occupant), text)
      && Occurs(weather, text)
  {
    var a, b := cfg.sectName(mover), cfg.sectName(occupant);
    var t1 := "在【" + locationName;
    var t3 := t1 + "】，" + a;
    var t5 := t3 + "与" + b;
    var t7 := t5 + "狭路相逢。" + weather;
    var text := t7 + "中，双方对峙，互不相让。";
    assert text == ConflictNarrative(cfg, mover, occupant, locationName, weather);
    assert t1 <= t3 <= t5 <= t7 <= text;
    OccursAtEnd("在【", locationName);
    OccursInPrefix(locationName, t1, text);
    OccursAtEnd(t1 + "】，", a);
    OccursInPrefix(a, t3, text);
    OccursAtEnd(t3 + "与", b);
    OccursInPrefix(b, t5, text);
    OccursAtEnd(t5 + "狭路相逢。", weather);
    OccursInPrefix(weather, t7, text);
  }

  // ---------------------------------------------------------------------
  // Opportunity lookup

  const FallbackTitle: string := "荒野赶路"

  /** What the provider hands back for an opportunity: a title, the legacy
      `title|||narrative|||prompt` text, and the structured event if bound. */
  datatype OpportunityPayload = OpportunityPayload(title: string, description: string, eventData: Option<GameEvent>)

  /** Index `k` holds the first table entry with this id. */
  predicate FirstWithId(locs: seq<LocationData>, id: int, k: int) {
    && 0 <= k < |locs|
    && locs[k].id == id
    && forall j :: 0 <= j < k ==> locs[j].id != id
  }

  /** `FIXED_LOCATIONS.find(l => l.id === id)`. */
  function FindLocationById(locs: seq<LocationData>, id: int): (r: Option<LocationData>)
    ensures r.None? <==> forall j :: 0 <= j < |locs| ==> locs[j].id != id
    ensures r.Some? ==> exists k :: FirstWithId(locs, id, k) && locs[k] == r.value
  {
    var p := (l: LocationData) => l.id == id;
    var r := FindFirst(locs, p);
    if r.Some? then
      var k :| IsFirstMatch(locs, p, k) && locs[k] == r.value;
      assert FirstWithId(locs, id, k);
      r
    else
      r
  }

  function BoundDescription(ev: GameEvent): string {
    ev.title + "|||" + ev.narrative + "|||请选择行动。"
  }

  function FallbackDescription(locationName: string, weather: string): string {
    "【" + locationName + "】\n" + weather + "。\n平安无事，继续前行。|||无特殊判定。"
  }

  /** The rulebook lookup: the event bound to the first table entry with the
      location's id, or the fallback when there is no such entry or it has no
      event. The sect's state plays no part. */
  function OpportunityEvent(cfg: Config, sect: SectState, location: LocationData, weather: string): (r: OpportunityPayload)
    ensures r.eventData.Some? ==>
      && (exists k :: FirstWithId(cfg.locations, location.id, k) && cfg.locations[k].event == r.eventData)
      && r.title == r.eventData.value.title
      && r.description == BoundDescription(r.eventData.value)
    ensures r.eventData.None? ==>
      && (forall k :: FirstWithId(cfg.locations, location.id, k) ==> cfg.locations[k].event.None?)
      && r.title == FallbackTitle
      && r.description == FallbackDescription(location.name, weather)
  {
    var found := FindLocationById(cfg.locations, location.id);
    if found.Some? && found.value.event.Some? then
      var ev := found.value.event.value;
      OpportunityPayload(ev.title, BoundDescription(ev), Some(ev))
    else
      OpportunityPayload(FallbackTitle, FallbackDescription(location.name, weather), None)
  }

  /** The lookup ignores the sect it is asked for, and which event (if any)
      is found depends on the location's id alone. */
  lemma OpportunityEventDependsOnIdOnly(
    cfg: Config, s1: SectState, s2: SectState, l1: LocationData, l2: LocationData, w1: string, w2: string)
    requires l1.id == l2.id
    ensures OpportunityEvent(cfg, s1, l1, w1).eventData == OpportunityEvent(cfg, s2, l2, w2).eventData
    ensures OpportunityEvent(cfg, s1, l1, w1).title == OpportunityEvent(cfg, s2, l2, w2).title
    ensures OpportunityEvent(cfg, s1, l1, w1) == OpportunityEvent(cfg, s2, l1, w1)
  {
  }
}
