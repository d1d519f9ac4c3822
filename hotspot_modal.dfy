/** The decisions of the hotspot modal: whether the hotspot is saved to the
    trip, the name and tabs it shows, the trip's month-range label, and what
    the save and translate buttons do. The month names are a parameter:
    their table is not part of this model. */
module HotspotModal {
  import opened Wrappers
  import opened Types
  import Seqs
  import Helpers

  predicate SameId(hotspot: Hotspot, it: Hotspot) {
    it.id == hotspot.id
  }

  /** `trip?.hotspots.find((it) => it.id === id)` */
  function SavedHotspot(trip: Option<Trip>, hotspot: Hotspot): (r: Option<Hotspot>)
    ensures r.Some? ==> r.value.id == hotspot.id
    ensures r.Some? ==> trip.Some? && exists i :: (0 <= i < |trip.value.hotspots| && trip.value.hotspots[i] == r.value
                          && forall j :: 0 <= j < i ==> trip.value.hotspots[j].id != hotspot.id)
    ensures r.None? ==> trip.None? || forall j :: 0 <= j < |trip.value.hotspots| ==> trip.value.hotspots[j].id != hotspot.id
  {
    if trip.None? then None else Seqs.Find(trip.value.hotspots, it => SameId(hotspot, it))
  }

  predicate IsSaved(trip: Option<Trip>, hotspot: Hotspot) {
    SavedHotspot(trip, hotspot).Some?
  }

  /** The hotspot is saved exactly when the trip holds a hotspot with its id. */
  lemma IsSavedIff(trip: Option<Trip>, hotspot: Hotspot)
    ensures IsSaved(trip, hotspot) <==>
      trip.Some? && exists i :: 0 <= i < |trip.value.hotspots| && trip.value.hotspots[i].id == hotspot.id
  {
    if trip.Some? && exists i :: 0 <= i < |trip.value.hotspots| && trip.value.hotspots[i].id == hotspot.id {
      var i :| 0 <= i < |trip.value.hotspots| && trip.value.hotspots[i].id == hotspot.id;
      assert SameId(hotspot, trip.value.hotspots[i]);
    }
  }

  /** `savedHotspot?.name || hotspot.name` */
  function Name(trip: Option<Trip>, hotspot: Hotspot): (name: string)
    ensures var saved := SavedHotspot(trip, hotspot);
      name == if saved.Some? && saved.value.name != "" then saved.value.name else hotspot.name
  {
    OrElse(if SavedHotspot(trip, hotspot).Some? then Some(SavedHotspot(trip, hotspot).value.name) else None,
           Some(hotspot.name)).value
  }

  /** `savedHotspot?.notes` */
  function Notes(trip: Option<Trip>, hotspot: Hotspot): Option<string> {
    match SavedHotspot(trip, hotspot)
    case None => None
    case Some(h) => h.notes
  }

  /** A tab; `caption` is the source's `label`, a reserved word here. */
  datatype Tab = Tab(caption: string, title: string, id: string)

  /** The tab list: two fixed tabs, and a targets tab pushed for a saved
      hotspot, labelled after the hotspot passed in, not the saved copy. */
  method Tabs(isSaved: bool, hotspot: Hotspot) returns (tabs: seq<Tab>)
    ensures |tabs| == if isSaved then 3 else 2
    ensures tabs[0] == Tab("Recent Needs", "", "needs")
    ensures tabs[1] == Tab("Checklists", "", "checklists")
    ensures isSaved ==> tabs[2].id == "targets" && tabs[2].title == ""
    ensures isSaved ==> (tabs[2].caption == "Targets" <==> Truthy(hotspot.targetsId))
    ensures isSaved ==> (tabs[2].caption == "Import Targets" <==> !Truthy(hotspot.targetsId))
  {
    tabs := [Tab("Recent Needs", "", "needs"), Tab("Checklists", "", "checklists")];
    if isSaved {
      tabs := tabs + [Tab(if Truthy(hotspot.targetsId) then "Targets" else "Import Targets", "", "targets")];
    }
  }

  /** `speciesName ? "checklists" : "needs"` */
  function InitialTab(speciesName: Option<string>): (tab: string)
    ensures tab == "checklists" <==> Truthy(speciesName)
    ensures tab == "needs" <==> !Truthy(speciesName)
  {
    if Truthy(speciesName) then "checklists" else "needs"
  }

  predicate MonthSet(m: Option<int>) {
    m.Some? && m.value != 0
  }

  /** `fullMonths[m - 1]`, `undefined` outside the table. */
  function MonthName(months: seq<string>, m: int): Option<string> {
    if 1 <= m <= |months| then Some(months[m - 1]) else None
  }

  /** A value as a template literal prints it. */
  function Print(s: Option<string>): string {
    match s
    case Some(v) => v
    case None => "undefined"
  }

  /** `tripRangeLabel`; `None` is `undefined`. */
  function TripRangeLabel(trip: Option<Trip>, months: seq<string>): Option<string>
    requires |months| == 12
  {
    if trip.Some? && MonthSet(trip.value.startMonth) && MonthSet(trip.value.endMonth) then
      var s, e := trip.value.startMonth.value, trip.value.endMonth.value;
      if s == e then MonthName(months, s)
      else Some(Print(MonthName(months, s)) + " - " + Print(MonthName(months, e)))
    else Some("")
  }

  /** The label is empty unless both months are set, one month name when
      they are equal, and "Start - End" otherwise. */
  lemma TripRangeLabelSpec(trip: Trip, months: seq<string>)
    requires |months| == 12
    ensures !MonthSet(trip.startMonth) || !MonthSet(trip.endMonth) ==> TripRangeLabel(Some(trip), months) == Some("")
    ensures MonthSet(trip.startMonth) && trip.startMonth == trip.endMonth && 1 <= trip.startMonth.value <= 12 ==>
              TripRangeLabel(Some(trip), months) == Some(months[trip.startMonth.value - 1])
    ensures MonthSet(trip.startMonth) && MonthSet(trip.endMonth) && trip.startMonth != trip.endMonth
            && 1 <= trip.startMonth.value <= 12 && 1 <= trip.endMonth.value <= 12 ==>
              TripRangeLabel(Some(trip), months) ==
                Some(months[trip.startMonth.value - 1] + " - " + months[trip.endMonth.value - 1])
  {
  }

  /** Without a trip the label is empty. */
  lemma TripRangeLabelNoTrip(months: seq<string>)
    requires |months| == 12
    ensures TripRangeLabel(None, months) == Some("")
  {
  }

  /** `trip?.region || ""` */
  function Region(trip: Option<Trip>): string {
    if trip.Some? && trip.value.region.Some? then trip.value.region.value else ""
  }

  /** `isSaved && !isRegionEnglish(trip?.region || "")` */
  predicate CanTranslate(trip: Option<Trip>, hotspot: Hotspot) {
    IsSaved(trip, hotspot) && !Helpers.IsRegionEnglish(Region(trip))
  }

  /** A saved hotspot of a trip without a region can be translated. */
  lemma CanTranslateWithoutRegion(trip: Trip, hotspot: Hotspot)
    requires trip.region.None? || trip.region == Some("")
    ensures CanTranslate(Some(trip), hotspot) <==> IsSaved(Some(trip), hotspot)
  {
  }

  /** `savedHotspot?.originalName` */
  function OriginalName(trip: Option<Trip>, hotspot: Hotspot): Option<string> {
    match SavedHotspot(trip, hotspot)
    case None => None
    case Some(h) => h.originalName
  }

  datatype TranslateControls = TranslateControls(translateButton: bool, translating: bool, original: bool)

  /** Which of the translate controls under the name are shown. */
  function Controls(trip: Option<Trip>, hotspot: Hotspot, isTranslating: bool): (c: TranslateControls)
    ensures c.translateButton <==> CanTranslate(trip, hotspot) && !Truthy(OriginalName(trip, hotspot)) && !isTranslating
    ensures c.translating <==> CanTranslate(trip, hotspot) && isTranslating
    ensures c.original <==> CanTranslate(trip, hotspot) && Truthy(OriginalName(trip, hotspot))
    ensures !(c.translateButton && c.original) && !(c.translateButton && c.translating)
  {
    var can := CanTranslate(trip, hotspot);
    var orig := Truthy(OriginalName(trip, hotspot));
    TranslateControls(can && !orig && !isTranslating, can && isTranslating, can && orig)
  }

  datatype TranslateDecision =
    | NoTranslation            // the translation came back empty
    | NotFound                 // the "No translation found" toast
    | Rename(id: string, name: string)

  /** What `handleTranslate` does with the translated name. */
  function HandleTranslate(id: string, name: string, translated: string): (d: TranslateDecision)
    ensures d.Rename? <==> translated != "" && translated != name
    ensures d.Rename? ==> d.id == id && d.name == translated
    ensures d == NotFound <==> translated != "" && translated == name
  {
    if translated == "" then NoTranslation
    else if translated == name then NotFound
    else Rename(id, translated)
  }

  datatype SaveDecision =
    | Unchanged
    | RemoveHotspot(id: string)
    | AppendHotspot(hotspot: Hotspot)

  /** What `handleSave` does; `userConfirms` is the answer the confirmation
      dialog would give, asked only when the saved hotspot has notes. */
  function HandleSave(trip: Option<Trip>, hotspot: Hotspot, userConfirms: bool): SaveDecision {
    if IsSaved(trip, hotspot) then
      if Truthy(Notes(trip, hotspot)) && !userConfirms then Unchanged
      else RemoveHotspot(hotspot.id)
    else AppendHotspot(hotspot.(species := Some(hotspot.species.GetOr(0))))
  }

  /** A saved hotspot is removed unless it has notes and the user declines;
      without notes the answer is never consulted. An unsaved hotspot is
      appended as it is, with `species` defaulting to 0. */
  lemma HandleSaveSpec(trip: Option<Trip>, hotspot: Hotspot, userConfirms: bool)
    ensures IsSaved(trip, hotspot) ==>
      (HandleSave(trip, hotspot, userConfirms) == Unchanged <==> Truthy(Notes(trip, hotspot)) && !userConfirms)
    ensures IsSaved(trip, hotspot) && HandleSave(trip, hotspot, userConfirms) != Unchanged ==>
      HandleSave(trip, hotspot, userConfirms) == RemoveHotspot(hotspot.id)
    ensures IsSaved(trip, hotspot) && !Truthy(Notes(trip, hotspot)) ==>
      HandleSave(trip, hotspot, userConfirms) == HandleSave(trip, hotspot, !userConfirms)
    ensures !IsSaved(trip, hotspot) ==>
      var d := HandleSave(trip, hotspot, userConfirms);
      && d.AppendHotspot?
      && d.hotspot.species == Some(if hotspot.species.Some? then hotspot.species.value else 0)
      && d.hotspot.(species := hotspot.species) == hotspot
  {
  }
}
