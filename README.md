# Bird trip planner: a verified model of its client-side logic

This project models the deterministic client logic of a bird-trip planning
web app. It covers:

- cleaning the per-hotspot target records that arrive from the database;
- the rewrite of a trip's hotspot list when a hotspot's targets are reset;
- the seen-species reducer of the species page;
- the local state of the user-profile provider;
- the small helpers: region language, truncation, marker colour bands and
  random ids;
- what the target-species sidebar block and the hotspot modal derive from
  their inputs;
- the state machine of the rare-bird-alert fetch hook.

There is one module per source file, plus three shared modules:

- `Wrappers`: `Option`, `Result`, and JavaScript `||` on strings.
- `Seqs`: `filter`, `find`, `indexOf`, `includes` on strings, and a
  subsequence relation.
- `Types`: the trip, hotspot and targets records. `lib/types` is not part of
  this model, so these records carry only the fields the core reads.

The code is modelled in its own form:

- The `cleanTargets` filter, with its mutable seen-set, is a `while` loop.
  It is proved equal to a first-occurrence specification function.
- The `map` in `resetHotspotTargets`, whose callback assigns to an outer
  variable, is also a loop. It is proved against a rewrite predicate and a
  last-match function.
- `randomId` is a loop. `Math.random` becomes a nondeterministic choice of an
  index in [0, 52).
- The profile provider is a class whose `state` and `initialized` fields the
  methods update.
- The fetch hook is a class whose `call` replaces its state twice.
- The reducer and the component derivations are functions. Lemmas state what
  each one promises.

JavaScript values appear where the code depends on their dynamic typing:

- The reducer's state is a map from property names to a small JSON-like
  `Value` type, because `filter_change` writes any property it is given.
- Spreading something that is not iterable, as `[...seen, payload]` does,
  gives `Err(TypeError)`.
- `undefined` is `None`, and truthiness is spelled out (`Truthy`, `MonthSet`).

## Model

Where a function only computes (`Reducer.Reduce`, `Helpers.MarkerColor`,
`HotspotModal.TripRangeLabel`, `TargetSpeciesSidebar.Block` and the like),
its row names the lemma that states what it promises, citing the same lines.

| member | source | states |
|---|---|---|
| HotspotTargets.CleanTargets | providers/hotspot-targets.tsx:44-52 | the seen-set filter loop returns exactly `Clean(targets)`: kept records are those with a non-empty `hotspotId` not seen before them |
| HotspotTargets.CleanStep | providers/hotspot-targets.tsx:46-50 | one step of the filter: a record is appended iff it has an id not already among the earlier records' ids |
| HotspotTargets.IdSetStep | providers/hotspot-targets.tsx:49 | the seen-set after a record is the earlier set plus that record's id, if it has one |
| HotspotTargets.FirstOccurrenceStep | providers/hotspot-targets.tsx:47-48 | a record is the first of its id iff it has an id and no earlier record has that id |
| HotspotTargets.FirstOccurrencePrefix | providers/hotspot-targets.tsx:48 | whether a record is kept depends only on the records before it |
| HotspotTargets.CleanHasIds | providers/hotspot-targets.tsx:47 | no cleaned record has an absent or empty `hotspotId` |
| HotspotTargets.CleanUnique | providers/hotspot-targets.tsx:45-50 | no two cleaned records share a `hotspotId` |
| HotspotTargets.CleanKeepsOnlyFirsts | providers/hotspot-targets.tsx:48-50 | every cleaned record is the first input record with its id |
| HotspotTargets.CleanKeepsAllFirsts | providers/hotspot-targets.tsx:48-50 | every first occurrence of an id is kept, so later duplicates are the only ones dropped |
| HotspotTargets.CleanIsSubseq | providers/hotspot-targets.tsx:46 | the output is a subsequence of the input, in input order |
| HotspotTargets.CleanCoversIds | providers/hotspot-targets.tsx:44-52 | the cleaned records carry exactly the non-empty ids of the input |
| HotspotTargets.CleanOfCleanList | providers/hotspot-targets.tsx:44-52 | a list of records with distinct non-empty ids is left as it is |
| HotspotTargets.CleanIdempotent | providers/hotspot-targets.tsx:44-52 | cleaning twice is cleaning once |
| HotspotTargets.CleanExample | providers/hotspot-targets.tsx:44-52 | `[A, A, B, no id]` cleans to `[A, B]` |
| HotspotTargets.LastTargetsIdSpec | providers/hotspot-targets.tsx:74-78 | the remembered old id is the `targetsId` of the last matching hotspot, and undefined when none matches |
| HotspotTargets.RewriteHotspots | providers/hotspot-targets.tsx:74-82 | same length and order; non-matching hotspots unchanged; matching ones lose `targetsId` and keep every other field; the second result is the last match's old `targetsId` |
| HotspotTargets.ResetHotspotTargets | providers/hotspot-targets.tsx:72-85 | no trip: no effect; otherwise a retry for the id, then the hotspot update for the trip with the rewritten list, then a targets deletion exactly when the old id is truthy |
| HotspotTargets.ResetRewriteClears | providers/hotspot-targets.tsx:75-82 | after the rewrite no matching hotspot has a `targetsId`, and rewriting again changes nothing |
| Reducer.SetterReplacesOneField | reducer.js:5-19 | each `set_` action replaces exactly its own property with the payload and keeps every other property |
| Reducer.AddSeenAppends | reducer.js:20-22 | `add_seen` appends the payload to `seen`, adding one occurrence even when it is present, and changes nothing else |
| Reducer.AddSeenNeedsIterable | reducer.js:21 | `add_seen` throws a TypeError when `seen` is neither an array nor a string |
| Reducer.ToggleSpec | reducer.js:25-30 | the toggle flips the code's membership: all occurrences removed, the survivors in their original order, or the code appended |
| Reducer.ToggleTwice | reducer.js:25-30 | toggling an absent code twice restores the array |
| Reducer.ExpandToggleUpdates | reducer.js:23-31 | `expand_toggle` on an array changes only `expanded`, to its toggle |
| Reducer.FilterChangeShowSeen | reducer.js:33-35 | `filter_change` on `showSeen` negates the flag, ignores `value` and changes nothing else |
| Reducer.FilterChangeOther | reducer.js:33-38 | `filter_change` on any other field sets the property it names to `value` and changes nothing else |
| Reducer.UnknownActionThrows | reducer.js:40-42 | any other action type throws "Invalid reducer action" |
| Reducer.PageOnlyActionsThrow | reducer.js:40-42 | `remove_seen`, `toggle_sidebar` and `reset` fall to the default and throw |
| Helpers.RegionCode | lib/helpers.ts:34 | the region code is the prefix of the region before its first comma, or the whole region |
| Helpers.IsRegionEnglish | lib/helpers.ts:33-36 | the empty region is not English |
| Helpers.RegionCodeOfNamed | lib/helpers.ts:34 | a region that names a comma-free code has exactly that code |
| Helpers.RegionEnglishIff | lib/helpers.ts:4-36 | a region is English iff it names one of the 26 English-speaking country codes |
| Helpers.Truncate | lib/helpers.ts:38-40 | a string no longer than the limit is returned unchanged; otherwise its first `max(length, 0)` characters followed by "...", of length `max(length, 0) + 3` |
| Helpers.MarkerColorsDistinct | lib/helpers.ts:65-76 | the ten marker colours are pairwise distinct |
| Helpers.IndexOfMarkerColor | lib/helpers.ts:92-95 | looking up the k-th colour gives k |
| Helpers.LimitsBelowBands | lib/helpers.ts:80-88 | the band boundaries 15, 50, 100, 150, 200, 250, 300, 400 and 500 in order |
| Helpers.MarkerColorIndexIsBand | lib/helpers.ts:78-95 | the colour index is 0 for 0, 1 for any other count up to 15, 2 to 9 for the later bands, 0 above 500, and never -1 |
| Helpers.BandMonotone | lib/helpers.ts:78-90 | for positive counts up to 500 the band never decreases as the count grows; above 500 it is back to 0 |
| Helpers.RandomId | lib/helpers.ts:143-151 | the id has `length` characters (none for a non-positive length), each drawn from the 52-letter alphabet |
| Profile.ExposedLifelist | providers/profile.tsx:80 | the exposed lifelist is the state's, or `[]` when it is absent |
| Profile.ExposedRadius | providers/profile.tsx:81 | the exposed radius is the state's when non-zero, otherwise 50; never 0 |
| Profile.InitialStateExposed | providers/profile.tsx:15-19 | the initial state is an empty lifelist, radius 50 and no address, and is exposed as such |
| Profile.AppendedSpec | providers/profile.tsx:57-60 | appending puts the code at the end, one more occurrence even if present, and changes no other field; it fails only when the lifelist is absent |
| Profile.RemovedSpec | providers/profile.tsx:62-65 | removing drops every occurrence, keeps the rest in order and changes no other field |
| Profile.AppendThenRemove | providers/profile.tsx:57-65 | appending a new code and removing it restores the state |
| Profile.SettersChangeOneField | providers/profile.tsx:52-75 | `setLifelist`, `setRadius` and `setAddress` each change only their own field |
| Profile.MergedSpec | providers/profile.tsx:44-47 | a fetched profile overrides the fields it carries (also with `null`) and keeps the previous values of the others; merging again changes nothing |
| Profile.MergedDefaults | providers/profile.tsx:46-81 | a fetched radius of 0 or `null` is exposed as 50, and a `null` lifelist as `[]`, each on its own |
| Profile.ProfileProvider.constructor | providers/profile.tsx:36-37 | the provider starts in the initial state, not initialized |
| Profile.ProfileProvider.OnUid | providers/profile.tsx:41-50 | a truthy uid marks the provider initialized at once and starts a fetch; the state is untouched |
| Profile.ProfileProvider.OnFetched | providers/profile.tsx:44-47 | a resolved profile is merged into the state; none leaves it as it was |
| Profile.ProfileProvider.SetLifelist | providers/profile.tsx:52-55 | the state gets the new lifelist, and the write is for `lifelist` |
| Profile.ProfileProvider.AppendLifelist | providers/profile.tsx:57-60 | the state becomes the appended state, or stays when the updater throws |
| Profile.ProfileProvider.RemoveLifelist | providers/profile.tsx:62-65 | the state becomes the filtered state, or stays when the updater throws |
| Profile.ProfileProvider.SetRadius | providers/profile.tsx:67-70 | the state gets the new radius, and the write is for `radius` |
| Profile.ProfileProvider.SetAddress | providers/profile.tsx:72-75 | the state gets the new address, and the write is for `address` |
| Profile.ProfileProvider.Value | providers/profile.tsx:77-89 | the context value carries the defaulted lifelist and radius, the address and `initialized` |
| TargetSpeciesSidebar.ActualUid | components/TargetSpeciesSidebarBlock.tsx:18-19 | the selected uid when non-empty, else the user's uid when truthy, else the trip's first user id |
| TargetSpeciesSidebar.Lifelist | components/TargetSpeciesSidebarBlock.tsx:21 | the lifelist of the first profile whose id is the actual uid, `[]` when there is none or it has no lifelist |
| TargetSpeciesSidebar.TargetSpeciesSpec | components/TargetSpeciesSidebarBlock.tsx:22 | exactly the target items whose code is not on the lifelist, in order and with their multiplicities; `[]` without items |
| TargetSpeciesSidebar.FilteredTargetsSpec | components/TargetSpeciesSidebarBlock.tsx:23 | the subsequence of exactly the targets whose lowered name contains the lowered search, each kept with its multiplicity; an empty search keeps everything |
| TargetSpeciesSidebar.InviteOptions | components/TargetSpeciesSidebarBlock.tsx:25-30 | no option list exactly when there is no invite list |
| TargetSpeciesSidebar.InviteOptionsSpec | components/TargetSpeciesSidebarBlock.tsx:25-30 | invites without a uid are dropped; each option carries its invite's uid and is named by the name, or the email when the name is empty |
| TargetSpeciesSidebar.OptionsSpec | components/TargetSpeciesSidebarBlock.tsx:32-38 | the options start with the "(me)" entry for `myUid`, followed by exactly the invite options |
| TargetSpeciesSidebar.DisplayName | components/TargetSpeciesSidebarBlock.tsx:34 | the user's display name as a template literal prints it: "undefined" when there is no user or no name, "null" for a `null` name |
| TargetSpeciesSidebar.NullDisplayNameOption | components/TargetSpeciesSidebarBlock.tsx:33-36 | a signed-in user with a `null` display name is listed as "null (me)" |
| TargetSpeciesSidebar.OptionsWithoutInvites | components/TargetSpeciesSidebarBlock.tsx:37 | spreading an absent invite list throws |
| TargetSpeciesSidebar.BlockSpec | components/TargetSpeciesSidebarBlock.tsx:18-90 | the view's uid, target species, filtered targets and options are those derived from the inputs; the count is that of all target species, not the filtered ones; "Import Targets" shows exactly when the target items are absent or empty |
| HotspotModal.SavedHotspot | modals/Hotspot.tsx:39 | the saved hotspot is the first trip hotspot with the modal hotspot's id, and there is none when no trip hotspot has it |
| HotspotModal.IsSavedIff | modals/Hotspot.tsx:39-40 | the hotspot is saved iff some trip hotspot has its id |
| HotspotModal.Name | modals/Hotspot.tsx:41 | the saved name when non-empty, otherwise the prop's name |
| HotspotModal.Tabs | modals/Hotspot.tsx:47-66 | `needs` then `checklists`, and a `targets` tab exactly when saved, labelled "Targets" iff the prop hotspot has a `targetsId`, else "Import Targets" |
| HotspotModal.InitialTab | modals/Hotspot.tsx:45 | `checklists` iff a species name is given, otherwise `needs` |
| HotspotModal.TripRangeLabelSpec | modals/Hotspot.tsx:91-96 | empty unless both months are set; one month name when they are equal; otherwise "Start - End" using month `m - 1` of the table |
| HotspotModal.TripRangeLabelNoTrip | modals/Hotspot.tsx:91-96 | without a trip the label is empty |
| HotspotModal.CanTranslateWithoutRegion | modals/Hotspot.tsx:90 | with no region, translation is offered exactly for saved hotspots |
| HotspotModal.Controls | modals/Hotspot.tsx:102-119 | the Translate button, the "Translating..." note and the original name show only when translation is offered; the button never shows beside either of the others |
| HotspotModal.HandleTranslate | modals/Hotspot.tsx:78-88 | renames, to the translation, only when it is non-empty and differs from the name; an unchanged translation gives the "not found" toast |
| HotspotModal.HandleSaveSpec | modals/Hotspot.tsx:68-76 | a saved hotspot is removed unless it has notes and the user declines, and the answer matters only with notes; an unsaved one is appended as it is, with `species` defaulting to 0 |
| FetchRba.Initial | hooks/useFetchRBA.ts:18-23 | no error, not loading, no last update and no species |
| FetchRba.Started | hooks/useFetchRBA.ts:26 | loading, no error, no species, and the last update kept |
| FetchRba.Finished | hooks/useFetchRBA.ts:29-38 | not loading; an error exactly when the body is not an array; on error no species and the last update kept; for an array body, the species are the body and the last update is now |
| FetchRba.CallSettles | hooks/useFetchRBA.ts:25-40 | after any completed call nothing is loading, an error means no species, and a failed call keeps the last update |
| FetchRba.CallRepeat | hooks/useFetchRBA.ts:25-40 | repeating a call with the same outcome changes nothing |
| FetchRba.RbaHook.constructor | hooks/useFetchRBA.ts:18-23 | the hook starts in the initial state |
| FetchRba.RbaHook.Start | hooks/useFetchRBA.ts:26 | the state becomes the started state of the previous one |
| FetchRba.RbaHook.Finish | hooks/useFetchRBA.ts:29-38 | the state becomes the terminal state for the outcome |
| FetchRba.RbaHook.Call | hooks/useFetchRBA.ts:25-40 | the start update then the terminal one; the final state for each outcome |

## Left out

- The target download manager (`hooks/useTargetsDownloadManager`) is not
  part of this model. `retryDownload` appears only as an effect value.
- Firebase, fetch and persistence calls become data, not I/O:
  `updateHotspots`, `deleteTargets`, `setProfileValue`, `appendProfileLifelist`
  and `removeProfileLifelist` are effect or write values. The fetched
  profile and the RBA response are inputs.
- The `subscribeToHotspotTargets` lifecycle is left out: the subscription,
  its unsubscribe and the reset of `allTargets` to `[]`.
- Promises, `await` and React's batching of updates are left out. Each
  `setState` updater is applied at once. Overlapping calls of the fetch hook
  are not modelled.
- `distanceBetween`, `getBounds`, `getLatLngFromBounds`, `translate` and
  `radiusOptions` are left out, because they are floating point, tables, or
  network calls. The translation is an input of `HandleTranslate`.
- Toasts and the `confirm` dialog are left out. The user's answer is an
  input of `HandleSave`.
- `fullMonths` is not part of this model. It is a 12-entry parameter.
- `Helpers.RandomId`: `Math.random` is a nondeterministic choice of an index.
  The contract says only which characters the id may contain.
- `TargetSpeciesSidebar.Lower`: lowercases ASCII only. Unicode case mapping
  is left out.
- String lengths count Dafny characters (code points), not UTF-16 code
  units. This matters for `truncate`. String spread goes by code points, as
  the model does, except for lone surrogates.
- JavaScript numbers are modelled as integers. Floating-point counts,
  radii and months are left out.
- `includes`, `indexOf`, `===` and `!==` compare by value. Reference
  identity of arrays and objects is not modelled.
- In the reducer, the JavaScript string for an object key is modelled for
  `undefined`, `null`, booleans, integers, strings, arrays and plain objects
  (`"[object Object]"`). `toString` overrides are not.
- Profile: a fetched profile's fields are missing, `null` or present.
  Fields beyond the three modelled ones are not carried.
- Profile: when the lifelist is absent, the append and remove updaters throw
  in the source. In the model the state stays as it was and `failed` is set.
- `console.error` in the fetch hook's error path is left out. It is a log
  with no effect on the state.
- The modal's `isTranslating` flag, set around the awaited translation, is
  an input of `HotspotModal.Controls`. The sequence of renders it produces is
  not modelled.
- The rendering of the pages (`pages/*`) and the presentation components are
  left out.
- The sync of downloaded targets with the trip, beyond the reset's effects,
  lives in the download manager and is not part of this model.
