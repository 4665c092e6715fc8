# Pick tracker: verified model of the dashboard core

The dashboard keeps a list of betting *sources* (podcasts, models, insiders)
and a list of *games*, each with tags, notes, an archived flag and a list of
*picks* (source, choice, optional confidence, notes). Every change to that
state happens in an event handler of `dashboard/app.js`; for each game the
page also derives a *breakdown*: picks grouped by trimmed choice, counted,
averaged, sorted by popularity, with a consensus percentage for the top
choice.

This project models that core in Dafny:

- `strings.dfy` (module `Strings`): `String.prototype.trim` over the
  ECMAScript whitespace and line-terminator characters, ASCII `toLowerCase`,
  `split` on one character with its inverse `join`, and the tag-field chain
  `split(',').map(trim).filter(Boolean)`.
- `records.dfy` (module `Records`): the source, game and pick records, the
  confidence clamp, the shapes a parsed stored state may take and the
  defaulting `loadState` applies to them, id bookkeeping, removal by id and
  `maybeAddSource` as a function on the source list.
- `insights.dfy` (module `Insights`): `refreshInsights` as a method with the
  same loop over the picks, keeping a map from each key to the position of its
  group in a separate sequence of groups, proved equal to a
  specification built from per-key groups; the stable sort by descending
  total, the consensus and the average confidence with `Math.round` written
  out in integers.
- `tracker.dfy` (module `Tracker`): the state object as a class `Store` with
  fields `sources`, `games` and an id counter, and one method per handler
  that changes them. `Valid()` says every id in the state was issued below
  the counter, so every id a method draws is held by nothing.

`crypto.randomUUID` is modelled as that counter. Handlers that the page
binds to one rendered game or pick take the position of that game (and pick)
in the current lists. Confirmation dialogs become a boolean parameter.

The model follows the code as written: a group's average is shown as unavailable whenever its confidence
*sum* is 0 (not only when no confidence was recorded); the notes of a group
are collected for every pick with a non-empty source and only the ones with
non-empty notes are listed; the add-source form appends without checking
for an existing name, so only `maybeAddSource` keeps names distinct.

## Model

| member | source | states |
|---|---|---|
| Strings.TrimSpec | dashboard/app.js:88 | trim keeps the infix of the text between its leading and trailing whitespace, and that infix starts and ends with a non-space |
| Strings.TrimEmptyIffBlank | dashboard/app.js:89 | a text trims to the empty string exactly when it is whitespace only, which is when `filter(Boolean)` drops it |
| Strings.TrimIdempotent | dashboard/app.js:88 | trimming a trimmed text changes nothing |
| Strings.JoinSplit | dashboard/app.js:87 | splitting on a separator loses nothing: joining the pieces with it gives the text back |
| Strings.SplitTagsClean | dashboard/app.js:443-446 | every tag split from a tag field is non-empty, trimmed and free of commas |
| Strings.TrimmedNonBlankAppend | dashboard/app.js:88-89 | trimming and dropping blank pieces works piece by piece: the tags of joined piece lists are the tags of each, in order |
| Strings.SplitTagsComma | dashboard/app.js:443-446 | a comma splits a tag field in two: its tags are the tags before the comma followed by the tags after it, so every non-blank piece is kept, trimmed and in order |
| Strings.SplitTagsSingle | dashboard/app.js:86-89 | an absent or blank tag field yields no tags; a field without commas yields its trimmed self when not blank |
| Records.ClampConfidence | dashboard/app.js:253 | an empty input clears the confidence; a number becomes itself when in [0, 100], 0 below, 100 above |
| Records.ClampIdempotent | dashboard/app.js:253 | clamping a clamped confidence changes nothing |
| Records.NormalizeTagsClean | dashboard/app.js:84-89 | a tags array is kept unchanged, a tags string becomes clean tags, an absent field becomes no tags |
| Records.LoadState | dashboard/app.js:80-90 | absent sources and games become empty lists; each game keeps its fields, its absent picks become empty and its tags are normalised |
| Records.LoadSaved | dashboard/app.js:98-100 | loading what was saved gives back the same sources and games |
| Records.IdBound | dashboard/app.js:73-96 | the counter start chosen after loading lies above every loaded id |
| Records.WithoutIdMembers | dashboard/app.js:157 | removal by id keeps exactly the elements whose id differs from the removed one |
| Records.WithoutIdAppend | dashboard/app.js:157 | removal by id works element by element: the result for a concatenation is the results for its parts, in order, repeats included |
| Records.WithoutIdSingle | dashboard/app.js:157 | a single element is kept exactly when its id differs, so with the previous row the kept elements stay in their order |
| Records.EnsureSource | dashboard/app.js:425-436 | a blank name or one matching an existing name case-insensitively leaves the sources unchanged; otherwise exactly one source with the trimmed name and empty type and url is appended and the old sources are kept; afterwards the name is known |
| Records.EnsureSourceIdempotent | dashboard/app.js:425-436 | registering the same name twice is registering it once |
| Records.EnsureSourceAbsorbs | dashboard/app.js:427-429 | after registering a name, a second name equal to it up to trimming and letter case changes nothing |
| Records.EnsureSourceKeepsNamesDistinct | dashboard/app.js:428-429 | if no two sources share a name up to letter case, that stays so after registering |
| Insights.KeysSpec | dashboard/app.js:290-292 | the grouped keys are exactly the non-blank trimmed choices, each once |
| Insights.KeysFirstSeen | dashboard/app.js:308-312 | groups appear in the order their key is first seen among the picks |
| Insights.TallyCountsEveryPick | dashboard/app.js:290-311 | the group totals add up to the number of picks with a non-blank choice |
| Insights.RefreshInsights | dashboard/app.js:285-315 | the aggregation loop, with its map from each key to a position in the sequence of groups, computes the specified summary: total, sorted breakdown and consensus |
| Insights.InsightsTotal | dashboard/app.js:311 | `totalPicks` is the number of picks whose trimmed choice is not blank |
| Insights.SortByTotalDesc | dashboard/app.js:312 | the breakdown is sorted by descending total, is a permutation of the groups, and keeps the original order among equal totals |
| Insights.BreakdownSpec | dashboard/app.js:290-312 | the breakdown has one group per distinct key, each the group of its key, sorted and stable |
| Insights.RoundRatio | dashboard/app.js:315 | the rounded ratio is the integer nearest to n/d, halves rounded up |
| Insights.ConsensusRange | dashboard/app.js:313-315 | the consensus lies in [0, 100], is 0 when there is no group, and there is no group exactly when no pick has a non-blank choice |
| Insights.ConsensusIsMostCommon | dashboard/app.js:312-313 | no non-blank choice was picked more often than the top group's |
| Insights.ConfidenceSumBounds | dashboard/app.js:299-301 | with clamped confidences a group's sum lies between 0 and 100 times its total |
| Insights.AverageInRange | dashboard/app.js:343-345 | with clamped confidences, a group's average, when shown, lies in [0, 100] |
| Insights.RoundRatioWithin | dashboard/app.js:343-345 | rounding a ratio at most m keeps it within [0, m] |
| Insights.ShownNotesMembers | dashboard/app.js:359-367 | the listed notes are exactly the collected pairs whose notes are not empty |
| Insights.ShownNotesAppend | dashboard/app.js:362-366 | listing works pair by pair: the pairs listed for a concatenation are those of its parts, in the order collected, repeats included |
| Insights.ShownNotesSingle | dashboard/app.js:362-366 | a single pair is listed exactly when its notes are not empty |
| Insights.ThreePicksExample | dashboard/app.js:285-345 | picks A at 60, A at 80 and B at 50 give A first with 2 picks averaging 70, B with 1 averaging 50, and a 67% consensus |
| Tracker.Store.Load | dashboard/app.js:73-96 | the store holds the defaulted parsed state and its counter lies above every id in it |
| Tracker.Store.Save | dashboard/app.js:98-100 | what is saved loads back to the same sources and games |
| Tracker.Store.FreshId | dashboard/app.js:379 | a drawn id is held by no source, game or pick |
| Tracker.Store.AddGame | dashboard/app.js:438-457 | a blank name changes nothing; otherwise a game with a fresh id, the trimmed name, the split tags and trimmed notes, unarchived and without picks, is put first and the old games follow in order |
| Tracker.Store.AddSource | dashboard/app.js:464-476 | a blank name changes nothing; otherwise a source with a fresh id and the trimmed name, type and url is appended |
| Tracker.Store.MaybeAddSource | dashboard/app.js:425-436 | the sources become the registration of the name; games stay; an id is drawn only when a source is added; distinct names stay distinct |
| Tracker.Store.RemoveSource | dashboard/app.js:156-157 | the sources with the id are dropped, the others kept in order; picks naming the source are not touched |
| Tracker.Store.RemoveGame | dashboard/app.js:411-415 | without confirmation nothing changes; with it the games with the id are dropped and the others kept in order |
| Tracker.Store.AddPick | dashboard/app.js:377-384 | one empty pick with a fresh id is appended to the game; nothing else changes |
| Tracker.Store.RemovePick | dashboard/app.js:263-264 | the game's picks with the id are dropped, the others kept in order |
| Tracker.Store.RenumberPicks | dashboard/app.js:393-396 | each pick gets the next fresh id, in order, and nothing else about it changes |
| Tracker.Store.DuplicateGame | dashboard/app.js:389-397 | exactly one game is appended, named with " (copy)", equal to the original apart from its ids, whose ids are fresh and pairwise distinct; the existing games, the original included, are unchanged |
| Tracker.Store.ToggleArchive | dashboard/app.js:402-404 | the game's archived flag flips and nothing else changes |
| Tracker.Store.EditGameNotes | dashboard/app.js:218-220 | the game's notes become the typed text |
| Tracker.Store.SetPick | dashboard/app.js:238-261 | one pick is replaced by one with the same id; every id stays below the counter |
| Tracker.Store.EditPickSource | dashboard/app.js:238-240 | the pick's source becomes the trimmed text and that name is registered as a source; an id is drawn only when a source is added |
| Tracker.Store.EditPickChoice | dashboard/app.js:245-247 | the pick's choice becomes the typed text |
| Tracker.Store.EditPickConfidence | dashboard/app.js:251-254 | the pick's confidence becomes the clamped input, so it is empty or within [0, 100] |
| Tracker.Store.EditPickNotes | dashboard/app.js:258-260 | the pick's notes become the typed text |
| Tracker.Store.FreshGames | dashboard/app.js:504-511 | each imported game is normalised and given a fresh game id and then fresh pick ids, in order |
| Tracker.Store.FreshSources | dashboard/app.js:512-515 | each imported source gets the next fresh id, in order |
| Tracker.Store.Import | dashboard/app.js:501-516 | unless games and sources are both present the import is refused and nothing changes; otherwise both lists are replaced by the file's, same counts, order and non-id fields, with all-new, pairwise distinct ids |
| Tracker.ImportOfSavedKeepsFields | dashboard/app.js:501-516 | importing what was saved gives every game, pick and source back apart from its id |

## Left out

- Rendering: DOM construction, templates, event wiring, the bar widths and labels (dashboard/app.js:102-423) are not modelled; the handlers they wire are.
- Storage and parsing: `localStorage`, `JSON.parse` and `JSON.stringify` are not modelled; the model starts from a parsed state and `Saved` stands for the serialised one.
- The seed data and the fallback to it when nothing readable is stored are not modelled.
- Export (Blob, object URL, anchor click, the date in the file name) and the asynchronous file read in import are I/O and are left out.
- `confirm` is a boolean parameter of `RemoveGame`; `alert` and console logging are left out.
- `crypto.randomUUID` is a counter: ids are natural numbers, fresh by construction.
- Confidences are optional integers: `Number()` coercion, NaN, fractional confidences and floating-point rounding error are not modelled; rounding is exact on rationals.
- The unused `totalConfidence` and `confidenceEntries` accumulators and `toLocaleString` date formatting are left out.
- Letter case is folded on ASCII letters only; other scripts' case mappings are not modelled.
- Tracker.Store.Import: imported tags are normalised as loading would normalise them; the page keeps a tags string as it is until the next load.
- Tracker.Store.Import: an imported record missing a string field is modelled with an empty string, and a present `picks` or `tags` of another JSON type is not modelled.
- Handlers bound to a rendered game or pick act on the object they closed over; the model addresses it by position, so a handler of a game no longer in the list is not modelled.
- Insights.AverageInRange: the bound needs clamped confidences. Only the confidence field's input handler clamps; loading and importing keep a stored confidence such as 150 as it is, and its group's average then shows above 100.
