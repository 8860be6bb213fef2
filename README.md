# Active quests widget: a Dafny model

The model covers the decision logic of an overlay widget that lists a player's
active quests, together with the background synchroniser that writes the
quest snapshot the widget reads.

**The widget (`widgets/quest.py`).** Pure helpers:

- normalises keyboard combos;
- picks a colour for the time left from a threshold ladder;
- formats a number of seconds through a `%dd %hh %mm %ss` template;
- fills `%token%` placeholders of a line template with HTML-escaped, optionally coloured values.

Its runtime state is the class `Widget.QuestWidget`, with these fields:

- the merged configuration;
- the runtime set of active sectors;
- the last snapshot's quests and timestamp;
- the simulated seconds since that snapshot, and whether the simulation still runs;
- the render-debounce flag.

Its methods are:

- construction;
- reading a snapshot;
- re-reading the configuration;
- the one-second tick;
- queueing a render;
- the shortcut-action handler, which also writes the filter and sort sections back into the configuration document;
- the computational part of a render pass: filter, stable multi-key sort, the displayed time, the header globals, the label count, and each quest's formatted remaining time.

**The synchroniser (`python/logic.py`).** Each poll cycle does the following:

- resolves the active player profile from the game's tables: the first `FPrisonerEntity` with flags 0, then its `entity_system` row;
- reads that profile's world timestamp and active quests;
- attaches each quest's tracking blob as lower-case hex, the Base 16 encoding of section 8 of RFC 4648;
- writes either the full snapshot or the cleared one.

Its configuration loader keeps the user's keys and fills in missing defaults.

Files, the database, the clock, Qt and the shortcut bridge are outside the model:

- **Files** are values. A `FileRead` is missing, unreadable, or a parsed JSON document. A write is returned as the document that would be written.
- **Database tables** are sequences of rows, in the order SQLite returns them.
- **Queued calls** are taken as running one after another.

Python values are modelled explicitly:

- `Values.Value` is a JSON-like sum type. `Truthy` gives Python truthiness.
- A `dict` is an ordered association list (`Values.Dict`), because token substitution follows insertion order.
- String operations (`replace`, `split`, `join`, `lower`, `upper`, `in`) are written out in `Text` and `Html`, for ASCII case mapping.

Modules, one per file: `Wrappers`, `Text`, `Values`, `Html`, `Combo`,
`TimeColor`, `Duration`, `Tokens`, `QuestSort`, `QuestFilter`, `Config`,
`ConfigFile`, `Shortcuts`, `SimClock`, `Render`, `Widget`, `Hex`, `Sync`.

### Notes on the code's behaviour

- **The user configuration is merged at the top level** (`dict.update`). A user `filter` or `sort` section replaces the built-in one whole; it is not merged key by key (`Config.SortOnlyDocument`).
- **There are seven sort-key options**, and `cycle_sort_key` wraps from `data` to `id`.
- **The duration formatter only replaces its four tokens.** A template without `%` comes back unchanged (`Duration.PlainTemplate`).
- **`clear_sort_keys` on a string key keeps its first character.** When `sort.keys` is a single string longer than one character, the code's `len(keys) > 1` holds and it stores `[keys[0]]`, the first character (`Shortcuts.ClearKeys`).
- **A snapshot can hold a profile id with a null timestamp.** A found profile always has its `entity_system` row, because the row it was read from matches it (`Sync.TruthyProfileHasRow`). The timestamp is null when the first `entity_system` row with that `user_profile_id` has a NULL `timestamp` column (`Sync.IdWithoutTime`).

## Model

| member | source | states |
|---|---|---|
| Text.Lower | widgets/quest.py:164 | `lower()` keeps the length and lower-cases each ASCII letter, position by position |
| Text.Upper | widgets/quest.py:399 | `upper()` keeps the length and upper-cases each ASCII letter, position by position |
| Text.JoinSplit | widgets/quest.py:164-165 | joining the pieces of `split(sep)` with `sep` gives the text back |
| Text.SplitJoin | widgets/quest.py:164-170 | splitting a join of separator-free pieces gives the pieces back |
| Text.IntToStringRoundTrip | widgets/quest.py:181-184 | `int(str(k)) == k` for every integer, so a threshold key's text finds its colour entry |
| Values.ValueJsonRoundTrip | widgets/quest.py:801-806 | a configuration value written as JSON reads back as the same value |
| Values.JsonToValue | widgets/quest.py:314 | every scalar JSON document is a value, arrays and objects are not, and the value maps back to the document |
| Values.GetUpdate | widgets/quest.py:216-220 | after `d.update(e)`, a key of `e` has `e`'s value and any other key keeps `d`'s |
| Values.GetSet | widgets/quest.py:729 | after `d[k] = v`, `k` maps to `v` and every other key keeps its value |
| Values.KeysSet | python/logic.py:123-125 | assigning a new key appends it at the end; assigning an existing key keeps the key order |
| Html.Escape | widgets/quest.py:222 | `html.escape` with `quote=True`; its contract is stated by Html.EscapeIsPerChar, EscapeRoundTrip, EscapeHasNoMarkup and EscapePlain |
| Html.EscapeIsPerChar | widgets/quest.py:222 | `html.escape`'s five successive replacements equal escaping each character on its own |
| Html.EscapeRoundTrip | widgets/quest.py:222 | unescaping the escaped text gives the text back |
| Html.EscapeHasNoMarkup | widgets/quest.py:222 | escaped text holds no `<`, `>`, `"` or `'` |
| Html.EscapePlain | widgets/quest.py:222 | text without any of the five special characters is unchanged |
| Html.SafeTextProperties | widgets/quest.py:226 | an inserted value has no space and no markup character, and unescapes back to the raw text |
| Combo.NonEmptyParts | widgets/quest.py:165 | only non-empty pieces of the split are kept |
| Combo.Present | widgets/quest.py:169 | the modifiers present are listed in fixed order, each once |
| Combo.Others | widgets/quest.py:168 | the non-modifier keys keep their order and duplicates |
| Combo.RawKeysAreKeyNames | widgets/quest.py:164-165 | every key piece is non-empty, lower-case and free of spaces and `+` |
| Combo.ArrangeKeeps | widgets/quest.py:166-170 | arranging keeps exactly the modifiers present and all other keys in order |
| Combo.ArrangeModifiersFirst | widgets/quest.py:166-170 | every modifier comes before every other key |
| Combo.ArrangeIdempotent | widgets/quest.py:166-170 | arranging an arranged list changes nothing |
| Combo.NormalizeCombo | widgets/quest.py:160-170 | `_normalize_combo`; its contract is stated by Combo.NormalizeComboShape and Combo.NormalizeComboIdempotent |
| Combo.NormalizeComboShape | widgets/quest.py:160-170 | "" for empty input; otherwise no space, lower case, no empty `+` segment, modifiers once each in ctrl/alt/shift order before the other keys |
| Combo.NormalizeComboIdempotent | widgets/quest.py:160-170 | normalising twice equals normalising once |
| TimeColor.GetTimeColor | widgets/quest.py:174-187 | `get_time_color`; its contract is stated by TimeColor.ColorWithoutSeconds, ColorDefaults, ColorOfLeastThreshold and ColorAboveAll |
| TimeColor.ParseAll | widgets/quest.py:181 | all keys parse as integers in order, or the result names a key that does not |
| TimeColor.SortInts | widgets/quest.py:181 | the thresholds are sorted and a permutation of the parsed keys |
| TimeColor.FirstAtLeastIsLeast | widgets/quest.py:182-184 | the scan finds the smallest threshold at or above the seconds, or there is none |
| TimeColor.ColorOfLeastThreshold | widgets/quest.py:180-184 | the colour is that of the smallest threshold at or above the seconds, so a value on a threshold gets that threshold's colour |
| TimeColor.ColorAboveAll | widgets/quest.py:185 | seconds above every threshold get the largest threshold's colour |
| TimeColor.ColorWithoutSeconds | widgets/quest.py:176-179 | without seconds the colour is the "0" entry, or white |
| TimeColor.ColorDefaults | widgets/quest.py:176-187 | rules that are not a dict, an empty dict, or a non-integer key give white |
| Duration.FormatTimeRemaining | widgets/quest.py:191-210 | `format_time_remaining`; its contract is stated by Duration.NegativeShowsZero, PlainTemplate and DefaultFormatShape, over Duration.Split and Pad2 |
| Duration.Pad2 | widgets/quest.py:202-209 | each field is at least two decimal digits |
| Duration.Pad2RoundTrip | widgets/quest.py:202-209 | the padded field reads back as the number |
| Duration.Split | widgets/quest.py:195-200 | days·86400 + hours·3600 + minutes·60 + secs equals the clamped input, with hours < 24, minutes < 60, secs < 60 |
| Duration.NegativeShowsZero | widgets/quest.py:195-196 | negative seconds format as zero |
| Duration.PlainTemplate | widgets/quest.py:201-210 | a template without `%` comes back unchanged |
| Duration.DefaultFormatShape | widgets/quest.py:191-210 | the default template yields `DDd HHh MMm SSs` from the split fields |
| Tokens.TokenColor | widgets/quest.py:227-256 | the colour chosen for one token; its contract is stated by Tokens.DynamicTimeColor, StaticTokenColor, SectorColorByMembership and UnlistedSectorColor |
| Tokens.TokenText | widgets/quest.py:225-262 | the text put in place of one token; its contract is stated by Tokens.TokenTextShape |
| Tokens.LineHtml | widgets/quest.py:214-265 | `replace_tokens_html`; its contract is stated by Tokens.ReplaceTokensHtml, GlobalsWin, NoTokensNoChange, UnmatchedTokensStay and SingleTokenLine |
| Tokens.Token | widgets/quest.py:260 | the token text `%key%` is at least two characters long |
| Tokens.ReplaceTokensHtml | widgets/quest.py:214-264 | the loop's result is the escaped template with each item's token replaced in dict order, then wrapped when a line colour is given |
| Tokens.GlobalsWin | widgets/quest.py:216-220 | on a shared key the global value wins, otherwise the quest's |
| Tokens.NoTokensNoChange | widgets/quest.py:224-260 | items whose tokens do not occur leave the text unchanged |
| Tokens.UnmatchedTokensStay | widgets/quest.py:222-264 | a template with no matching token is returned escaped, wrapped only by the line colour |
| Tokens.OnlyItsOwnToken | widgets/quest.py:260 | one key's token does not occur in another key's token |
| Tokens.SingleTokenLine | widgets/quest.py:222-264 | a template that is one known token becomes that value's escaped, coloured text |
| Tokens.TokenTextShape | widgets/quest.py:225-259 | a value is escaped with spaces as `&nbsp;` and wrapped in a span only when a colour is chosen; None shows as "" |
| Tokens.DynamicTimeColor | widgets/quest.py:228-231 | a "dynamic" `time_remaining` takes the ladder colour of the remaining seconds |
| Tokens.StaticTokenColor | widgets/quest.py:228 | other keys take their `token_colors` entry |
| Tokens.SectorColorByMembership | widgets/quest.py:234-254 | a listed sector takes its "true"/"false" colour by membership in the active set, falling back to the sector colour |
| Tokens.UnlistedSectorColor | widgets/quest.py:234-254 | an unlisted sector takes the plain sector colour |
| QuestSort.StrCmpProperties | widgets/quest.py:565 | Python's string order is antisymmetric and equal only on equal strings |
| QuestSort.KeyOrdProperties | widgets/quest.py:565 | tuple order is antisymmetric and equal only on equal tuples |
| QuestSort.KeyOrdTrans | widgets/quest.py:565 | tuple order is transitive |
| QuestSort.KeyCmpAgrees | widgets/quest.py:565 | where no number meets a string, Python's comparison agrees with the total order |
| QuestSort.ReferenceTime | widgets/quest.py:554 | the time `time_remaining` is measured from in the sort; its contract is stated by SimClock.DisplayFreezesSortRuns and SimClock.DisplayWhileRunning |
| QuestSort.SortValueOf | widgets/quest.py:551-563 | `sort_value`; its contract is stated by QuestSort.MissingFields and QuestSort.DeadlineTuples |
| QuestSort.SortTuple | widgets/quest.py:565 | the key tuple has one sort value per configured key, in order |
| QuestSort.SortOrder | widgets/quest.py:565 | the sort's index order is a permutation of the quest positions |
| QuestSort.SortQuests | widgets/quest.py:541-568 | the result is a permutation of the input, position by position the quest at the sort order's index |
| QuestSort.SortQuestsUnchanged | widgets/quest.py:547-568 | no keys, or a number compared with a string, returns the input unchanged |
| QuestSort.SortQuestsOrdered | widgets/quest.py:565 | otherwise the result is ordered by the key tuple, reversed for a non-"asc" order, with ties in input order |
| QuestSort.StableOrderUnique | widgets/quest.py:565 | the stable order is the only permutation so ordered |
| QuestSort.TiesKeepInputOrder | widgets/quest.py:565 | quests with equal tuples keep their input order, in both directions |
| QuestSort.DescendingReversesDistinct | widgets/quest.py:549-565 | when all tuples differ, descending is the exact reverse of ascending |
| QuestSort.TiedNotReversed | widgets/quest.py:549-565 | when two quests have equal tuples, the descending order of positions is never the ascending one reversed, since both keep the pair in input order |
| QuestSort.TiedNotReversedDistinct | widgets/quest.py:549-565 | the same for the sorted quests themselves, when no two quests are equal |
| QuestSort.AllTiedKeepOrder | widgets/quest.py:565 | when every quest has the same tuple, the sort returns the input, ascending or descending |
| QuestSort.TiedPalindrome | widgets/quest.py:565 | with tied tuples, `[a, b, a]` sorts descending to its ascending result reversed, so the quest-level statement needs pairwise different quests |
| QuestSort.MissingFields | widgets/quest.py:552-563 | a missing field sorts as "" and a missing deadline as 0 minus the reference |
| QuestSort.DeadlineExampleAscending | widgets/quest.py:551-565 | deadlines 100, 50, 200 sort ascending as 50, 100, 200 |
| QuestSort.DeadlineExampleDescending | widgets/quest.py:551-565 | and descending as 200, 100, 50 |
| QuestFilter.FilterQuests | widgets/quest.py:518-537 | the loop keeps exactly the quests the filter specification keeps, in order; a non-list gives [] |
| QuestFilter.FilterItems | widgets/quest.py:523-537 | the loop over a list keeps exactly the quests the filter specification keeps, in order |
| QuestFilter.Include | widgets/quest.py:526-534 | one quest is kept iff the filter is not restricting (disabled, or no true sector flag) or its upper-cased sector is active |
| QuestFilter.FilterIsSubsequence | widgets/quest.py:524-537 | the result is an order-preserving subsequence |
| QuestFilter.FilterMembership | widgets/quest.py:525-536 | a quest is kept iff it is in the input and passes the sector test |
| QuestFilter.FilterOffKeepsAll | widgets/quest.py:528-534 | with the filter disabled or no true sector value, every quest is kept |
| QuestFilter.FilterKeepsPassing | widgets/quest.py:518-537 | if every quest passes, the list is unchanged |
| QuestFilter.FilterIdempotent | widgets/quest.py:518-537 | filtering twice equals filtering once |
| QuestFilter.NotAListGivesNothing | widgets/quest.py:520-521 | a quests value that is not a list yields [] |
| Config.DefaultConfig | widgets/quest.py:19-134 | `DEFAULT_CONFIG`; its contract is stated by ConfigFile.NoFileKeepsDefaults and Render.PlaceholderHidesHeaderLine |
| Config.MergeUser | widgets/quest.py:313-320 | a document that is not an object leaves the configuration as it was |
| Config.MergeFields | widgets/quest.py:313-320 | for a document that is an object, every top-level key it gives replaces that section whole and every key it omits keeps the base value |
| Config.MergeComposes | widgets/quest.py:313-320 | merging two documents one after the other equals one merge in which the later document's keys win and the earlier one fills the rest |
| Config.MergeIdempotent | widgets/quest.py:379 | merging the same document twice equals merging it once |
| Config.MergeEmpty | widgets/quest.py:313-320 | an empty document keeps the base configuration |
| Config.SortOnlyDocument | widgets/quest.py:317-320 | a document with only a `sort` section replaces that section whole and nothing else |
| ConfigFile.ReadOrEmpty | widgets/quest.py:267-274 | a missing or unreadable file, or a falsy document, reads as `{}` |
| ConfigFile.EntriesRoundTrip | widgets/quest.py:801-806 | a sector map written as JSON reads back as the same entries |
| ConfigFile.FilterRoundTrip | widgets/quest.py:801-806 | a well-formed filter section written and read back is unchanged |
| ConfigFile.SortRoundTrip | widgets/quest.py:801-806 | a sort section written and read back is unchanged |
| ConfigFile.FromJsonWellFormed | widgets/quest.py:396-401 | a filter section read from JSON is well formed |
| ConfigFile.LoadUserDoc | widgets/quest.py:314-315 | the document is ignored exactly when the read value is not an object |
| ConfigFile.NoFileKeepsDefaults | widgets/quest.py:313-320 | with no usable file the widget starts with the built-in configuration |
| ConfigFile.SaveConfig | widgets/quest.py:798-808 | a document is written exactly when the file reads as an object, and it is a non-empty object |
| ConfigFile.SaveConfigWrites | widgets/quest.py:801-803 | the written document's `filter` and `sort` are the widget's sections |
| ConfigFile.SaveConfigKeepsOthers | widgets/quest.py:801-806 | every other key keeps the file's value |
| ConfigFile.SaveConfigKeepsOrder | widgets/quest.py:801-806 | the file's keys keep their order at the front of the written document |
| ConfigFile.SaveIdempotent | widgets/quest.py:798-808 | saving the same sections over the saved document writes the same document |
| ConfigFile.SaveThenLoad | widgets/quest.py:798-808 | loading the saved document restores the widget's filter and sort |
| Shortcuts.ToggleFilter | widgets/quest.py:722-723 | `toggle_filter` negates `enabled` and keeps the sectors |
| Shortcuts.ToggleSector | widgets/quest.py:726-729 | a sector toggle succeeds unless `sectors` is not a map, and touches only the sector map |
| Shortcuts.SectorCodeOfAction | widgets/quest.py:727 | for a code without the letter `t` (the built-in codes A0, Z3, B4 and C2 among them), the code is the text after `toggle_sector_`, upper-cased; `str.replace` removes every occurrence of the prefix text, so a code containing it would lose that part too |
| Shortcuts.ToggleSectorFlips | widgets/quest.py:726-729 | the sector's entry is negated, absent counting as False; other entries are unchanged |
| Shortcuts.ActiveSectorsOfMap | widgets/quest.py:393-403 | a code is active iff some key upper-casing to it has a truthy value |
| Shortcuts.ToggleSectorActive | widgets/quest.py:726-729 | after a toggle, the sector is active iff its entry was falsy |
| Shortcuts.ToggleSectorKeepsOthers | widgets/quest.py:726-729 | every other sector keeps its active state |
| Shortcuts.OptionsDistinct | widgets/quest.py:137-145 | the seven sort-key options are distinct |
| Shortcuts.IndexOf | widgets/quest.py:746 | the first position of the key, or -1 iff absent |
| Shortcuts.OptionPosition | widgets/quest.py:746 | each option is found at its own position |
| Shortcuts.Successor | widgets/quest.py:746-749 | the successor is always an option; an unknown key's successor is `id` |
| Shortcuts.SuccessorOf | widgets/quest.py:746-749 | each option's successor is the option at the next position |
| Shortcuts.CycleKeys | widgets/quest.py:738-755 | cycling succeeds exactly unless the keys are a single string, and yields a key list |
| Shortcuts.CycleWraps | widgets/quest.py:749 | a last key `data` becomes `id` |
| Shortcuts.CycleUnknownKey | widgets/quest.py:746-749 | an unknown last key becomes `id` |
| Shortcuts.CycleSevenTimes | widgets/quest.py:749 | seven cycles return to the starting key |
| Shortcuts.FirstUnusedFrom | widgets/quest.py:760-763 | the first option from a position on that is not among the keys |
| Shortcuts.FirstUnusedOption | widgets/quest.py:760-763 | the loop finds the first unused option, or none |
| Shortcuts.AddKey | widgets/quest.py:758-764 | a key list gains at most the first unused option; a string key succeeds only when every option occurs in it as a substring |
| Shortcuts.AddKeyExtendsOptions | widgets/quest.py:758-764 | on the first i options, the next option is appended |
| Shortcuts.AddKeyWhenFull | widgets/quest.py:760-764 | with all seven options present nothing changes |
| Shortcuts.ClearKeys | widgets/quest.py:767-770 | at most one key remains, and a key list keeps its first key |
| Shortcuts.ClearKeepsFirst | widgets/quest.py:767-770 | a non-empty list is cut to its first key, and clearing again changes nothing |
| Shortcuts.ApplyShortcut | widgets/quest.py:718-774 | an unknown action is reported unknown; a known one changes only the filter and sort sections |
| Shortcuts.OrderActions | widgets/quest.py:732-735 | `sort_order_asc`/`desc` set the order and keep the keys |
| Shortcuts.ToggleFilterTwice | widgets/quest.py:722-723 | toggling the filter twice restores `enabled` |
| SimClock.Ingest | widgets/quest.py:470-474 | a present timestamp becomes current; a new one restarts the simulation at 0, otherwise nothing changes |
| SimClock.IngestSameSnapshot | widgets/quest.py:470-474 | reading the same snapshot twice equals reading it once |
| SimClock.Advance | widgets/quest.py:483-496 | a tick adds one second and the simulation stays active only below the duration |
| SimClock.RunAfterSnapshot | widgets/quest.py:483-496 | k ticks after a snapshot the clock shows k seconds and is active iff k = 0 or k < duration |
| SimClock.StoppedStaysStopped | widgets/quest.py:495-496 | a stopped simulation stays stopped while seconds keep counting |
| SimClock.DisplayTimestamp | widgets/quest.py:583-586 | the time shown in the header; its contract is stated by SimClock.DisplayFreezesSortRuns and SimClock.DisplayWhileRunning |
| SimClock.SortReference | widgets/quest.py:554 | the sort's reference time for the widget's clock; its contract is stated by SimClock.DisplayFreezesSortRuns and SimClock.DisplayWhileRunning |
| SimClock.DisplayFreezesSortRuns | widgets/quest.py:583-586 | once stopped, the display freezes at the timestamp while the sort reference keeps advancing |
| SimClock.DisplayWhileRunning | widgets/quest.py:583-586 | while running, the display equals the sort reference `timestamp + simulated` |
| Render.ShowQuests | widgets/quest.py:576-579 | the quests shown are the stored list (empty when there is none) filtered by the active sectors and then sorted by the configured keys |
| Render.RenderPass | widgets/quest.py:572-643 | the pass computed step by step gives exactly the render view: the shown quests with their remaining times, the header globals and the label count, or a render error |
| Render.SortedListOf | widgets/quest.py:593 | the active sectors listed strictly ascending, each once |
| Render.StrictlySortedUnique | widgets/quest.py:593 | only one strictly sorted list has a given set of members |
| Render.SortedSectors | widgets/quest.py:593 | the insertion loop yields that sorted list |
| Render.Globals | widgets/quest.py:589-599 | the globals dict of a render pass; its contract is stated by Render.GlobalsUnique and Render.ViewGlobals |
| Render.View | widgets/quest.py:572-643 | what a render pass computes; its contract is stated by Render.ViewGlobals, ViewQuests and ViewFails, and Render.RenderPass computes it step by step |
| Render.GlobalsUnique | widgets/quest.py:589-599 | the globals are a proper dict holding count, time, filter state, sector text, sort keys and sort order, in that order |
| Render.RequiredLabels | widgets/quest.py:601-604 | at least one label, and header plus one label per quest line (one when there are no lines) |
| Render.Remaining | widgets/quest.py:641-642 | no displayed time, or time 0, gives 0 remaining |
| Render.TextDeadlineFails | widgets/quest.py:641-642 | a non-empty text deadline raises iff a time is displayed |
| Render.Annotate | widgets/quest.py:640-643 | on success there is one annotated quest per shown quest |
| Render.AnnotateQuests | widgets/quest.py:640-643 | the loop computes the annotation or stops at the first error |
| Render.AnnotateFailsOnward | widgets/quest.py:640-643 | an error among the first k quests stops the whole pass |
| Render.AnnotateAt | widgets/quest.py:640-643 | on success each quest gains its formatted remaining time |
| Render.AnnotateFails | widgets/quest.py:640-643 | the pass fails iff some shown quest's remaining time raises |
| Render.ViewGlobals | widgets/quest.py:575-604 | the header shows the shown count, the displayed time, the filter flag, the sorted sectors or "ALL", the sort keys joined with ", " ("" without keys; a key given as a string is joined character by character), the sort order or "", and enough labels |
| Render.ViewQuests | widgets/quest.py:575-643 | each shown quest keeps its fields and gains its remaining time from the displayed time |
| Render.ViewFails | widgets/quest.py:640-643 | with the placeholder in its corrected label, a render error happens iff a shown quest's remaining time raises |
| Render.PlaceholderAsWritten | widgets/quest.py:661-663 | the placeholder is written to label 1, which exists only when there are two labels |
| Render.PlaceholderHidesHeaderLine | widgets/quest.py:661-663 | with the built-in header the placeholder lands on a header label |
| Render.PlaceholderMissingLabel | widgets/quest.py:661-663 | with no header lines the first empty pass has no label 1 |
| Render.LabelsNeeded | widgets/quest.py:601-604 | with no quests there is a label after the header; otherwise the label count is unchanged |
| Render.PlaceholderAfterHeader | widgets/quest.py:661-663 | the corrected placeholder slot follows the header and always exists |
| Widget.MissingData | widgets/quest.py:464-468 | a missing snapshot reads as an object with no timestamp and no quests |
| Widget.MissingDataClears | widgets/quest.py:464-476 | a missing snapshot keeps the clock and shows no quests |
| Widget.QuestWidget.constructor | widgets/quest.py:311-348 | from a snapshot document that is an object: the configuration is the defaults merged with the user file, the active sectors come from the filter, the clock has read the snapshot, and a render is queued |
| Widget.QuestWidget.LoadActiveSectors | widgets/quest.py:393-403 | the active set is derived from the filter map; nothing else changes |
| Widget.QuestWidget.LoadDataJson | widgets/quest.py:453-476 | for an object, the clock ingests the timestamp and the quests are always replaced; a document that is not an object raises at `data.get` and changes nothing |
| Widget.QuestWidget.ReloadConfig | widgets/quest.py:367-390 | the file is merged into the current configuration and the active sectors are re-read |
| Widget.QuestWidget.ScheduleRender | widgets/quest.py:510-515 | a render is queued only when none is pending; the flag is then set |
| Widget.QuestWidget.Tick | widgets/quest.py:481-505 | one simulated second with duration and interval read before the reload, a reload when due, and a render queued only when visible and the snapshot read did not raise on a document that is not an object |
| Widget.LoadsEveryRefresh | widgets/quest.py:498-499 | the snapshot is re-read exactly every `refresh_interval` ticks, and not between |
| Widget.QuestWidget.Render | widgets/quest.py:572-677 | the pass yields the render view of the state it started from, filtered by the sectors the configuration marks active; the debounce flag is cleared either way and the invariant is kept |
| Widget.QuestWidget.OnShortcutTriggered | widgets/quest.py:712-796 | a known action updates the configuration and writes the document; an unknown one or a failing one changes nothing; the invariant is kept |
| Widget.LoadedFilterWellFormed | widgets/quest.py:377-384 | re-reading any file keeps the filter section well formed |
| Widget.ApplyKeepsWellFormed | widgets/quest.py:722-774 | no shortcut turns the sector map into a non-map |
| Widget.ShortcutSurvivesRestart | widgets/quest.py:779 | a shortcut's effect on filter and sort survives a restart that reads the saved file |
| Hex.DigitValue | python/logic.py:203 | a character is a lower-case hex digit iff it has a value, and the value's digit is that character |
| Hex.DigitRoundTrip | python/logic.py:203 | each digit reads back as its value |
| Hex.Encode | python/logic.py:203 | two lower-case digits per byte, high half first |
| Hex.DecodeEncode | python/logic.py:203 | the encoding decodes back to the blob |
| Hex.EncodeDecode | python/logic.py:203 | a decodable text is already the canonical encoding of its bytes |
| Hex.EncodeInjective | python/logic.py:203 | different blobs have different encodings |
| Sync.FirstActivePrisoner | python/logic.py:135-142 | the first row with class `FPrisonerEntity` and flags 0, or none |
| Sync.SystemById | python/logic.py:145-151 | the first `entity_system` row whose id equals the entity's system id; NULL matches nothing |
| Sync.SystemByProfile | python/logic.py:163-171 | the first `entity_system` row of the profile |
| Sync.ActiveProfileId | python/logic.py:133-151 | `get_active_user_profile_id`; its contract is stated by Sync.ActiveProfileCases and Sync.FirstPrisonerWins |
| Sync.WorldTimestamp | python/logic.py:155-174 | `get_world_timestamp`; its contract is stated by Sync.CycleCases and Sync.IdWithoutTime |
| Sync.ActiveProfileCases | python/logic.py:133-151 | the profile is None with no matching entity or system row, and otherwise the system row's profile id |
| Sync.FirstPrisonerWins | python/logic.py:140 | later rows never change the chosen profile; ambiguity is not checked |
| Sync.ActiveQuests | python/logic.py:177-185 | at most one quest per row |
| Sync.ActiveQuestsOfProfile | python/logic.py:177-185 | a quest is listed iff it comes from a row of the profile |
| Sync.TrackingFor | python/logic.py:193-198 | the first tracking row of the quest id |
| Sync.AttachTrackingData | python/logic.py:189-208 | same length and order; each quest gains exactly its `data` |
| Sync.WithDataFields | python/logic.py:199-207 | `data` is always set, and every other field is untouched |
| Sync.DataNullCases | python/logic.py:199-207 | `data` is None iff there is no tracking row or its blob is NULL |
| Sync.NoIdNoData | python/logic.py:192-207 | a quest without an id gets None |
| Sync.DataDecodes | python/logic.py:201-203 | a present blob is stored as lower-case hex of twice its length, which decodes back to it |
| Sync.RunCycle | python/logic.py:264-275 | the cycle writes the snapshot its branch calls for |
| Sync.CycleSnapshot | python/logic.py:264-275 | the snapshot one cycle writes; its contract is stated by Sync.CycleCases and Sync.RunCycle |
| Sync.CycleCases | python/logic.py:266-275 | a falsy profile gives the cleared snapshot; otherwise the profile, its world timestamp and the quests with data |
| Sync.IdWithoutTime | python/logic.py:155-174 | a profile whose first `entity_system` row has a NULL `timestamp` column yields a snapshot with an id and a null timestamp |
| Sync.TruthyProfileHasRow | python/logic.py:145-170 | a found profile always has an `entity_system` row, the one its id was read from, so the snapshot's time is the `timestamp` column of the profile's first row and is null exactly when that column is NULL |
| Sync.SyncConfigOf | python/logic.py:111-129 | the configuration is an object, or the user's non-object value that let the fill-in pass |
| Sync.LoadOrCreateConfig | python/logic.py:111-129 | the loop yields that configuration, and the defaults are written only when the file is missing |
| Sync.FillDefaults | python/logic.py:123-125 | the loop that adds missing default keys; its contract is stated by Sync.FillDefaultsKeeps and Sync.ScanIntervalDefault |
| Sync.FillDefaultsKeeps | python/logic.py:123-125 | user keys keep their values and only missing default keys are added |
| Sync.ScanIntervalDefault | python/logic.py:112-126 | `scan_interval` is the user's value, or 4, and every user key is kept |

## Left out

- **Qt:** the label pool, fonts and font metrics, the scroll area, and the text written into labels. `Render.View` stops at the values the labels are built from, and the per-label `replace_tokens_html` calls are not assembled.
- **Threads and timers:** the QTimer, `QMetaObject.invokeMethod` and the bridge worker thread. Queued calls are modelled as if run in sequence.
- Widget.QuestWidget.OnShortcutTriggered: assumes the two queued calls run. `QMetaObject.invokeMethod` calls `_load_active_sectors_from_config` and `schedule_render` by name (widgets/quest.py:785, 790), and neither is declared a `@Slot`. Qt may refuse such a call, and the `except` blocks at widgets/quest.py:786-788 and 791-792 swallow the error. The model reloads the active sectors and queues a render right after the save. If the calls are refused, the sectors are only re-read at the next due tick's configuration reload (widgets/quest.py:488-490), after the save changed the file's mtime.
- **The shortcut bridge:** `bridge.on`/`off` registration and teardown. Only `_normalize_combo` is modelled.
- **File I/O:** `read_json_safe`, `ensure_dir`, `json.dump` and the mtime checks. Each read is an `Option<FileRead>` parameter that is present when the file changed; each write is returned as a value.
- **`_ensure_config`:** writing the full configuration when the file is missing is not modelled.
- **`_save_filter_to_config` and `_save_sort_to_config`:** never called (their calls are commented out), so not modelled.
- **Shallow-copy aliasing:** `DEFAULT_CONFIG.copy()` is shallow, so in-place edits of `filter` and `sort` also change the built-in defaults. The configuration is modelled as a value instead.
- **Ill-typed configuration values:** the model reads a value of the wrong JSON type as if the key were missing, so the previous value stays in force. Python uses the value and raises later. The members concerned follow.
- ConfigFile.LoadUserDoc: a `filter` or `sort` section of the wrong JSON type counts as missing. The one exception is a `sectors` entry that is not an object, which the model keeps.
- ConfigFile.IntField, ConfigFile.TextField, ConfigFile.LengthField: a top-level `refresh_interval`, `time_simulation_duration`, `time_remaining_format`, `header` or `lines` of the wrong type counts as missing. A JSON boolean counts as missing too, where Python uses it as 0 or 1. In Python, a text `refresh_interval` makes `self._simulated_time % refresh_interval` raise on every tick (widgets/quest.py:498), so no snapshot is read and no render is queued. A `header` or `lines` that is not a list, or a `time_remaining_format` that is not a string, breaks the render pass.
- ConfigFile.FilterFromJson, ConfigFile.SortFromJson: a non-scalar `enabled`, a non-string `order` or a key that is not a string makes the whole section count as missing. In Python a non-string `sort.order` raises at `.lower()` (widgets/quest.py:549), outside the `try`, so every render pass ends in an error.
- **Key order inside written sections:** only the top-level key order of the written document is modelled.
- ConfigFile.SaveConfig: keys inside `filter` or `sort` other than `enabled`/`sectors` and `keys`/`order` are not kept on save. Python keeps the user's section dict whole on load (widgets/quest.py:317-320) and writes it back unchanged (widgets/quest.py:801-802). The model's sections hold only the keys the widget reads.
- **Floats in the sort:** `float(val)` is modelled for integers only. Floating point is out of scope.
- **Unicode:** `lower()`/`upper()` map ASCII letters only.
- QuestSort.SortQuests: one number compared with one string anywhere in the key tuples returns the input unchanged. Python's sort raises only if it actually makes that comparison, so this approximates timsort's choice of comparisons.
- **The `active_sectors` global:** holds the Python set object itself, and its text depends on hash order. The model takes that text as the parameter `activeRepr`.
- **A quest's own `globals` field:** `render_globals.update(quest.get("globals", {}))` is not part of `Render.View`. `Tokens.Combined` takes the globals as given.
- **Persistence of `time_remaining`:** the formatted `time_remaining` is written into the quest objects in place, and that write persisting into the next pass is not modelled. Each pass starts from the snapshot's quests.
- **Non-dict list elements:** the quests list is modelled as a list of dicts; other element types are not represented.
- **The placeholder label in `Render.View`:** label writes are Qt work. The view carries the corrected label count (`Render.LabelsNeeded`), which gives the placeholder its own label after the header. The code as written is stated separately under "Findings".
- Render.ViewFails: covers only the annotation step. The code as written also fails when no quest is shown and the label pool holds fewer than two labels: `self._quest_labels[1]` raises an IndexError (widgets/quest.py:663), which the `except` at widgets/quest.py:674-675 reports as a render error. `Render.PlaceholderMissingLabel` exhibits that case; the view follows the corrected placeholder, so it is not among `ViewFails`' causes.
- **SQLite plumbing:** connections, PRAGMAs, index creation, database path detection, logging and the `logic_main_init` thread are not modelled.
- **SQLite type affinity:** values are compared with SQL equality on the model's values, and NULL matches nothing. Rows come back in table order.
- **The `data` column:** a tracking `data` column that holds something other than a blob is not modelled.
- **The sleep loop:** the synchroniser's `time.sleep(SCAN_INTERVAL)` / `stop_event` loop is not modelled. `Sync.RunCycle` is one iteration, and how `scan_interval` is used stays outside the model.
- **Snapshot timestamp type:** the snapshot's timestamp is an integer or absent. A non-integer timestamp in the snapshot file is not represented.
- Widget.QuestWidget.constructor: requires the snapshot document to be an object. In Python, a snapshot file holding valid JSON that is not an object (`[]`, `null`, `5`, `"x"`) makes `data.get` raise at widgets/quest.py:470; the call at widgets/quest.py:347 is outside any `try`, so the widget is never built. A Dafny constructor cannot fail, so the model leaves that case to its callers. `LoadDataJson` and `Tick` model the same case.

## Findings

| source | as written | input that shows it | evidently intended | confidence | as-written member | corrected member |
|---|---|---|---|---|---|---|
| widgets/quest.py:661-663 | when no quest is shown, the "no active quests" placeholder is written into label 1 | the built-in configuration (four header lines) with no quests: label 1 is the "Last sync" header line, which the placeholder overwrites; with no header lines and no earlier labels only one label exists and `_quest_labels[1]` raises an index error, reported as a render error | the placeholder goes into the first label after the header, and that label is created | not executed | Render.PlaceholderAsWritten (with Render.PlaceholderHidesHeaderLine, Render.PlaceholderMissingLabel) | Render.PlaceholderAfterHeader (with Render.LabelsNeeded) |
