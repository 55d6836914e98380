# Construction-stage tagging and update check of the VRAGE Tools add-on

This project models two pieces of logic from the VRAGE Tools add-on and proves properties of them.

**The construction-stage tool.** It prepares fractured block meshes for the game's construction stages. The tool:

- detaches the faces of chosen materials into new objects and names each one after the source's `Fracture_<digits>` prefix and a suffix label;
- writes the `ConstructionMesh*` custom properties from a preset table;
- tags objects with a `Group`;
- renames objects to a unique `name.NNN`;
- finds a merge target with matching properties;
- aggregates the `ColliderMeshGroups` string of a group from the other visible meshes that share its root prefix.

**The update check.** It picks the latest `vX.Y.Z` release among the repository's tags. It compares that release with the installed version tuple. It then sets the add-on preferences' `needs_update` flag, `update_message` and cached state.

The project has four modules:

- `PyStr` (`pystr.dfy`): the Python built-ins the logic relies on, with their Python meaning. These are `strip`, `split`, `join`, `replace`, `startswith`, `capitalize`, `int()`, `str(int)`, `f"{n:03}"`, `<` on strings and `sorted` on a set of strings.
- `ConstructionRules` (`construction_rules.dfy`): the pure tables and naming rules of the construction tool. These are the material and suffix tables, the `Fracture_\d+` match (ASCII digits), detached names, preset normalisation, group names, rename targets and the `.NNN` loop, and the list of detach requests.
- `ConstructionScene` (`construction_scene.dfy`): the scene and its in-place updates.
  - `BlendObject` is a class whose `name` and `props` fields the operators change.
  - A mesh's polygons are an `array` whose selection flags are rewritten.
  - `ConstructionSettings` is the panel's property group.
  - Each operator is a method with a `modifies` clause, specified by functions on the old state.
- `UpdateCheck` (`update_check.dfy`): the `rel_ver` pattern, the version parsing, the candidate loop, the latest-release choice, the tuple comparison, and `Preferences.CheckRepoUpdate` over the preferences' fields.

The following are inputs, not computations:

- **Viewport state.** `visible_get`, `hide_viewport` and `hide_get` are constant fields of an object.
- **The host's split and separate.** Their result is the `separated` argument of `DetachFacesWithSuffix`.
- **Existing object names.** The names in `bpy.data.objects` are the `taken` set.
- **The two HTTP responses.** A `Fetch` value stands for them: either the exception case, or both status codes with the tag names and release `tag_name`s.
- **The clock.** `now` is `time.time()` in whole seconds.
- **The cached JSON.** The preferences store it as the decoded lists, with `None` for text that does not decode.

## Model

| member | source | states |
|---|---|---|
| ConstructionRules.FracturePrefix | vrage_tools/tmp_construction_stages_tool.py:85-86 | The match exists exactly when the name starts with `Fracture_` followed by an ASCII digit. The matched group is then a prefix of the name: `Fracture_` plus digits, ended at the first non-digit (greedy `\d+`). |
| ConstructionRules.PrefixSurvivesTail | vrage_tools/tmp_construction_stages_tool.py:132-138 | A matched prefix followed by text that does not start with a digit is matched again to the same prefix. |
| ConstructionRules.PrefixIsFixpoint | vrage_tools/tmp_construction_stages_tool.py:134-138 | Matching the bare prefix again gives the same prefix, so a plain group name always qualifies. |
| ConstructionRules.NoPrefixStaysUnmatched | vrage_tools/tmp_construction_stages_tool.py:132-138 | A name without the prefix does not gain one by appending `_` and a non-digit, so `name_Hide` stays untagged. |
| ConstructionRules.DetachedNameLabel | vrage_tools/tmp_construction_stages_tool.py:85-101 | On one source, two suffixes give the same detached name exactly when their labels agree, so the label can be read back from the name. |
| ConstructionRules.GlassWindowCollide | vrage_tools/tmp_construction_stages_tool.py:89-101 | `glass` and `window` both map to `Glass`, so their detached objects get the same name. `hide` gets a different one. |
| ConstructionRules.DetachedNameKeepsPrefix | vrage_tools/tmp_construction_stages_tool.py:85-101 | A detached object's name carries the same `Fracture_<digits>` prefix as its source. |
| ConstructionRules.NormalisedPreset | vrage_tools/tmp_construction_stages_tool.py:111-118 | A normalised preset, when there is one, is always a key of the preset table. |
| ConstructionRules.NormalisedPresetTable | vrage_tools/tmp_construction_stages_tool.py:14-24 | Each suffix's preset: `switchhide`, `hide_Display01`, `hide_LCDScreen_Off` and `hide` give Hide; `switch` gives none; `cut` gives FractureCut; `glass`/`window` give Glass; `grate` gives GratingMetallic. A preset exists exactly for the Hide variants and the table's non-`switch` keys. |
| ConstructionRules.DetachGroupTaggedIffPrefixed | vrage_tools/tmp_construction_stages_tool.py:131-138 | At detach, `Group` is written exactly when the source name has the Fracture prefix. The group then has the source's prefix, for every preset. |
| ConstructionRules.VariantGroup | vrage_tools/tmp_construction_stages_tool.py:595-601 | A group operator writes a group exactly for prefixed names. The group keeps the name's prefix. For Hide, Support and FrameCut it is the prefix, `_` and the variant name. |
| ConstructionRules.ApplyGroupAlwaysTagged | vrage_tools/tmp_construction_stages_tool.py:279-308 | For a prefixed object, both the group name and the rename target match the object's own prefix, so `Group` is always written. |
| ConstructionRules.NameCandidateInjective | vrage_tools/tmp_construction_stages_tool.py:293-297 | The names the rename loop tries (`target`, `target.001`, ...) are pairwise distinct. |
| ConstructionRules.UniqueName | vrage_tools/tmp_construction_stages_tool.py:293-297 | The loop ends with a name no object holds. That name is the first free candidate, and it is the target itself when the target is free. |
| ConstructionRules.SubpartMaterials | vrage_tools/tmp_construction_stages_tool.py:168 | The `_Subpart` set holds exactly each material name with `_Subpart` appended. |
| ConstructionRules.SubpartPassPreset | vrage_tools/tmp_construction_stages_tool.py:167-171 | The `_Subpart` pass writes the Hide preset for `hide` and no properties for every other suffix. |
| ConstructionRules.DetachFacesBySuffixes | vrage_tools/tmp_construction_stages_tool.py:161-171 | Each pair is processed twice, in order. First it is unchanged. Then every material gets `_Subpart` appended and the suffix becomes `hide` for `hide` and `switch` otherwise. |
| ConstructionScene.MeshDescendantsExact | vrage_tools/tmp_construction_stages_tool.py:26-34 | The traversal yields exactly the mesh-typed descendants, including those below non-mesh children. |
| ConstructionScene.GetAllMeshChildren | vrage_tools/tmp_construction_stages_tool.py:26-34 | The list is the depth-first pre-order sequence of mesh descendants. |
| ConstructionScene.AppendMeshDescendants | vrage_tools/tmp_construction_stages_tool.py:28-32 | The recursion appends that sequence for the subtree to the list built so far. |
| ConstructionScene.SelectFacesByMaterial | vrage_tools/tmp_construction_stages_tool.py:36-52 | Afterwards a polygon is selected exactly when its material index is in range and that slot's material is in the set. Nothing else about a polygon changes. |
| ConstructionScene.AnySelected | vrage_tools/tmp_construction_stages_tool.py:65 | True exactly when some polygon is selected. |
| ConstructionScene.SelectionHits | vrage_tools/tmp_construction_stages_tool.py:58-65 | After the selection, some polygon is selected exactly when some polygon's material was in the set before it. |
| ConstructionScene.TagDetachedEffect | vrage_tools/tmp_construction_stages_tool.py:104-138 | The detached object never keeps `ColliderMeshGroups`. With a preset it gets the table's type and visibility, and the preset key exactly when the tick is set. It gets the group exactly when the source is prefixed. Without a preset nothing else is written. No key outside type, visibility, preset, `Group` and `ColliderMeshGroups` changes. |
| ConstructionScene.DetachedEntryEffect | vrage_tools/tmp_construction_stages_tool.py:118-138 | The same writes for any table row, with the same limit on the keys that change. |
| ConstructionScene.TagOriginalEffect | vrage_tools/tmp_construction_stages_tool.py:141-152 | Without a preset the source is untouched. A Hide or Support preset writes the table's type and visibility and sets the flag exactly when the flag was unset, and never writes `Group`. Any other preset leaves those three keys alone and writes `Group` exactly when the name is prefixed. No other key changes, and a second application changes nothing. |
| ConstructionScene.OriginalEntryEffect | vrage_tools/tmp_construction_stages_tool.py:141-152 | The same writes on the source for any table row, and the same idempotence. |
| ConstructionScene.HideVariantsTagAlike | vrage_tools/tmp_construction_stages_tool.py:112-118 | The three Hide-normalised suffixes tag exactly like `hide`. `switch` only drops `ColliderMeshGroups`. |
| ConstructionScene.ClearTaggedFlag | vrage_tools/tmp_construction_stages_tool.py:154-157 | The reset loop drops `_already_tagged_hide_support` from every scene object and changes nothing else. |
| ConstructionScene.DeleteProp | vrage_tools/tmp_construction_stages_tool.py:61-62 | `if key in obj: del obj[key]`: the key is gone, the other keys and the name are unchanged. |
| ConstructionScene.DetachFacesWithSuffix | vrage_tools/tmp_construction_stages_tool.py:54-159 | The step always deletes lower-case `group` from the source. A new object results exactly when the material set hits a polygon and the separate produced one. That object holds the detached name and its tags, and the source the tags `TagOriginalEffect` describes. The flag reset reaches every scene object when a preset applied. When nothing is detached, no other object changes. |
| ConstructionScene.NameAndTag | vrage_tools/tmp_construction_stages_tool.py:84-159 | The naming and tagging after a successful separate, stated on both objects and on the rest of the scene. The detached object's writes are those of `TagDetachedEffect`, the source's those of `TagOriginalEffect`. |
| ConstructionScene.TagNewObject | vrage_tools/tmp_construction_stages_tool.py:104-138 | The detached object's properties become the tagging function of the old ones, and its name is unchanged. |
| ConstructionScene.WriteDetachedEntry | vrage_tools/tmp_construction_stages_tool.py:118-138 | The detached object's writes for one table row. |
| ConstructionScene.TagSourceObject | vrage_tools/tmp_construction_stages_tool.py:141-152 | The source's new properties are `TagOriginal` of the old ones, whose effect `TagOriginalEffect` states: Hide/Support type and visibility once, guarded by the flag, or the group for other presets. |
| ConstructionScene.WriteSourceEntry | vrage_tools/tmp_construction_stages_tool.py:141-152 | The source object's writes for one table row, as `OriginalEntryEffect` states them. |
| ConstructionScene.ConstructionSettings.constructor | vrage_tools/tmp_construction_stages_tool.py:404-472 | The property declarations' defaults. |
| ConstructionScene.ConstructionSettings.UpdateSelectedPreset | vrage_tools/tmp_construction_stages_tool.py:366-389 | A known preset loads type and visibility with both ticked. It loads preset and tick, except that GratingMetallic forces an empty, unticked preset. Both order fields are cleared and unticked. An unknown name changes nothing. |
| ConstructionScene.ConstructionSettings.LoadEntry | vrage_tools/tmp_construction_stages_tool.py:371-389 | The panel state after loading one table row. |
| ConstructionScene.ConstructionSettings.ClearOrder | vrage_tools/tmp_construction_stages_tool.py:386-389 | Only the order fields and their ticks change. |
| ConstructionScene.ConstructionSettings.SetAll | vrage_tools/tmp_construction_stages_tool.py:474-479 | All five ticks take the value; nothing else changes. |
| ConstructionScene.PresetLoadsTicks | vrage_tools/tmp_construction_stages_tool.py:376-402 | Loading leaves the preset ticked exactly for presets other than Hide and GratingMetallic. |
| ConstructionScene.ApplyTicksEffect | vrage_tools/tmp_construction_stages_tool.py:248-271 | Each of the five keys holds the settings value when ticked and is absent when not. Every other key is untouched. |
| ConstructionScene.ApplyPropertiesToObject | vrage_tools/tmp_construction_stages_tool.py:247-309 | Without a prefix, only the five keys change. With one, the object is renamed to the first free candidate when its name differs from the target; the rename drops `ColliderMeshGroups`. The object then gets its group. |
| ConstructionScene.RenameAndGroup | vrage_tools/tmp_construction_stages_tool.py:279-309 | The prefixed branch alone: the rename, the `ColliderMeshGroups` drop, and the group write. |
| ConstructionScene.ApplyTicksTo | vrage_tools/tmp_construction_stages_tool.py:248-271 | The five set-or-delete steps on the object's dictionary. |
| ConstructionScene.RenameKeepsPrefix | vrage_tools/tmp_construction_stages_tool.py:293-299 | Every candidate name, `.NNN` or not, keeps the object's prefix. |
| ConstructionScene.MergeCandidates | vrage_tools/tmp_construction_stages_tool.py:321-340 | A candidate is a scene object that passes `is_valid_target`, and every object that passes it is a candidate. |
| ConstructionScene.FirstCandidate | vrage_tools/tmp_construction_stages_tool.py:340-345 | The chosen target is the first valid object in scene order. |
| ConstructionScene.MergeIntoExisting | vrage_tools/tmp_construction_stages_tool.py:312-345 | The apply step's full effect comes first. An object without a prefix gets no target. Otherwise the renamed object keeps its prefix and the target is the first candidate, or none. |
| ConstructionScene.GroupOperatorEffect | vrage_tools/tmp_construction_stages_tool.py:595-601 | A prefixed mesh ends with `Group` = prefix + the operator's suffix and no `group`; other keys are untouched. Unprefixed names change nothing. |
| ConstructionScene.StoreGroupEffect | vrage_tools/tmp_construction_stages_tool.py:599-601 | Deleting `group` and then writing `Group` touches no other key. |
| ConstructionScene.GroupOperatorIdempotent | vrage_tools/tmp_construction_stages_tool.py:589-601 | Running a group operator twice equals running it once. |
| ConstructionScene.SetFractureGroup | vrage_tools/tmp_construction_stages_tool.py:589-608 | The `SetFractureGroup{Default,Hide,Support,FrameCut}` loop. Each selected mesh gets the operator's group properties and non-meshes are skipped. All names are unchanged. |
| ConstructionScene.SetGroupOn | vrage_tools/tmp_construction_stages_tool.py:595-601 | The loop body on one mesh. |
| ConstructionScene.Collected | vrage_tools/tmp_construction_stages_tool.py:694-695 | The collected set always holds the object's own group. |
| ConstructionScene.ContributionIncluded | vrage_tools/tmp_construction_stages_tool.py:700-717 | Every group another object contributes is in the set. |
| ConstructionScene.OnlyContributions | vrage_tools/tmp_construction_stages_tool.py:700-719 | A group no object contributes is not in the set. |
| ConstructionScene.CollectedShareRoot | vrage_tools/tmp_construction_stages_tool.py:693-719 | The set holds exactly the own group plus the contributed groups, in both directions. Every member starts with the root prefix. |
| ConstructionScene.RootPrefixIsPlainStartsWith | vrage_tools/tmp_construction_stages_tool.py:715 | The prefix test is a plain `startswith`: with root `Fracture_1`, a `Fracture_10_Hide` group is collected though its own prefix is `Fracture_10`. |
| ConstructionScene.CollectGroups | vrage_tools/tmp_construction_stages_tool.py:694-719 | The loop over `bpy.data.objects` computes the collected set. |
| ConstructionScene.GroupOfOther | vrage_tools/tmp_construction_stages_tool.py:701-717 | One pass: the four `continue` tests, then the stripped `Group`-or-`group` value when it starts with the root. |
| ConstructionScene.ColliderValueSplits | vrage_tools/tmp_construction_stages_tool.py:721-724 | Splitting the written value at the vertical bar gives back the strictly sorted, duplicate-free group list, own group included, when no group holds a vertical bar. |
| ConstructionScene.JoinSorted | vrage_tools/tmp_construction_stages_tool.py:722-723 | The written value is the vertical-bar join of `sorted(set(collected))`. |
| ConstructionScene.SetColliderOn | vrage_tools/tmp_construction_stages_tool.py:674-726 | A visible mesh whose stripped group has the Fracture prefix gets `ColliderMeshGroups` set to that value. Any other object is left alone. Its group entries never change. |
| ConstructionScene.SetColliderMeshGroups | vrage_tools/tmp_construction_stages_tool.py:670-729 | Every selected object ends with its properties as computed from the scene before the operator ran. The later writes do not disturb the earlier values, because only `ColliderMeshGroups` changes. |
| PyStr.Capitalize | vrage_tools/tmp_construction_stages_tool.py:100 | `str.capitalize` on ASCII: first letter upper-cased, the rest lower-cased, same length. |
| PyStr.Pad3 | vrage_tools/tmp_construction_stages_tool.py:296 | `f"{n:03}"` denotes `n` and is the plain decimal left-padded with zeros to exactly three digits, or the plain decimal when that already has three or more. |
| PyStr.Pad3Width | vrage_tools/tmp_construction_stages_tool.py:296 | Below 1000 the number is exactly three digits. From 100 on it is the plain decimal, and below 10 it is `00` followed by the digit. |
| PyStr.NatToStringWidth | vrage_tools/tmp_construction_stages_tool.py:296 | The decimal has at least two, three or four digits exactly from 10, 100 or 1000 on. |
| PyStr.Pad3Injective | vrage_tools/tmp_construction_stages_tool.py:296 | Distinct indices give distinct padded numbers. |
| PyStr.Strip | vrage_tools/tmp_construction_stages_tool.py:687 | The stripped text neither starts nor ends with whitespace. |
| PyStr.StripShape | vrage_tools/tmp_construction_stages_tool.py:687 | The stripped text is a slice of the input with only whitespace before and after it. |
| PyStr.SortSet | vrage_tools/tmp_construction_stages_tool.py:722 | `sorted(set)` is the unique strictly increasing sequence of the set's elements. |
| PyStr.SortedUnique | vrage_tools/tmp_construction_stages_tool.py:722 | Two strictly sorted sequences with the same elements are equal. |
| PyStr.SplitJoin | vrage_tools/tmp_construction_stages_tool.py:723 | Splitting a join at its separator gives back the parts when no part holds the separator. |
| PyStr.IntStringRoundTrip | vrage_tools/utilities/update_check.py:53 | `int(str(i)) == i` for every integer. |
| UpdateCheck.RelVerParts | vrage_tools/utilities/update_check.py:15 | A matching tag is `v`, then three non-empty digit runs joined by `.`, then nothing or one final newline. |
| UpdateCheck.RelVerOfParts | vrage_tools/utilities/update_check.py:15 | Every string of that shape matches, which is the other direction. |
| UpdateCheck.RelVerExamples | vrage_tools/utilities/update_check.py:15 | `v1.2.3` and `v1.2.3\n` match; `1.2.3` and the empty string do not. |
| UpdateCheck.MapAllMeaning | vrage_tools/utilities/update_check.py:70 | `tuple(map(f, parts))` exists exactly when every call succeeds, and then holds the values in order. |
| UpdateCheck.ParseIntsMeaning | vrage_tools/utilities/update_check.py:70 | The same for `int`. |
| UpdateCheck.RelVerParses | vrage_tools/utilities/update_check.py:108-109 | The name of a matching tag without its `v` always parses to three naturals. |
| UpdateCheck.TupleRepr | vrage_tools/utilities/update_check.py:53 | `str` of a tuple is bracketed by `(` and `)`. |
| UpdateCheck.ParseIntStrings | vrage_tools/utilities/update_check.py:53-70 | Parsing the `str` of each element gives the tuple back. |
| UpdateCheck.CurrentVersionParses | vrage_tools/utilities/update_check.py:53-70 | The stored version string parses back to the `bl_info` tuple when it has at least two parts. It fails to parse, which raises ValueError, for a one- or zero-part tuple. |
| UpdateCheck.LongVersionParses | vrage_tools/utilities/update_check.py:53-70 | The two-or-more-part half of that round trip. |
| UpdateCheck.CurrentVersionShape | vrage_tools/utilities/update_check.py:53 | For two or more parts the stored string is the parts' decimals joined with `.`, the `a.b.c` form the preferences show. |
| UpdateCheck.CurrentVersionExample | vrage_tools/utilities/update_check.py:53 | The version `(1, 2, 3)` is stored as `1.2.3`. |
| UpdateCheck.OnePartVersionFails | vrage_tools/utilities/update_check.py:53-70 | `(a,)` is stored as `a,`, which `int()` rejects. |
| UpdateCheck.Candidates | vrage_tools/utilities/update_check.py:90-102 | Every candidate matches `rel_ver` and is both a tag and a release. |
| UpdateCheck.CandidatesMembers | vrage_tools/utilities/update_check.py:93-101 | A name is a candidate exactly when it is a tag, a release and matches `rel_ver`, in both directions. |
| UpdateCheck.CollectVersions | vrage_tools/utilities/update_check.py:91-102 | The nested loop with its `break` at the first equal release computes the candidates in tag order. |
| UpdateCheck.Latest | vrage_tools/utilities/update_check.py:108 | `sorted(..., reverse=True)[0]` is a candidate no other candidate exceeds in string order. |
| UpdateCheck.StringOrderIsNotVersionOrder | vrage_tools/utilities/update_check.py:108 | String order picks `v1.9.0` over `v1.10.0`, although (1, 9, 0) < (1, 10, 0). |
| UpdateCheck.TupleIrreflexive | vrage_tools/utilities/update_check.py:114-122 | No version tuple is below itself. |
| UpdateCheck.TupleTrichotomy | vrage_tools/utilities/update_check.py:114-128 | Of `<`, `==` and `>` on tuples exactly one holds, so the three branches cover all cases. |
| UpdateCheck.TripleOrder | vrage_tools/utilities/update_check.py:114-122 | On triples, tuple order is major, then minor, then patch. |
| UpdateCheck.Decide | vrage_tools/utilities/update_check.py:114-128 | An update is needed exactly when current < latest. The message is then "not installed" for (0, 0, 0), else "<latest> available!". "Latest development version." appears exactly when current > latest, and "up to date" exactly when they are equal. |
| UpdateCheck.LatestVersionName | vrage_tools/utilities/update_check.py:108-109 | The latest name without its `v` always parses. |
| UpdateCheck.LatestVersionNameIsGreatest | vrage_tools/utilities/update_check.py:108 | With `v` put back, that name is a candidate and no candidate exceeds it. |
| UpdateCheck.Evaluate | vrage_tools/utilities/update_check.py:104-128 | With no candidates: "No valid releases found.", no update, latest unchanged. Otherwise the latest name is stored and the decision is the comparison with it. |
| UpdateCheck.ListsToCheck | vrage_tools/utilities/update_check.py:72-90 | When due, the lists are the fresh ones exactly when both statuses are 200. When not due, they are the cache when it decodes. |
| UpdateCheck.Preferences.CheckRepoUpdate | vrage_tools/utilities/update_check.py:60-138 | The flag and message are cleared first. An unparsable current version raises before the `try`, with the stored state unchanged. Otherwise the request or cache step updates the cache only after two 200 responses to a due request. The message and flag then follow the report on the lists, or "Connection Failed!", the rate-limit message or "No valid releases found.". |
| UpdateCheck.Preferences.RunCheck | vrage_tools/utilities/update_check.py:72-138 | The `try` block on a parsed current version. |
| UpdateCheck.Preferences.LoadLists | vrage_tools/utilities/update_check.py:73-90 | The request-or-cache step: the lists returned and the cache and `last_check` written. |
| UpdateCheck.Preferences.ReportOn | vrage_tools/utilities/update_check.py:90-128 | The candidate loop and the decision, written to the flag, the message and `addon_latest_version`. |
| UpdateCheck.CheckUpdate | vrage_tools/utilities/update_check.py:48-57 | The installed version is stored as text and a forced check runs. It raises exactly for fewer than two parts. After a failed request the message is "Connection Failed!". After two 200 responses, `last_check` is now and the flag and message are the report on the fresh lists. Otherwise the stored cache, stamp, latest version, flag and message are exactly those `Checked` gives for a forced check of the current version. |

Notes:

- **The `rel_ver` dollar sign.** `$` in `rel_ver` also matches before a single final newline, so `v1.2.3\n` is a release tag. `int()` strips the newline again, so such a tag still parses (`RelVerParses`).
- **Latest release by string order.** The latest release is chosen by string order, not version order. `StringOrderIsNotVersionOrder` shows what that means. The model keeps the order as written.
- **The version round trip.** The stored current version parses back to the version tuple only when the tuple has two or more parts (`CurrentVersionParses`). The add-on's own three-part `bl_info` version is such a tuple.
- **The GratingMetallic override.** The code comment at line 376 names Support, Glass and GratingMetallic as presets without a preset value, but the code clears the preset only for GratingMetallic. The model follows the code.

## Left out

- Host mesh operations (`mode_set`, `split`, `separate`, `join`, `select_all`, `select_set`, the active object) are not modelled. Their results are inputs, and the join in `merge_into_existing` and the un-hiding of the two objects before it are not modelled.
- `OBJECT_OT_detach_materials.execute` is not modelled: the de-duplication of targets by name, the active-object handling and the optional parenting with its `matrix_world` copies. Only the per-object `detach_faces_by_suffixes` requests are (`DetachFacesBySuffixes`, `DetachFacesWithSuffix`).
- `OBJECT_OT_apply_selected_properties.execute`, `OBJECT_OT_select_objects_by_name`, the panel's `draw`, `register`/`unregister`, and every `report`/`print` call are left out as interface code.
- DetachFacesWithSuffix: the new name is assigned exactly as computed. The host's automatic `.001` renaming on a name clash is not modelled. The mesh the separate returns is an input (`separated`) rather than the last newly selected object.
- Viewport visibility (`visible_get`, `hide_viewport`, `hide_get`) is a fixed field of each object, as the modelled code only reads it.
- SetColliderMeshGroups: it requires the selection to be free of duplicates, as a host selection always is. A duplicate entry would not change the outcome, but the model does not cover it.
- `VRT_OT_GetCurrentVersion` (opening a browser page) and the unused `dev_ver` pattern are left out.
- The HTTP requests, JSON encoding and decoding, and `time.time()` are inputs (`Fetch`, the decoded cache, `now`). Fractional seconds are not modelled.
- The two clock reads of the source (at the due test and at the cache write) are one `now`.
- A JSON document of the wrong shape (a missing `name` or `tag_name`, which raises KeyError into "Connection Failed!") is not modelled. The lists are already the extracted names.
- FracturePrefix: accepts the ASCII digits `0`-`9` only. Python's `\d` on a `str` also matches other Unicode decimal digits, such as Arabic-Indic ones, which the model treats as non-digits.
- SelectFacesByMaterial: a material slot is always a named material. An empty slot (`None`), where reading `.name` raises `AttributeError`, is not modelled.
- Capitalize: upper- and lower-cases ASCII letters only. Python's Unicode case mapping is not modelled; every suffix in the tables is ASCII.
- `int()` is modelled for ASCII digits with an optional sign and surrounding whitespace. Underscore separators and non-ASCII digits, which Python also accepts, are not modelled. No version in the modelled flows contains them.
- `print(e)` in the exception handler is left out.
