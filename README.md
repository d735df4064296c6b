# Hamster configuration core, modelled in Dafny

Hamster is an iOS keyboard built on the RIME input engine. This project models
three pieces of its configuration logic and proves what they promise.

- **Deep merge of configurations** (`HamsterConfiguration.swift`). `deepMerge`
  merges two string-keyed JSON trees. A key only in the base is kept, a key
  only in the overlay is adopted, two nested objects merge recursively, and any
  other collision goes to a resolver supplied by the caller, which may throw.
  `merge(with:uniquingKeysWith:)` encodes both configurations, deep-merges them
  and decodes the result. `deep_merge.dfy` holds the imperative loop
  (`DeepMerge`, which visits the overlay's keys in an unspecified order) and
  proves it against order-independent definitions: `Succeeds` (no collision
  makes the resolver fail) and `Merged` (the merged map, key by key).
- **Swipe configuration codec** (`KeyboardSwipeConfiguration.swift`). A keyed
  coding container is the map from coding key to value. `encode(to:)` becomes
  a function from record to map, and `init(from:)` a function from map to
  record or decoding error (`swipe_codec.dfy`).
- **Migration of version-1 settings** (`SettingsViewModel.swift`,
  `_setupConfigurationForV1Update`). Each stored legacy setting is copied into
  the shared configuration through optional chaining. The legacy table of swipe
  symbols is translated into per-key swipe lists. These lists then replace the
  first Chinese entry of the built-in keyboards' swipe settings, or are
  appended to them (`settings_migration.dfy`). The shared configuration is a
  field of the class `HamsterAppDependencyContainer`. The migration methods update it
  in place.

`keyboard_types.dfy` holds the keyboard vocabulary both files share,
`json.dfy` the JSON tree, and `wrappers.dfy` the `Option` and `Result` types.

The specification functions named in the table are these.
`HamsterConfigurationMerge.Merged` and `Succeeds` define the merge.
`KeyboardSwipeCodec.EncodeConfiguration` and `DecodeConfiguration` define the
codec. `SettingsMigration.MigrateSettings` gives the configuration once every
scalar legacy setting is copied. `TranslateEntry` gives what one legacy swipe
entry contributes. `Accepted` gives the accepted entries in iteration order.
`SwipesFor` gives the swipes of one key. `ReplaceOrAppend` gives the keyboard
swipe list once the new Chinese entry is installed.

The configuration's own source spells the configuration's keyboard section `Keyboard`
(HamsterConfiguration.swift:20), but the migration writes `keyboard`. The model
calls it `keyboard`.

## Model

| member | source | states |
|---|---|---|
| HamsterConfigurationMerge.Succeeds | Packages/HamsterKeyboardKit/Sources/Configuration/Models/HamsterConfiguration.swift:67-81 | the merge succeeds when every collision at any depth, a pair of nested objects excepted, is resolved without error; it cannot fail when the two maps share no key (characterised further by `FailsIffResolverFails` and `DisjointMerge`) |
| HamsterConfigurationMerge.Merged | Packages/HamsterKeyboardKit/Sources/Configuration/Models/HamsterConfiguration.swift:67-81 | the merged map has exactly the keys of both sides; key by key, as `MergedKeys`, `OverlayWinsMerge` and `BaseWinsMerge` state, and it is what `DeepMerge` computes |
| HamsterConfigurationMerge.DeepMerge | Packages/HamsterKeyboardKit/Sources/Configuration/Models/HamsterConfiguration.swift:67-81 | the merge succeeds exactly when no collision, at any depth, makes the resolver fail; on success the result is `Merged`; on failure the error is one the resolver raised on a collision; the loop invariant keeps every unvisited overlay key at its base value, so testing `result[k2]` is testing `d1[k2]` |
| HamsterConfigurationMerge.Merge | Packages/HamsterKeyboardKit/Sources/Configuration/Models/HamsterConfiguration.swift:52-65 | an encoding error of either side is returned; otherwise the result is the decoding of the merged map, or a resolver error when the merge fails; an overlay that encodes to nothing returns a base that survives its own round trip |
| HamsterConfigurationMerge.MergedKeys | Packages/HamsterKeyboardKit/Sources/Configuration/Models/HamsterConfiguration.swift:68-80 | the merged keys are exactly the base's keys plus the overlay's; a key of only the base keeps its value, a key of only the overlay takes its value |
| HamsterConfigurationMerge.DisjointMerge | Packages/HamsterKeyboardKit/Sources/Configuration/Models/HamsterConfiguration.swift:73-76 | maps with no common key merge into their union whatever the resolver, even one that always fails, so the resolver is never consulted for a key of one side |
| HamsterConfigurationMerge.FailsIffResolverFails | Packages/HamsterKeyboardKit/Sources/Configuration/Models/HamsterConfiguration.swift:67-79 | the merge fails if and only if the resolver raises an error on some collision handed to it, at any depth |
| HamsterConfigurationMerge.EmptyOverlayIsIdentity | Packages/HamsterKeyboardKit/Sources/Configuration/Models/HamsterConfiguration.swift:68-80 | an empty overlay leaves the base unchanged |
| HamsterConfigurationMerge.EmptyBaseIsIdentity | Packages/HamsterKeyboardKit/Sources/Configuration/Models/HamsterConfiguration.swift:68-80 | an empty base gives the overlay |
| HamsterConfigurationMerge.OverlayWinsMerge | Packages/HamsterKeyboardKit/Sources/Configuration/Models/HamsterConfiguration.swift:51-81 | with the resolver `{ $1 }` the merge never fails, every overlay value is in the result at its path at every depth, and keys of the base alone are kept |
| HamsterConfigurationMerge.BaseWinsMerge | Packages/HamsterKeyboardKit/Sources/Configuration/Models/HamsterConfiguration.swift:51-81 | with the resolver `{ $0 }` the merge never fails and every base value survives at its path at every depth |
| HamsterConfigurationMerge.NestedMergeExample | Packages/HamsterKeyboardKit/Sources/Configuration/Models/HamsterConfiguration.swift:70-71 | two nested objects under one key merge field by field |
| HamsterConfigurationMerge.MismatchExample | Packages/HamsterKeyboardKit/Sources/Configuration/Models/HamsterConfiguration.swift:70-74 | an object meeting a scalar is a collision for the resolver, not a recursive merge |
| KeyboardSwipeCodec.EncodeConfiguration | Packages/HamsterKeyboardKit/Sources/Configuration/Models/KeyboardSwipeConfiguration.swift:66-75 | encoding writes only coding keys; which keys and which values, `EncodeWritesPresentFields`; decoding undoes it, `ConfigurationRoundTrip` |
| KeyboardSwipeCodec.DecodeConfiguration | Packages/HamsterKeyboardKit/Sources/Configuration/Models/KeyboardSwipeConfiguration.swift:45-54 | every field present in the result was read from its own coding key: an `Int` or floating field is the number stored there, and the swipe list has one entry per element of the stored array; the converse, what each key's value gives, `DecodePresentIsRead`; exactly when it succeeds, `DecodeSucceedsIffWellTyped` |
| KeyboardSwipeCodec.NewKeyboardSwipe | Packages/HamsterKeyboardKit/Sources/Configuration/Models/KeyboardSwipeConfiguration.swift:84-87 | `init(keyboardType:keys:)` sets both fields to the given values |
| KeyboardSwipeCodec.EncodeKeyboardSwipe | Packages/HamsterKeyboardKit/Sources/Configuration/Models/KeyboardSwipeConfiguration.swift:104-108 | a `KeyboardSwipe` writes only `keyboardType` and `keys`; the values, `EncodeKeyboardSwipeFields` |
| KeyboardSwipeCodec.DecodeKeyboardSwipe | Packages/HamsterKeyboardKit/Sources/Configuration/Models/KeyboardSwipeConfiguration.swift:89-97 | anything but a container fails; a layout in the result is the parse of the string stored under `keyboardType`; keys in the result come one per element of the array stored under `keys`; the converse, `KeyboardSwipePresentIsRead` and `KeyboardSwipeSucceedsIffWellTyped` |
| KeyboardSwipeCodec.DecodeKeyboardSwipeWrongType | Packages/HamsterKeyboardKit/Sources/Configuration/Models/KeyboardSwipeConfiguration.swift:89-97 | a value that is not a container, a `keyboardType` that is present, not null and not a string, or `keys` that are present, not null and not an array each make decoding fail |
| KeyboardSwipeCodec.DecodePresentIsRead | Packages/HamsterKeyboardKit/Sources/Configuration/Models/KeyboardSwipeConfiguration.swift:45-54 | on success, for every coding key, a missing key or a null gives an absent field, an integral number within 64 bits gives that `Int`, a number gives that floating value, and an array under `keyboardSwipe` gives the decodings of its elements, in order |
| KeyboardSwipeCodec.DecodeSucceedsIffWellTyped | Packages/HamsterKeyboardKit/Sources/Configuration/Models/KeyboardSwipeConfiguration.swift:45-54 | decoding succeeds if and only if no coding key holds a non-null value of the wrong type and a stored swipe array decodes element by element; a null is never an error |
| KeyboardSwipeCodec.KeyboardSwipePresentIsRead | Packages/HamsterKeyboardKit/Sources/Configuration/Models/KeyboardSwipeConfiguration.swift:89-97 | on success, a `keyboardType` string gives its parse, a missing or null one gives no layout; missing or null `keys` give none, and an array gives the decodings of its elements, in order |
| KeyboardSwipeCodec.KeyboardSwipeSucceedsIffWellTyped | Packages/HamsterKeyboardKit/Sources/Configuration/Models/KeyboardSwipeConfiguration.swift:89-97 | a `KeyboardSwipe` decodes if and only if it is a container whose `keyboardType` is missing, null or a string and whose `keys` are missing, null or an array that decodes |
| KeyboardSwipeCodec.DecodeListElements | Packages/HamsterKeyboardKit/Sources/Configuration/Models/KeyboardSwipeConfiguration.swift:53 | a decoded array holds the decodings of the stored elements, in order |
| KeyboardSwipeCodec.EncodeListElements | Packages/HamsterKeyboardKit/Sources/Configuration/Models/KeyboardSwipeConfiguration.swift:74 | an encoded array holds the encodings of the elements, in order |
| KeyboardSwipeCodec.DecodeListFailsOnBadElement | Packages/HamsterKeyboardKit/Sources/Configuration/Models/KeyboardSwipeConfiguration.swift:53 | one element that fails to decode makes the whole array fail |
| KeyboardSwipeCodec.DecodeRejectsBadKeyboardSwipe | Packages/HamsterKeyboardKit/Sources/Configuration/Models/KeyboardSwipeConfiguration.swift:53 | a `keyboardSwipe` array with an element that is not a container makes the whole configuration fail |
| KeyboardSwipeCodec.DefaultConfigurationIsEmpty | Packages/HamsterKeyboardKit/Sources/Configuration/Models/KeyboardSwipeConfiguration.swift:35-43 | the memberwise initialiser with every argument left out gives the configuration with every field absent, which encodes to an empty container |
| KeyboardSwipeCodec.EncodeWritesPresentFields | Packages/HamsterKeyboardKit/Sources/Configuration/Models/KeyboardSwipeConfiguration.swift:66-75 | encoding writes a coding key exactly when its field is present, and writes no key outside the coding keys; a number field is written as its number, and `keyboardSwipe` as an array of the element encodings, one per entry, in order |
| KeyboardSwipeCodec.DecodeMissingIsAbsent | Packages/HamsterKeyboardKit/Sources/Configuration/Models/KeyboardSwipeConfiguration.swift:45-54 | a missing key decodes to an absent field and an empty container to the empty configuration; for every coding key, a present non-null value of the wrong type (for the four `Int` keys anything but an integral number within 64 bits, for the two floating keys anything but a number, for `keyboardSwipe` anything but an array) makes decoding fail |
| KeyboardSwipeCodec.DecodeIgnoresUnknownKeys | Packages/HamsterKeyboardKit/Sources/Configuration/Models/KeyboardSwipeConfiguration.swift:45-64 | decoding reads only the coding keys: dropping every other key changes nothing |
| KeyboardSwipeCodec.ListRoundTrip | Packages/HamsterKeyboardKit/Sources/Configuration/Models/KeyboardSwipeConfiguration.swift:53 | an array of elements whose codec round-trips decodes back to itself |
| KeyboardSwipeCodec.ConfigurationRoundTrip | Packages/HamsterKeyboardKit/Sources/Configuration/Models/KeyboardSwipeConfiguration.swift:45-75 | when the key codec and the layout name round-trip, decoding an encoded configuration gives it back: present fields with their values, absent ones absent |
| KeyboardSwipeCodec.IntRoundTrip | Packages/HamsterKeyboardKit/Sources/Configuration/Models/KeyboardSwipeConfiguration.swift:47-50 | an encoded `Int` field decodes back to itself, and an absent one stays absent |
| KeyboardSwipeCodec.UnparseableKeyboardTypeDropped | Packages/HamsterKeyboardKit/Sources/Configuration/Models/KeyboardSwipeConfiguration.swift:89-97 | a missing `keyboardType`, or one that names no layout, leaves the layout absent without error; `keys` is decoded on its own, and decoding fails only when the keys fail |
| KeyboardSwipeCodec.EncodeKeyboardSwipeFields | Packages/HamsterKeyboardKit/Sources/Configuration/Models/KeyboardSwipeConfiguration.swift:104-108 | `KeyboardSwipe` writes its layout as its `yamlString`, its keys as an array of the key encodings in order, and leaves out whatever is absent |
| KeyboardSwipeCodec.KeyboardSwipeRoundTrip | Packages/HamsterKeyboardKit/Sources/Configuration/Models/KeyboardSwipeConfiguration.swift:89-108 | decoding an encoded `KeyboardSwipe` gives it back when the element conversions round-trip |
| KeyboardSwipeCodec.NewKeyboardSwipeRoundTrip | Packages/HamsterKeyboardKit/Sources/Configuration/Models/KeyboardSwipeConfiguration.swift:84-87 | `init(keyboardType:keys:)` gives a value with both fields present, which writes both keys and reads back as itself |
| SettingsMigration.MigrateSettings | Packages/HamsteriOS/Sources/ViewModel/Settings/SettingsViewModel.swift:193-267 | the general and swipe sections are untouched and each other section is present exactly when it was; field by field, `MigrateSettingsFields` |
| SettingsMigration.SetupConfigurationForV1Update | Packages/HamsteriOS/Sources/ViewModel/Settings/SettingsViewModel.swift:192-321 | the new configuration is `MigrateSettings` of the old one; when a swipe table is stored, its translation is then installed as the Chinese entry through `InstallChineseSwipe`, with keys that list every accepted entry under its key |
| SettingsMigration.CopyLegacySettings | Packages/HamsteriOS/Sources/ViewModel/Settings/SettingsViewModel.swift:193-267 | after the nineteen optional writes, in the source's order, the configuration is `MigrateSettings` of the old one |
| SettingsMigration.InstallSwipeSymbols | Packages/HamsteriOS/Sources/ViewModel/Settings/SettingsViewModel.swift:269-320 | the configuration becomes `InstallChineseSwipe` of the old one, with a Chinese lower-case entry whose keys group the accepted entries by key |
| SettingsMigration.MigrateSettingsFields | Packages/HamsteriOS/Sources/ViewModel/Settings/SettingsViewModel.swift:193-267 | each of the seventeen stored settings written as they are overwrites its own field (keyboard, toolbar and engine alike) and an unstored one leaves that field as it was; `lockShiftState` becomes the negation of the automatic-lowercase flag; `enableColorSchema` is not touched; nil sections stay nil and present ones stay present; the general and swipe sections are untouched |
| SettingsMigration.NoLegacySettingsChangeNothing | Packages/HamsteriOS/Sources/ViewModel/Settings/SettingsViewModel.swift:193-267 | with no stored setting the configuration is left exactly as it was |
| SettingsMigration.MigrateSettingsIdempotent | Packages/HamsteriOS/Sources/ViewModel/Settings/SettingsViewModel.swift:253-255 | copying the settings twice is copying them once, so the repeated write of the simplified/traditional switcher key (lines 265-267) changes nothing |
| SettingsMigration.DirectionOf | Packages/HamsteriOS/Sources/ViewModel/Settings/SettingsViewModel.swift:287-297 | exactly the four arrows give a direction: ↑ up, ↓ down, ← left, → right |
| SettingsMigration.TranslateShortCommand | Packages/HamsteriOS/Sources/ViewModel/Settings/SettingsViewModel.swift:270-275 | a command is found only for a name among the known raw values, and it carries that name |
| SettingsMigration.TranslateEntry | Packages/HamsteriOS/Sources/ViewModel/Settings/SettingsViewModel.swift:279-304 | an entry with a blank value or a blank key contributes nothing; what an entry contributes is a `.character` key action with a swipe of empty label (accepted exactly when, `TranslateEntryAccepts`) |
| SettingsMigration.TranslateEntryAsWritten | Packages/HamsteriOS/Sources/ViewModel/Settings/SettingsViewModel.swift:279-304 | the loop body as written traps exactly on a non-blank value with a blank key; otherwise it agrees with `TranslateEntry` (`AsWrittenAgreesElsewhere`) |
| SettingsMigration.TranslateEntryAccepts | Packages/HamsteriOS/Sources/ViewModel/Settings/SettingsViewModel.swift:270-304 | an entry is accepted if and only if its trimmed value and trimmed key are non-empty and the key ends in one of the four arrows; ↑ ↓ ← → give up, down, left and right; the key action is `.character` of the lower-cased key without its arrow; a `#` value naming a known shortcut becomes that shortcut command and every other value `.character(value)`; the label is empty |
| SettingsMigration.Accepted | Packages/HamsteriOS/Sources/ViewModel/Settings/SettingsViewModel.swift:278-312 | the entries the loop keeps, in iteration order, each as the key action and swipe `TranslateEntry` gives it, and no more than the table has; `BuildKeySwipeMap` groups exactly these by key (`GroupsOf`) |
| SettingsMigration.BuildKeySwipeMap | Packages/HamsteriOS/Sources/ViewModel/Settings/SettingsViewModel.swift:277-312 | the table has exactly one list per key action of an accepted entry, holding that key's swipes in the order of the entries |
| SettingsMigration.KeysOfMap | Packages/HamsteriOS/Sources/ViewModel/Settings/SettingsViewModel.swift:314 | the keys list every entry of the table exactly once, each with its swipe list, in some order |
| SettingsMigration.SwipeKeyListHoldsEveryEntry | Packages/HamsteriOS/Sources/ViewModel/Settings/SettingsViewModel.swift:306-314 | taken together, the installed keys hold exactly the swipes of the accepted entries, as a multiset, so their total is the number of accepted entries |
| SettingsMigration.FirstChineseIndex | Packages/HamsteriOS/Sources/ViewModel/Settings/SettingsViewModel.swift:315 | the index found holds a layout `isChinese` accepts and none before it does; no index is found only when no entry has such a layout |
| SettingsMigration.ReplaceOrAppend | Packages/HamsteriOS/Sources/ViewModel/Settings/SettingsViewModel.swift:315-319 | the first Chinese entry is replaced in place, or the entry is appended when there is none |
| SettingsMigration.InstallChineseSwipe | Packages/HamsteriOS/Sources/ViewModel/Settings/SettingsViewModel.swift:315-319 | only the swipe section can change, and a nil swipe section or keyboard list swallows the write; inside the list, `InstallChineseSwipeCases` |
| SettingsMigration.InstallChineseSwipeCases | Packages/HamsteriOS/Sources/ViewModel/Settings/SettingsViewModel.swift:315-319 | a nil swipe section or keyboard list swallows the write; otherwise the first Chinese index is replaced, with the length unchanged and every other index untouched, or one entry is appended; nothing outside the list changes |
| SettingsMigration.BlankKeyTraps | Packages/HamsteriOS/Sources/ViewModel/Settings/SettingsViewModel.swift:282-283 | as written, the key `""` with the value `"a"` reaches `removeLast()` on an empty string, which traps; the corrected translation skips the entry |
| SettingsMigration.AsWrittenAgreesElsewhere | Packages/HamsteriOS/Sources/ViewModel/Settings/SettingsViewModel.swift:279-304 | the code as written traps exactly on a non-empty value with a blank key, and otherwise agrees with the corrected translation |

## Left out

- JSON encoding and decoding in `merge` (`JSONEncoder`, `JSONSerialization`, `JSONDecoder`) are library calls. They are a parameter of `Merge`, the `Codec` record. Only the deep merge between them is proved.
- The resolver's `Any` values are JSON trees (`JVal`). A resolver that throws returns `Failure`.
- When several collisions fail, which error `DeepMerge` reports depends on the dictionary's visiting order. The model only promises that it is one of them (`ResolverError`).
- Dictionary iteration order is left open. `DeepMerge` and `KeysOfMap` choose the next key nondeterministically. The legacy swipe table is given as its entries in the order the dictionary yields them.
- `trimmingCharacters(in:)`, `lowercased()`, the raw values `ShortcutCommand(rawValue:)` accepts, `KeyboardType.yamlString`, `String.keyboardType` and the codec of `Key` come from files that are not part of this model. They are parameters (`TextOps`, `Elements`).
- Strings are sequences of Unicode scalars. Swift's `removeLast()` removes a whole grapheme cluster, which the model treats as one character.
- `tangentThreshold` (`CGFloat`) and `longPressDelay` (`Double`) are exact reals that are only stored and copied. No floating-point behaviour is modelled.
- Legacy numeric settings are unbounded integers. The model of the migration does not need their Swift widths.
- `KeyboardType` has only the Chinese layout spelled out. Every other layout is `Other(name)`.
- `KeyboardType.isChinese` is declared in a file that is not part of this model. It is a parameter `isChinese` of the migration and of `FirstChineseIndex`, `ReplaceOrAppend` and `InstallChineseSwipe`, so nothing is assumed about which layouts it picks.
- The configuration sections hold the fields the migration writes, plus `enableColorSchema` and `enableAppleCloud`, which it leaves untouched and which stand for every field it does not write. `keyboards` and the other fields of the sections are not part of this model.
- `DecodingError`: every decoding failure is one error naming the coding key. Swift's decoder distinguishes kinds (`typeMismatch`, `dataCorrupted` for a number that does not fit in `Int`, `valueNotFound` for a null where a container is expected); the model does not, and nothing in the modelled code inspects the kind.
- `SettingsMigration.CopyLegacySettings`: each `if let v = stored { section?.field = v }` is modelled as a write of `Overwrite(field, stored)`, which leaves the field as it was when nothing is stored. Property observers that a write might fire are not modelled.
- `SettingsMigration.SetupConfigurationForV1Update`: reading `UserDefaults` is replaced by the `LegacySettings` record passed in. Its caller `loadAppData` (progress display, RIME deployment, first-run flags) is I/O and is left out.
- The `description` debug string, the `sections` of the settings screen, and the two UIKit view files are presentation. They are left out.

## Findings

| source | as written | input that shows it | evidently intended | confidence | as-written member | corrected member |
|---|---|---|---|---|---|---|
| Packages/HamsteriOS/Sources/ViewModel/Settings/SettingsViewModel.swift:282-283 | the trimmed key is not checked before `key.removeLast()`, which traps on an empty string and ends the app during migration | a legacy swipe entry whose key is empty or only whitespace and whose value is not, e.g. key `""`, value `"a"` (`BlankKeyTraps`) | skip such an entry, like entries with an empty value or without an arrow | not executed; the input needs a hand-edited legacy table | SettingsMigration.TranslateEntryAsWritten | SettingsMigration.TranslateEntry |
