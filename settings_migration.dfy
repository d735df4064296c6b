/** The one-time migration of the settings of version 1 of the app
    (`SettingsViewModel._setupConfigurationForV1Update`).

    Each legacy setting that was stored is copied into the shared
    configuration, through optional chaining: a section that is nil swallows
    the write. The legacy table of swipe symbols (key plus arrow mapped to the
    text or shortcut the swipe produces) is translated into per-key swipe
    lists, which replace the first Chinese entry of the built-in keyboards'
    swipe settings or are appended to them. */
module SettingsMigration {
  import opened Wrappers
  import opened KeyboardTypes
  import opened KeyboardSwipeCodec

  /** `_SlideUp`, `_SlideDown`, `_SlideLeft`, `_SlideRight`: the arrows
      (U+2191, U+2193, U+2190, U+2192) that end a legacy swipe key. */
  const SlideUp: char := '\U{2191}'
  const SlideDown: char := '\U{2193}'
  const SlideLeft: char := '\U{2190}'
  const SlideRight: char := '\U{2192}'

  // ------------------------------------------------------------ configuration

  /** The keyboard settings the migration writes, and one it leaves alone. */
  datatype KeyboardConfiguration = KeyboardConfiguration(
    displayButtonBubbles: Option<bool>,
    enableKeySounds: Option<bool>,
    enableHapticFeedback: Option<bool>,
    displaySemicolonButton: Option<bool>,
    displaySpaceLeftButton: Option<bool>,
    keyValueOfSpaceLeftButton: Option<string>,
    displaySpaceRightButton: Option<bool>,
    keyValueOfSpaceRightButton: Option<string>,
    displayChineseEnglishSwitchButton: Option<bool>,
    chineseEnglishSwitchButtonIsOnLeftOfSpaceButton: Option<bool>,
    enableEmbeddedInputMode: Option<bool>,
    lockShiftState: Option<bool>,
    enableColorSchema: Option<bool>)

  /** The toolbar settings the migration writes. */
  datatype KeyboardToolbarConfiguration = KeyboardToolbarConfiguration(
    displayKeyboardDismissButton: Option<bool>,
    candidateWordFontSize: Option<int>,
    candidateCommentFontSize: Option<int>,
    heightOfToolbar: Option<int>)

  /** The input-engine settings the migration writes. */
  datatype RimeConfiguration = RimeConfiguration(
    maximumNumberOfCandidateWords: Option<int>,
    keyValueOfSwitchSimplifiedAndTraditional: Option<string>)

  /** General settings, which the migration does not touch. */
  datatype GeneralConfiguration = GeneralConfiguration(enableAppleCloud: Option<bool>)

  /** `HamsterConfiguration`: every section is optional. */
  datatype HamsterConfiguration = HamsterConfiguration(
    general: Option<GeneralConfiguration>,
    toolbar: Option<KeyboardToolbarConfiguration>,
    keyboard: Option<KeyboardConfiguration>,
    rime: Option<RimeConfiguration>,
    swipe: Option<KeyboardSwipeConfiguration>)

  /** `HamsterAppDependencyContainer.shared`: the holder of the configuration
      that the whole app reads and writes in place. */
  class HamsterAppDependencyContainer {
    var configuration: HamsterConfiguration

    constructor (configuration: HamsterConfiguration)
      ensures this.configuration == configuration
    {
      this.configuration := configuration;
    }
  }

  /** What version 1 left in the user defaults; `None` where it stored
      nothing. The swipe-symbol dictionary is given as its entries in the
      dictionary's own iteration order. */
  datatype LegacySettings = LegacySettings(
    showKeyPressBubble: Option<bool>,
    enableKeyboardFeedbackSound: Option<bool>,
    enableKeyboardFeedbackHaptic: Option<bool>,
    showKeyboardDismissButton: Option<bool>,
    showSemicolonButton: Option<bool>,
    showSpaceLeftButton: Option<bool>,
    spaceLeftButtonValue: Option<string>,
    showSpaceRightButton: Option<bool>,
    spaceRightButtonValue: Option<string>,
    showSpaceRightSwitchLanguageButton: Option<bool>,
    switchLanguageButtonInSpaceLeft: Option<bool>,
    rimeMaxCandidateSize: Option<int>,
    rimeCandidateTitleFontSize: Option<int>,
    rimeCandidateCommentFontSize: Option<int>,
    candidateBarHeight: Option<int>,
    rimeSimplifiedAndTraditionalSwitcherKey: Option<string>,
    enableInputEmbeddedMode: Option<bool>,
    enableKeyboardAutomaticallyLowercase: Option<bool>,
    keyboardSwipeGestureSymbol: Option<seq<(string, string)>>)

  /** The string operations of Foundation the migration calls:
      `trimmingCharacters(in: .whitespacesAndNewlines)`, `lowercased()`, and
      the raw values `ShortcutCommand(rawValue:)` accepts. */
  datatype TextOps = TextOps(trim: string -> string, lowercased: string -> string,
                             shortcutCommands: set<string>)

  // ------------------------------------------------- copying legacy settings

  /** A write through `section?.field = value`: nothing happens when the
      section is nil. */
  function UpdateKeyboard(c: HamsterConfiguration, f: KeyboardConfiguration -> KeyboardConfiguration): HamsterConfiguration
  {
    if c.keyboard.Some? then c.(keyboard := Some(f(c.keyboard.value))) else c
  }

  function UpdateToolbar(c: HamsterConfiguration,
                         f: KeyboardToolbarConfiguration -> KeyboardToolbarConfiguration): HamsterConfiguration
  {
    if c.toolbar.Some? then c.(toolbar := Some(f(c.toolbar.value))) else c
  }

  function UpdateRime(c: HamsterConfiguration, f: RimeConfiguration -> RimeConfiguration): HamsterConfiguration
  {
    if c.rime.Some? then c.(rime := Some(f(c.rime.value))) else c
  }

  /** The legacy value where one was stored, the current one otherwise. */
  function Overwrite<T>(current: Option<T>, legacy: Option<T>): Option<T>
  {
    if legacy.Some? then legacy else current
  }

  /** The keyboard section once every legacy keyboard setting is copied. */
  function MigrateKeyboard(k: KeyboardConfiguration, l: LegacySettings): KeyboardConfiguration
  {
    k.(displayButtonBubbles := Overwrite(k.displayButtonBubbles, l.showKeyPressBubble),
       enableKeySounds := Overwrite(k.enableKeySounds, l.enableKeyboardFeedbackSound),
       enableHapticFeedback := Overwrite(k.enableHapticFeedback, l.enableKeyboardFeedbackHaptic),
       displaySemicolonButton := Overwrite(k.displaySemicolonButton, l.showSemicolonButton),
       displaySpaceLeftButton := Overwrite(k.displaySpaceLeftButton, l.showSpaceLeftButton),
       keyValueOfSpaceLeftButton := Overwrite(k.keyValueOfSpaceLeftButton, l.spaceLeftButtonValue),
       displaySpaceRightButton := Overwrite(k.displaySpaceRightButton, l.showSpaceRightButton),
       keyValueOfSpaceRightButton := Overwrite(k.keyValueOfSpaceRightButton, l.spaceRightButtonValue),
       displayChineseEnglishSwitchButton :=
         Overwrite(k.displayChineseEnglishSwitchButton, l.showSpaceRightSwitchLanguageButton),
       chineseEnglishSwitchButtonIsOnLeftOfSpaceButton :=
         Overwrite(k.chineseEnglishSwitchButtonIsOnLeftOfSpaceButton, l.switchLanguageButtonInSpaceLeft),
       enableEmbeddedInputMode := Overwrite(k.enableEmbeddedInputMode, l.enableInputEmbeddedMode),
       lockShiftState :=
         if l.enableKeyboardAutomaticallyLowercase.Some?
         then Some(!l.enableKeyboardAutomaticallyLowercase.value)
         else k.lockShiftState)
  }

  /** The toolbar section once every legacy toolbar setting is copied. */
  function MigrateToolbar(t: KeyboardToolbarConfiguration, l: LegacySettings): KeyboardToolbarConfiguration
  {
    t.(displayKeyboardDismissButton := Overwrite(t.displayKeyboardDismissButton, l.showKeyboardDismissButton),
       candidateWordFontSize := Overwrite(t.candidateWordFontSize, l.rimeCandidateTitleFontSize),
       candidateCommentFontSize := Overwrite(t.candidateCommentFontSize, l.rimeCandidateCommentFontSize),
       heightOfToolbar := Overwrite(t.heightOfToolbar, l.candidateBarHeight))
  }

  /** The input-engine section once every legacy engine setting is copied. */
  function MigrateRime(r: RimeConfiguration, l: LegacySettings): RimeConfiguration
  {
    r.(maximumNumberOfCandidateWords := Overwrite(r.maximumNumberOfCandidateWords, l.rimeMaxCandidateSize),
       keyValueOfSwitchSimplifiedAndTraditional :=
         Overwrite(r.keyValueOfSwitchSimplifiedAndTraditional, l.rimeSimplifiedAndTraditionalSwitcherKey))
  }

  /** The configuration once every scalar legacy setting is copied: the
      declarative counterpart of the first part of the migration. */
  function MigrateSettings(c: HamsterConfiguration, l: LegacySettings): (r: HamsterConfiguration)
    ensures r.general == c.general && r.swipe == c.swipe
    ensures (r.keyboard.Some? <==> c.keyboard.Some?) && (r.toolbar.Some? <==> c.toolbar.Some?) &&
            (r.rime.Some? <==> c.rime.Some?)
  {
    c.(keyboard := if c.keyboard.Some? then Some(MigrateKeyboard(c.keyboard.value, l)) else None,
       toolbar := if c.toolbar.Some? then Some(MigrateToolbar(c.toolbar.value, l)) else None,
       rime := if c.rime.Some? then Some(MigrateRime(c.rime.value, l)) else None)
  }

  /** No scalar legacy setting was stored. */
  predicate NoLegacySettings(l: LegacySettings)
  {
    && l.showKeyPressBubble.None? && l.enableKeyboardFeedbackSound.None?
    && l.enableKeyboardFeedbackHaptic.None? && l.showKeyboardDismissButton.None?
    && l.showSemicolonButton.None? && l.showSpaceLeftButton.None? && l.spaceLeftButtonValue.None?
    && l.showSpaceRightButton.None? && l.spaceRightButtonValue.None?
    && l.showSpaceRightSwitchLanguageButton.None? && l.switchLanguageButtonInSpaceLeft.None?
    && l.rimeMaxCandidateSize.None? && l.rimeCandidateTitleFontSize.None?
    && l.rimeCandidateCommentFontSize.None? && l.candidateBarHeight.None?
    && l.rimeSimplifiedAndTraditionalSwitcherKey.None? && l.enableInputEmbeddedMode.None?
    && l.enableKeyboardAutomaticallyLowercase.None?
  }

  // ------------------------------------------------ translating swipe symbols

  /** The swipe direction an arrow names. */
  function DirectionOf(suffix: char): (r: Option<Direction>)
    ensures r.Some? <==> suffix in {SlideUp, SlideDown, SlideLeft, SlideRight}
    ensures r == Some(Up) <==> suffix == SlideUp
    ensures r == Some(Down) <==> suffix == SlideDown
    ensures r == Some(Left) <==> suffix == SlideLeft
    ensures r == Some(Right) <==> suffix == SlideRight
  {
    if suffix == SlideUp then Some(Up)
    else if suffix == SlideDown then Some(Down)
    else if suffix == SlideLeft then Some(Left)
    else if suffix == SlideRight then Some(Right)
    else None
  }

  /** `translateShortCommand`: a `#`-prefixed name of a known shortcut. */
  function TranslateShortCommand(name: string, ops: TextOps): (r: Option<ShortcutCommand>)
    ensures r.Some? ==> r.value.rawValue == name && name in ops.shortcutCommands
    ensures name !in ops.shortcutCommands ==> r.None?
  {
    if "#" <= ops.trim(name) && name in ops.shortcutCommands then Some(ShortcutCommand(name)) else None
  }

  /** What one legacy entry contributes: the key it belongs to and the swipe
      it adds, or nothing. An entry whose key is empty once trimmed is
      skipped (the source traps on it instead; see
      `TranslateEntryAsWritten`). */
  function TranslateEntry(fullKey: string, fullValue: string, ops: TextOps)
    : (r: Option<(KeyboardAction, KeySwipe)>)
    ensures ops.trim(fullValue) == [] || ops.trim(fullKey) == [] ==> r.None?
    ensures r.Some? ==> r.value.0.Character? && r.value.1.keyLabel == EmptyLabel
  {
    var value := ops.trim(fullValue);
    var key := ops.trim(fullKey);
    if value == [] || key == [] then None
    else
      var direction := DirectionOf(key[|key| - 1]);
      if direction.None? then None
      else
        var action := Character(ops.lowercased(key[..|key| - 1]));
        var command := TranslateShortCommand(value, ops);
        var swipeAction := if command.Some? then ShortCommand(command.value) else Character(value);
        Some((action, KeySwipe(direction.value, swipeAction, EmptyLabel)))
  }

  /** What the loop body does with one entry as the source writes it. */
  datatype EntryOutcome = Skipped | Translated(action: KeyboardAction, keySwipe: KeySwipe) | Trap

  /** The loop body as written: `key.removeLast()` on a key that is empty
      once trimmed is a run-time trap, which ends the whole migration. */
  function TranslateEntryAsWritten(fullKey: string, fullValue: string, ops: TextOps): (r: EntryOutcome)
    ensures r.Trap? <==> ops.trim(fullValue) != [] && ops.trim(fullKey) == []
    ensures r.Translated? ==> r.action.Character? && r.keySwipe.keyLabel == EmptyLabel
  {
    var value := ops.trim(fullValue);
    if value == [] then Skipped
    else
      var key := ops.trim(fullKey);
      if key == [] then Trap
      else
        var direction := DirectionOf(key[|key| - 1]);
        if direction.None? then Skipped
        else
          var action := Character(ops.lowercased(key[..|key| - 1]));
          var command := TranslateShortCommand(value, ops);
          var swipeAction := if command.Some? then ShortCommand(command.value) else Character(value);
          Translated(action, KeySwipe(direction.value, swipeAction, EmptyLabel))
  }

  /** The accepted entries, in iteration order, as (key action, swipe). */
  function Accepted(entries: seq<(string, string)>, ops: TextOps): (r: seq<(KeyboardAction, KeySwipe)>)
    ensures |r| <= |entries|
  {
    if entries == [] then []
    else
      var last := entries[|entries| - 1];
      var t := TranslateEntry(last.0, last.1, ops);
      Accepted(entries[..|entries| - 1], ops) + (if t.Some? then [t.value] else [])
  }

  /** The swipes of `acc` that belong to key `a`, in order. */
  function SwipesFor(acc: seq<(KeyboardAction, KeySwipe)>, a: KeyboardAction): seq<KeySwipe>
  {
    if acc == [] then []
    else SwipesFor(acc[..|acc| - 1], a) + (if acc[|acc| - 1].0 == a then [acc[|acc| - 1].1] else [])
  }

  /** The swipes of `acc` that belong to any key of `actions`, in order. */
  function SwipesIn(acc: seq<(KeyboardAction, KeySwipe)>, actions: set<KeyboardAction>): seq<KeySwipe>
  {
    if acc == [] then []
    else SwipesIn(acc[..|acc| - 1], actions) + (if acc[|acc| - 1].0 in actions then [acc[|acc| - 1].1] else [])
  }

  /** All swipes of `acc`, in order. */
  function AllSwipes(acc: seq<(KeyboardAction, KeySwipe)>): (r: seq<KeySwipe>)
    ensures |r| == |acc|
  {
    if acc == [] then [] else AllSwipes(acc[..|acc| - 1]) + [acc[|acc| - 1].1]
  }

  function ActionsOf(acc: seq<(KeyboardAction, KeySwipe)>): set<KeyboardAction>
  {
    set i | 0 <= i < |acc| :: acc[i].0
  }

  /** `table` groups `acc` by key action: one list per key that has a swipe,
      holding that key's swipes in order. */
  ghost predicate GroupsOf(table: map<KeyboardAction, seq<KeySwipe>>, acc: seq<(KeyboardAction, KeySwipe)>)
  {
    table.Keys == ActionsOf(acc) && forall a :: a in table ==> table[a] == SwipesFor(acc, a)
  }

  function KeyActions(keys: seq<Key>): set<KeyboardAction>
  {
    set i | 0 <= i < |keys| :: keys[i].action
  }

  /** `keys` lists the entries of `table`, each once, in some order. */
  ghost predicate ListsTable(keys: seq<Key>, table: map<KeyboardAction, seq<KeySwipe>>)
  {
    && KeyActions(keys) == table.Keys
    && (forall i, j :: 0 <= i < j < |keys| ==> keys[i].action != keys[j].action)
    && (forall i :: 0 <= i < |keys| ==> keys[i].action in table && keys[i].swipe == table[keys[i].action])
  }

  /** `keys` holds one key per key action of `acc`, each with that key's
      swipes in order. */
  ghost predicate IsSwipeKeyList(keys: seq<Key>, acc: seq<(KeyboardAction, KeySwipe)>)
  {
    && KeyActions(keys) == ActionsOf(acc)
    && (forall i, j :: 0 <= i < j < |keys| ==> keys[i].action != keys[j].action)
    && (forall i :: 0 <= i < |keys| ==> keys[i].swipe == SwipesFor(acc, keys[i].action))
  }

  /** All swipes of the keys of `keys`, in order. */
  function Flatten(keys: seq<Key>): seq<KeySwipe>
  {
    if keys == [] then [] else Flatten(keys[..|keys| - 1]) + keys[|keys| - 1].swipe
  }

  /** The loop over the legacy dictionary that fills `keySwipeMap`. */
  method BuildKeySwipeMap(entries: seq<(string, string)>, ops: TextOps)
    returns (keySwipeMap: map<KeyboardAction, seq<KeySwipe>>)
    ensures GroupsOf(keySwipeMap, Accepted(entries, ops))
  {
    keySwipeMap := map[];
    for i := 0 to |entries|
      invariant GroupsOf(keySwipeMap, Accepted(entries[..i], ops))
    {
      assert entries[..i + 1][..i] == entries[..i];
      ghost var acc := Accepted(entries[..i], ops);
      var (fullKey, fullValue) := entries[i];
      ghost var t := TranslateEntry(fullKey, fullValue, ops);
      assert Accepted(entries[..i + 1], ops) == acc + (if t.Some? then [t.value] else []);
      assert t.None? ==> Accepted(entries[..i + 1], ops) == acc;
      var value := ops.trim(fullValue);
      if value == [] {
        continue;
      }
      var key := ops.trim(fullKey);
      if key == [] {
        continue;
      }
      var suffix := key[|key| - 1];
      key := key[..|key| - 1];
      var action := Character(ops.lowercased(key));
      var direction: Direction;
      if suffix == SlideUp {
        direction := Up;
      } else if suffix == SlideDown {
        direction := Down;
      } else if suffix == SlideLeft {
        direction := Left;
      } else if suffix == SlideRight {
        direction := Right;
      } else {
        continue;
      }
      var keySwipe: KeySwipe;
      var command := TranslateShortCommand(value, ops);
      if command.Some? {
        keySwipe := KeySwipe(direction, ShortCommand(command.value), EmptyLabel);
      } else {
        keySwipe := KeySwipe(direction, Character(value), EmptyLabel);
      }
      assert t == Some((action, keySwipe));
      GroupsOfAppend(keySwipeMap, acc, action, keySwipe);
      if action in keySwipeMap {
        keySwipeMap := keySwipeMap[action := keySwipeMap[action] + [keySwipe]];
      } else {
        keySwipeMap := keySwipeMap[action := [keySwipe]];
      }
    }
    assert entries[..|entries|] == entries;
  }

  lemma {:induction false} SwipesForAbsent(acc: seq<(KeyboardAction, KeySwipe)>, a: KeyboardAction)
    requires a !in ActionsOf(acc)
    ensures SwipesFor(acc, a) == []
  {
    if acc != [] {
      var init := acc[..|acc| - 1];
      assert ActionsOf(init) <= ActionsOf(acc) by {
        forall b | b in ActionsOf(init) ensures b in ActionsOf(acc) {
          var i :| 0 <= i < |init| && init[i].0 == b;
          assert acc[i].0 == b;
        }
      }
      assert acc[|acc| - 1].0 in ActionsOf(acc);
      SwipesForAbsent(init, a);
    }
  }

  /** Adding one swipe to its key's list, or starting the list, keeps the
      table a grouping of the accepted entries. */
  lemma GroupsOfAppend(table: map<KeyboardAction, seq<KeySwipe>>, acc: seq<(KeyboardAction, KeySwipe)>,
                       a: KeyboardAction, s: KeySwipe)
    requires GroupsOf(table, acc)
    ensures GroupsOf(table[a := if a in table then table[a] + [s] else [s]], acc + [(a, s)])
  {
    var acc' := acc + [(a, s)];
    assert acc'[..|acc'| - 1] == acc;
    assert ActionsOf(acc') == ActionsOf(acc) + {a} by {
      forall b | b in ActionsOf(acc') ensures b in ActionsOf(acc) + {a} {
        var i :| 0 <= i < |acc'| && acc'[i].0 == b;
        if i < |acc| { assert acc[i].0 == b; }
      }
      forall b | b in ActionsOf(acc) ensures b in ActionsOf(acc') {
        var i :| 0 <= i < |acc| && acc[i].0 == b;
        assert acc'[i].0 == b;
      }
      assert acc'[|acc|].0 == a;
    }
    if a !in table {
      SwipesForAbsent(acc, a);
    }
  }

  /** `keySwipeMap.map { key, value in Key(action: key, swipe: value) }`, in
      the dictionary's unspecified order. */
  method KeysOfMap(keySwipeMap: map<KeyboardAction, seq<KeySwipe>>) returns (keys: seq<Key>)
    ensures ListsTable(keys, keySwipeMap)
  {
    keys := [];
    var remaining := keySwipeMap.Keys;
    while remaining != {}
      invariant remaining <= keySwipeMap.Keys
      invariant KeyActions(keys) + remaining == keySwipeMap.Keys
      invariant KeyActions(keys) !! remaining
      invariant forall i, j :: 0 <= i < j < |keys| ==> keys[i].action != keys[j].action
      invariant forall i :: 0 <= i < |keys| ==> keys[i].action in keySwipeMap && keys[i].swipe == keySwipeMap[keys[i].action]
      decreases remaining
    {
      var a :| a in remaining;
      ghost var before := keys;
      keys := keys + [Key(a, keySwipeMap[a])];
      KeyActionsSnoc(before, Key(a, keySwipeMap[a]));
      forall i | 0 <= i < |before| ensures before[i].action != a {
        assert before[i].action in KeyActions(before);
      }
      remaining := remaining - {a};
    }
  }

  lemma {:induction false} SwipesInAdd(acc: seq<(KeyboardAction, KeySwipe)>, actions: set<KeyboardAction>,
                                       a: KeyboardAction)
    requires a !in actions
    ensures multiset(SwipesIn(acc, actions + {a})) == multiset(SwipesIn(acc, actions)) + multiset(SwipesFor(acc, a))
  {
    if acc != [] {
      SwipesInAdd(acc[..|acc| - 1], actions, a);
    }
  }

  lemma {:induction false} SwipesInAll(acc: seq<(KeyboardAction, KeySwipe)>, actions: set<KeyboardAction>)
    requires ActionsOf(acc) <= actions
    ensures SwipesIn(acc, actions) == AllSwipes(acc)
  {
    if acc != [] {
      var init := acc[..|acc| - 1];
      assert ActionsOf(init) <= ActionsOf(acc) by {
        forall b | b in ActionsOf(init) ensures b in ActionsOf(acc) {
          var i :| 0 <= i < |init| && init[i].0 == b;
          assert acc[i].0 == b;
        }
      }
      assert acc[|acc| - 1].0 in ActionsOf(acc);
      SwipesInAll(init, actions);
    }
  }

  lemma {:induction false} FlattenIsSwipesIn(keys: seq<Key>, acc: seq<(KeyboardAction, KeySwipe)>)
    requires forall i, j :: 0 <= i < j < |keys| ==> keys[i].action != keys[j].action
    requires forall i :: 0 <= i < |keys| ==> keys[i].swipe == SwipesFor(acc, keys[i].action)
    ensures multiset(Flatten(keys)) == multiset(SwipesIn(acc, KeyActions(keys)))
  {
    if keys == [] {
      assert KeyActions(keys) == {};
      SwipesInEmpty(acc);
    } else {
      var init := keys[..|keys| - 1];
      var last := keys[|keys| - 1];
      FlattenIsSwipesIn(init, acc);
      KeyActionsSnoc(init, last);
      assert init + [last] == keys;
      assert last.action !in KeyActions(init);
      SwipesInAdd(acc, KeyActions(init), last.action);
    }
  }

  lemma KeyActionsSnoc(keys: seq<Key>, k: Key)
    ensures KeyActions(keys + [k]) == KeyActions(keys) + {k.action}
  {
    var keys' := keys + [k];
    forall b | b in KeyActions(keys') ensures b in KeyActions(keys) + {k.action} {
      var i :| 0 <= i < |keys'| && keys'[i].action == b;
      if i < |keys| { assert keys[i].action == b; }
    }
    forall b | b in KeyActions(keys) ensures b in KeyActions(keys') {
      var i :| 0 <= i < |keys| && keys[i].action == b;
      assert keys'[i].action == b;
    }
    assert keys'[|keys|].action == k.action;
  }

  lemma {:induction false} SwipesInEmpty(acc: seq<(KeyboardAction, KeySwipe)>)
    ensures SwipesIn(acc, {}) == []
  {
    if acc != [] {
      SwipesInEmpty(acc[..|acc| - 1]);
    }
  }

  /** Every accepted entry contributes exactly one swipe to the keys the
      migration installs: as multisets the keys' swipes are the accepted
      entries' swipes, so there are exactly as many of them. */
  lemma SwipeKeyListHoldsEveryEntry(keys: seq<Key>, acc: seq<(KeyboardAction, KeySwipe)>)
    requires IsSwipeKeyList(keys, acc)
    ensures multiset(Flatten(keys)) == multiset(AllSwipes(acc))
    ensures |Flatten(keys)| == |acc|
  {
    FlattenIsSwipesIn(keys, acc);
    SwipesInAll(acc, KeyActions(keys));
    assert |multiset(Flatten(keys))| == |multiset(AllSwipes(acc))|;
  }

  // --------------------------------------------------- replace or append

  /** `$0.keyboardType?.isChinese ?? false`. `KeyboardType.isChinese` is
      declared outside the files modelled here, so it is a parameter. */
  predicate IsChineseSwipe(s: KeyboardSwipe, isChinese: KeyboardType -> bool)
  {
    s.keyboardType.Some? && isChinese(s.keyboardType.value)
  }

  /** `firstIndex(where: { $0.keyboardType?.isChinese ?? false })`. */
  method FirstChineseIndex(list: seq<KeyboardSwipe>, isChinese: KeyboardType -> bool) returns (index: Option<nat>)
    ensures index.Some? ==> index.value < |list| && IsChineseSwipe(list[index.value], isChinese)
    ensures index.Some? ==> forall j :: 0 <= j < index.value ==> !IsChineseSwipe(list[j], isChinese)
    ensures index.None? ==> forall j :: 0 <= j < |list| ==> !IsChineseSwipe(list[j], isChinese)
  {
    var i := 0;
    while i < |list|
      invariant 0 <= i <= |list|
      invariant forall j :: 0 <= j < i ==> !IsChineseSwipe(list[j], isChinese)
    {
      if IsChineseSwipe(list[i], isChinese) {
        return Some(i);
      }
      i := i + 1;
    }
    return None;
  }

  /** The keyboard swipe list with `entry` in place of its first Chinese
      entry, or with `entry` appended when it has none. */
  function ReplaceOrAppend(list: seq<KeyboardSwipe>, entry: KeyboardSwipe,
                           isChinese: KeyboardType -> bool): (r: seq<KeyboardSwipe>)
    ensures forall i :: (0 <= i < |list| && IsChineseSwipe(list[i], isChinese) &&
                         (forall j :: 0 <= j < i ==> !IsChineseSwipe(list[j], isChinese))) ==> r == list[i := entry]
    ensures (forall j :: 0 <= j < |list| ==> !IsChineseSwipe(list[j], isChinese)) ==> r == list + [entry]
  {
    if list == [] then [entry]
    else if IsChineseSwipe(list[0], isChinese) then [entry] + list[1..]
    else [list[0]] + ReplaceOrAppend(list[1..], entry, isChinese)
  }

  /** The swipe section once `entry` is installed; nothing happens when the
      section or its keyboard list is nil. */
  function InstallChineseSwipe(c: HamsterConfiguration, entry: KeyboardSwipe,
                               isChinese: KeyboardType -> bool): (r: HamsterConfiguration)
    ensures r.(swipe := c.swipe) == c
    ensures c.swipe.None? || c.swipe.value.keyboardSwipe.None? ==> r == c
  {
    if c.swipe.Some? && c.swipe.value.keyboardSwipe.Some? then
      c.(swipe := Some(c.swipe.value.(keyboardSwipe := Some(ReplaceOrAppend(c.swipe.value.keyboardSwipe.value, entry, isChinese)))))
    else c
  }

  // --------------------------------------------------------- the migration

  /** `_setupConfigurationForV1Update`: copies each stored legacy setting into
      the shared configuration, then installs the translated swipe symbols. */
  method SetupConfigurationForV1Update(shared: HamsterAppDependencyContainer, legacy: LegacySettings,
                                       ops: TextOps, isChinese: KeyboardType -> bool)
    modifies shared
    ensures legacy.keyboardSwipeGestureSymbol.None? ==>
              shared.configuration == MigrateSettings(old(shared.configuration), legacy)
    ensures legacy.keyboardSwipeGestureSymbol.Some? ==>
              exists keys :: IsSwipeKeyList(keys, Accepted(legacy.keyboardSwipeGestureSymbol.value, ops)) &&
                shared.configuration ==
                  InstallChineseSwipe(MigrateSettings(old(shared.configuration), legacy),
                                      NewKeyboardSwipe(Chinese(Lowercased), keys), isChinese)
  {
    CopyLegacySettings(shared, legacy);
    if legacy.keyboardSwipeGestureSymbol.Some? {
      InstallSwipeSymbols(shared, legacy.keyboardSwipeGestureSymbol.value, ops, isChinese);
    }
  }

  /** The first part of the migration: every stored scalar setting, in the
      source's order, each written through optional chaining. Each
      `if let v = stored { section?.field = v }` is written as a write of
      `Overwrite(field, stored)`, which leaves the field as it was when
      nothing is stored. */
  method CopyLegacySettings(shared: HamsterAppDependencyContainer, legacy: LegacySettings)
    modifies shared
    ensures shared.configuration == MigrateSettings(old(shared.configuration), legacy)
  {
    shared.configuration := UpdateKeyboard(shared.configuration,
      (k: KeyboardConfiguration) => k.(displayButtonBubbles := Overwrite(k.displayButtonBubbles, legacy.showKeyPressBubble)));
    shared.configuration := UpdateKeyboard(shared.configuration,
      (k: KeyboardConfiguration) => k.(enableKeySounds := Overwrite(k.enableKeySounds, legacy.enableKeyboardFeedbackSound)));
    shared.configuration := UpdateKeyboard(shared.configuration,
      (k: KeyboardConfiguration) => k.(enableHapticFeedback := Overwrite(k.enableHapticFeedback, legacy.enableKeyboardFeedbackHaptic)));
    shared.configuration := UpdateToolbar(shared.configuration,
      (t: KeyboardToolbarConfiguration) => t.(displayKeyboardDismissButton := Overwrite(t.displayKeyboardDismissButton, legacy.showKeyboardDismissButton)));
    shared.configuration := UpdateKeyboard(shared.configuration,
      (k: KeyboardConfiguration) => k.(displaySemicolonButton := Overwrite(k.displaySemicolonButton, legacy.showSemicolonButton)));
    shared.configuration := UpdateKeyboard(shared.configuration,
      (k: KeyboardConfiguration) => k.(displaySpaceLeftButton := Overwrite(k.displaySpaceLeftButton, legacy.showSpaceLeftButton)));
    shared.configuration := UpdateKeyboard(shared.configuration,
      (k: KeyboardConfiguration) => k.(keyValueOfSpaceLeftButton := Overwrite(k.keyValueOfSpaceLeftButton, legacy.spaceLeftButtonValue)));
    shared.configuration := UpdateKeyboard(shared.configuration,
      (k: KeyboardConfiguration) => k.(displaySpaceRightButton := Overwrite(k.displaySpaceRightButton, legacy.showSpaceRightButton)));
    shared.configuration := UpdateKeyboard(shared.configuration,
      (k: KeyboardConfiguration) => k.(keyValueOfSpaceRightButton := Overwrite(k.keyValueOfSpaceRightButton, legacy.spaceRightButtonValue)));
    shared.configuration := UpdateKeyboard(shared.configuration,
      (k: KeyboardConfiguration) => k.(displayChineseEnglishSwitchButton := Overwrite(k.displayChineseEnglishSwitchButton, legacy.showSpaceRightSwitchLanguageButton)));
    shared.configuration := UpdateKeyboard(shared.configuration,
      (k: KeyboardConfiguration) => k.(chineseEnglishSwitchButtonIsOnLeftOfSpaceButton := Overwrite(k.chineseEnglishSwitchButtonIsOnLeftOfSpaceButton, legacy.switchLanguageButtonInSpaceLeft)));
    shared.configuration := UpdateRime(shared.configuration,
      (r: RimeConfiguration) => r.(maximumNumberOfCandidateWords := Overwrite(r.maximumNumberOfCandidateWords, legacy.rimeMaxCandidateSize)));
    shared.configuration := UpdateToolbar(shared.configuration,
      (t: KeyboardToolbarConfiguration) => t.(candidateWordFontSize := Overwrite(t.candidateWordFontSize, legacy.rimeCandidateTitleFontSize)));
    shared.configuration := UpdateToolbar(shared.configuration,
      (t: KeyboardToolbarConfiguration) => t.(candidateCommentFontSize := Overwrite(t.candidateCommentFontSize, legacy.rimeCandidateCommentFontSize)));
    shared.configuration := UpdateToolbar(shared.configuration,
      (t: KeyboardToolbarConfiguration) => t.(heightOfToolbar := Overwrite(t.heightOfToolbar, legacy.candidateBarHeight)));
    shared.configuration := UpdateRime(shared.configuration,
      (r: RimeConfiguration) => r.(keyValueOfSwitchSimplifiedAndTraditional := Overwrite(r.keyValueOfSwitchSimplifiedAndTraditional, legacy.rimeSimplifiedAndTraditionalSwitcherKey)));
    shared.configuration := UpdateKeyboard(shared.configuration,
      (k: KeyboardConfiguration) => k.(enableEmbeddedInputMode := Overwrite(k.enableEmbeddedInputMode, legacy.enableInputEmbeddedMode)));
    shared.configuration := UpdateKeyboard(shared.configuration,
      (k: KeyboardConfiguration) => k.(lockShiftState := if legacy.enableKeyboardAutomaticallyLowercase.Some? then Some(!legacy.enableKeyboardAutomaticallyLowercase.value) else k.lockShiftState));
    // the source writes this setting a second time, to the same effect
    shared.configuration := UpdateRime(shared.configuration,
      (r: RimeConfiguration) => r.(keyValueOfSwitchSimplifiedAndTraditional := Overwrite(r.keyValueOfSwitchSimplifiedAndTraditional, legacy.rimeSimplifiedAndTraditionalSwitcherKey)));
  }

  /** The second part: the legacy swipe symbols become the keys of a Chinese
      keyboard entry, which replaces the first Chinese entry of the swipe
      settings or is appended to them. */
  method InstallSwipeSymbols(shared: HamsterAppDependencyContainer, entries: seq<(string, string)>,
                             ops: TextOps, isChinese: KeyboardType -> bool)
    modifies shared
    ensures exists keys :: IsSwipeKeyList(keys, Accepted(entries, ops)) &&
              shared.configuration == InstallChineseSwipe(old(shared.configuration),
                                                          NewKeyboardSwipe(Chinese(Lowercased), keys), isChinese)
  {
    var keySwipeMap := BuildKeySwipeMap(entries, ops);
    var keys := KeysOfMap(keySwipeMap);
    assert IsSwipeKeyList(keys, Accepted(entries, ops));
    var entry := NewKeyboardSwipe(Chinese(Lowercased), keys);
    var c := shared.configuration;
    var index: Option<nat> := None;
    if c.swipe.Some? && c.swipe.value.keyboardSwipe.Some? {
      index := FirstChineseIndex(c.swipe.value.keyboardSwipe.value, isChinese);
    }
    if index.Some? {
      var list := c.swipe.value.keyboardSwipe.value;
      shared.configuration := c.(swipe := Some(c.swipe.value.(keyboardSwipe := Some(list[index.value := entry]))));
    } else if c.swipe.Some? && c.swipe.value.keyboardSwipe.Some? {
      var list := c.swipe.value.keyboardSwipe.value;
      shared.configuration := c.(swipe := Some(c.swipe.value.(keyboardSwipe := Some(list + [entry]))));
    }
    assert shared.configuration == InstallChineseSwipe(c, entry, isChinese);
  }

  // --------------------------------------------------------- properties

  /** A field after `if let v = stored { field = v }`: the stored value when
      there is one, the field as it was otherwise. */
  predicate CopiedOrKept<T(==)>(after: Option<T>, before: Option<T>, stored: Option<T>)
  {
    && (stored.Some? ==> after == stored)
    && (stored.None? ==> after == before)
  }

  /** Each of the seventeen settings copied as they are overwrites its field
      when stored and leaves it as it was otherwise, and `lockShiftState`
      becomes the negation of the legacy automatic-lowercase flag. Nil sections stay nil, present ones stay
      present, and the general and swipe sections are not touched. */
  lemma MigrateSettingsFields(c: HamsterConfiguration, l: LegacySettings)
    ensures var m := MigrateSettings(c, l);
      && m.general == c.general && m.swipe == c.swipe
      && (m.keyboard.Some? <==> c.keyboard.Some?)
      && (m.toolbar.Some? <==> c.toolbar.Some?)
      && (m.rime.Some? <==> c.rime.Some?)
      && (c.keyboard.Some? ==>
            var k, k' := c.keyboard.value, m.keyboard.value;
            && CopiedOrKept(k'.displayButtonBubbles, k.displayButtonBubbles, l.showKeyPressBubble)
            && CopiedOrKept(k'.enableKeySounds, k.enableKeySounds, l.enableKeyboardFeedbackSound)
            && CopiedOrKept(k'.enableHapticFeedback, k.enableHapticFeedback, l.enableKeyboardFeedbackHaptic)
            && CopiedOrKept(k'.displaySemicolonButton, k.displaySemicolonButton, l.showSemicolonButton)
            && CopiedOrKept(k'.displaySpaceLeftButton, k.displaySpaceLeftButton, l.showSpaceLeftButton)
            && CopiedOrKept(k'.keyValueOfSpaceLeftButton, k.keyValueOfSpaceLeftButton, l.spaceLeftButtonValue)
            && CopiedOrKept(k'.displaySpaceRightButton, k.displaySpaceRightButton, l.showSpaceRightButton)
            && CopiedOrKept(k'.keyValueOfSpaceRightButton, k.keyValueOfSpaceRightButton, l.spaceRightButtonValue)
            && CopiedOrKept(k'.displayChineseEnglishSwitchButton, k.displayChineseEnglishSwitchButton,
                            l.showSpaceRightSwitchLanguageButton)
            && CopiedOrKept(k'.chineseEnglishSwitchButtonIsOnLeftOfSpaceButton,
                            k.chineseEnglishSwitchButtonIsOnLeftOfSpaceButton, l.switchLanguageButtonInSpaceLeft)
            && CopiedOrKept(k'.enableEmbeddedInputMode, k.enableEmbeddedInputMode, l.enableInputEmbeddedMode)
            && (l.enableKeyboardAutomaticallyLowercase.Some? ==>
                  k'.lockShiftState == Some(!l.enableKeyboardAutomaticallyLowercase.value))
            && (l.enableKeyboardAutomaticallyLowercase.None? ==> k'.lockShiftState == k.lockShiftState)
            && k'.enableColorSchema == k.enableColorSchema)
      && (c.toolbar.Some? ==>
            var t, t' := c.toolbar.value, m.toolbar.value;
            && CopiedOrKept(t'.displayKeyboardDismissButton, t.displayKeyboardDismissButton,
                            l.showKeyboardDismissButton)
            && CopiedOrKept(t'.candidateWordFontSize, t.candidateWordFontSize, l.rimeCandidateTitleFontSize)
            && CopiedOrKept(t'.candidateCommentFontSize, t.candidateCommentFontSize, l.rimeCandidateCommentFontSize)
            && CopiedOrKept(t'.heightOfToolbar, t.heightOfToolbar, l.candidateBarHeight))
      && (c.rime.Some? ==>
            var r, r' := c.rime.value, m.rime.value;
            && CopiedOrKept(r'.maximumNumberOfCandidateWords, r.maximumNumberOfCandidateWords, l.rimeMaxCandidateSize)
            && CopiedOrKept(r'.keyValueOfSwitchSimplifiedAndTraditional, r.keyValueOfSwitchSimplifiedAndTraditional,
                            l.rimeSimplifiedAndTraditionalSwitcherKey))
  {
  }

  /** With no stored setting the configuration is left exactly as it was. */
  lemma NoLegacySettingsChangeNothing(c: HamsterConfiguration, l: LegacySettings)
    requires NoLegacySettings(l)
    ensures MigrateSettings(c, l) == c
  {
  }

  /** Copying the settings twice is copying them once; so the second write of
      the simplified/traditional switcher key changes nothing. */
  lemma MigrateSettingsIdempotent(c: HamsterConfiguration, l: LegacySettings)
    ensures MigrateSettings(MigrateSettings(c, l), l) == MigrateSettings(c, l)
  {
  }

  /** Installing the Chinese swipe entry: a nil swipe section or keyboard list
      swallows it; otherwise the first Chinese entry is replaced in place
      (same length, every other index as it was), or the entry is appended. */
  lemma InstallChineseSwipeCases(c: HamsterConfiguration, entry: KeyboardSwipe,
                                 isChinese: KeyboardType -> bool)
    ensures var r := InstallChineseSwipe(c, entry, isChinese);
      && r.(swipe := c.swipe) == c
      && (c.swipe.None? || c.swipe.value.keyboardSwipe.None? ==> r == c)
      && (c.swipe.Some? && c.swipe.value.keyboardSwipe.Some? ==>
            var list := c.swipe.value.keyboardSwipe.value;
            r.swipe.Some? && r.swipe.value.(keyboardSwipe := c.swipe.value.keyboardSwipe) == c.swipe.value &&
            r.swipe.value.keyboardSwipe.Some? &&
            var list' := r.swipe.value.keyboardSwipe.value;
            (forall i :: (0 <= i < |list| && IsChineseSwipe(list[i], isChinese) &&
                          (forall j :: 0 <= j < i ==> !IsChineseSwipe(list[j], isChinese))) ==>
               |list'| == |list| && list'[i] == entry &&
               forall j :: 0 <= j < |list| && j != i ==> list'[j] == list[j]) &&
            ((forall j :: 0 <= j < |list| ==> !IsChineseSwipe(list[j], isChinese)) ==> list' == list + [entry]))
  {
  }

  /** The arrows and nothing else pick a direction: up, down, left, right. */
  lemma TranslateEntryAccepts(fullKey: string, fullValue: string, ops: TextOps)
    ensures var key := ops.trim(fullKey);
            var value := ops.trim(fullValue);
            var t := TranslateEntry(fullKey, fullValue, ops);
      && (t.Some? <==> value != [] && key != [] &&
                       key[|key| - 1] in {SlideUp, SlideDown, SlideLeft, SlideRight})
      && (t.Some? ==>
            && t.value.0 == Character(ops.lowercased(key[..|key| - 1]))
            && t.value.1.keyLabel == EmptyLabel
            && (key[|key| - 1] == SlideUp ==> t.value.1.direction == Up)
            && (key[|key| - 1] == SlideDown ==> t.value.1.direction == Down)
            && (key[|key| - 1] == SlideLeft ==> t.value.1.direction == Left)
            && (key[|key| - 1] == SlideRight ==> t.value.1.direction == Right)
            && (t.value.1.action.ShortCommand? <==> "#" <= ops.trim(value) && value in ops.shortcutCommands)
            && (t.value.1.action.ShortCommand? ==> t.value.1.action.command.rawValue == value)
            && (!t.value.1.action.ShortCommand? ==> t.value.1.action == Character(value)))
  {
  }

  /** The code as written traps on an entry whose key is blank and whose value
      is not, e.g. the key `""` with the value `"a"`. */
  lemma BlankKeyTraps()
    ensures var ops := TextOps(s => s, s => s, {});
            TranslateEntryAsWritten("", "a", ops) == Trap && TranslateEntry("", "a", ops).None?
  {
  }

  /** Apart from that trap, the code as written and the model agree. */
  lemma AsWrittenAgreesElsewhere(fullKey: string, fullValue: string, ops: TextOps)
    ensures var w := TranslateEntryAsWritten(fullKey, fullValue, ops);
            var t := TranslateEntry(fullKey, fullValue, ops);
      && (w == Trap <==> ops.trim(fullValue) != [] && ops.trim(fullKey) == [])
      && (w.Skipped? || w.Trap? <==> t.None?)
      && (w.Translated? ==> t == Some((w.action, w.keySwipe)))
  {
  }
}
