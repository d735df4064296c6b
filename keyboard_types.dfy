/** The keyboard vocabulary shared by the swipe configuration and the settings
    migration: keyboard layouts, key actions, swipe gestures and keys. Only the
    cases these two files construct or inspect are spelled out. */
module KeyboardTypes {

  /** `KeyboardCase`: the letter case of a lettered layout. */
  datatype KeyboardCase = Lowercased | Uppercased

  /** `KeyboardType`: the Chinese layout the migration installs, and every
      other layout under its name. */
  datatype KeyboardType = Chinese(keyboardCase: KeyboardCase) | Other(name: string)

  /** `ShortcutCommand`, identified by its raw value (its `#...` name). */
  datatype ShortcutCommand = ShortcutCommand(rawValue: string)

  /** `KeyboardAction`: typing a string, or running a shortcut command. */
  datatype KeyboardAction = Character(text: string) | ShortCommand(command: ShortcutCommand)

  /** `KeySwipe.Direction`. */
  datatype Direction = Up | Down | Left | Right

  /** `KeyLabel`: the migration only ever uses the empty label. */
  datatype KeyLabel = EmptyLabel | Text(text: string)

  /** `KeySwipe`: what a swipe in one direction on a key does. */
  datatype KeySwipe = KeySwipe(direction: Direction, action: KeyboardAction, keyLabel: KeyLabel)

  /** `Key`: a key, named by the action it types, with its swipe gestures. */
  datatype Key = Key(action: KeyboardAction, swipe: seq<KeySwipe>)
}
