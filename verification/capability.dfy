/** Agent capabilities and which of them need a human's confirmation. */
module Capabilities {
  datatype Capability =
    | ScreenRead | PointerMove | PointerClick | KeyType | KeyCombo | ClipboardRead
    | ClipboardWrite | FileRead | FileWrite | ShellExec | OpenUrl

  datatype SecurityLevel = Normal | Conditional | Dangerous

  function SecurityLevelOf(c: Capability): SecurityLevel {
    match c
    case ScreenRead | PointerMove => Normal
    case PointerClick | KeyType | KeyCombo | ClipboardWrite | OpenUrl => Conditional
    case ClipboardRead | FileRead | FileWrite | ShellExec => Dangerous
  }

  predicate RequiresConfirmation(c: Capability) {
    SecurityLevelOf(c) == Dangerous
  }

  /** The whole classification, level by level. */
  lemma Levels(c: Capability)
    ensures RequiresConfirmation(c) <==> c in {ClipboardRead, FileRead, FileWrite, ShellExec}
    ensures SecurityLevelOf(c) == Dangerous <==> c in {ClipboardRead, FileRead, FileWrite, ShellExec}
    ensures SecurityLevelOf(c) == Conditional <==> c in {PointerClick, KeyType, KeyCombo, ClipboardWrite, OpenUrl}
    ensures SecurityLevelOf(c) == Normal <==> c in {ScreenRead, PointerMove}
  {
  }
}
