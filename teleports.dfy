/** The teleport capability a warrior delegates to: the `Teleports`
    strategy and its two stateless variants. */
module Teleports {

  const TeleportsAway := "Teleports Away"
  const FailsAtTeleporting := "Fails at Teleporting"

  /** A teleport strategy. Neither variant holds any state, so a strategy is
      a plain value and every call on it returns the same label. */
  datatype Teleports = CanTeleport | CantTeleport {

    /** The fixed label each variant reports. */
    function Teleport(): (text: string)
      ensures CanTeleport? ==> text == TeleportsAway
      ensures CantTeleport? ==> text == FailsAtTeleporting
    {
      match this
      case CanTeleport => TeleportsAway
      case CantTeleport => FailsAtTeleporting
    }
  }

  /** The label tells the strategies apart: swapping one for the other
      changes what a teleport reports. */
  lemma TeleportIsInjective(a: Teleports, b: Teleports)
    ensures a.Teleport() == b.Teleport() <==> a == b
  {
  }
}
