/** Where a datapoint lives, and what each protocol can do there. */
module AddressSpaces {
  import opened Basics

  datatype Protocol = P300 | KW | GWG

  datatype Space =
    | OWN | GFA | RPC
    | GWG_VIRTUAL | GWG_EEPROM | GWG_XRAM | GWG_PORT | GWG_BE | GWG_KMBUS_RAM | GWG_KMBUS_EEPROM

  /** Whether the protocol has a telegram for the space. */
  predicate Available(p: Protocol, s: Space) {
    match s
    case OWN => true
    case GFA => p != GWG
    case RPC => p == P300
    case _ => p == GWG
  }

  predicate Writable(p: Protocol, s: Space) {
    !s.GFA? && !s.RPC? && !s.GWG_KMBUS_RAM? && !s.GWG_KMBUS_EEPROM? && Available(p, s)
  }

  /** Over P300 a GFA read leaves the link for KW and comes back. */
  predicate HasSwitchCost(p: Protocol, s: Space) {
    p == P300 && s == GFA
  }

  function ReadTelegramCount(p: Protocol, s: Space, length: nat): nat {
    if p == GWG && s == GWG_EEPROM && length > 1 then length else 1
  }

  const WATCHDOG_MS: nat := 10000

  function WatchdogBudget(telegrams: nat): u32 {
    Wrap32(WATCHDOG_MS * (if telegrams == 0 then 1 else telegrams))
  }
}
