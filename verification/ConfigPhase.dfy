/** Packet ids of the Configuration phase. */
module ConfigPhase {
  import opened Wire

  /** FinishConfiguration, the same id in both directions. */
  function FinishId(version: int): i32 { if version >= 766 then 0x03 else 0x02 }

  /** The clientbound disconnect of the Configuration phase. */
  function DisconnectId(version: int): i32 { if version >= 766 then 0x02 else 0x01 }
}
