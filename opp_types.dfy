/** Values the OPP solenoid driver works with: bytes of a serial message, the
    interface constants and CRC of the OPP serial protocol, the pulse and hold
    settings a caller passes in, and the errors Python raises on the way.
    The serial interface module (opp_rs232_intf) is not part of this model: its
    constants and its CRC routine are fields of `Protocol`, so every fact proved
    about the driver holds whatever their values are, unless it says otherwise. */
module OppTypes {

  /** One element of a Python bytearray. */
  type byte = x: int | 0 <= x < 256

  /** What `bytearray.append` accepts without raising ValueError. */
  predicate IsByte(x: int) {
    0 <= x < 256
  }

  /** The constants of the OPP serial interface and its CRC, as the driver uses them.
      Multi-byte constants are extended onto a message; the three configuration flags
      are single bytes read with `ord` and added into the command byte. */
  datatype Protocol = Protocol(
    kickSolCmd: seq<byte>,          // KICK_SOL_CMD
    cfgIndSolCmd: seq<byte>,        // CFG_IND_SOL_CMD
    eomCmd: seq<byte>,              // EOM_CMD
    cfgSolAutoClr: bv8,             // ord(CFG_SOL_AUTO_CLR)
    cfgSolOnOff: bv8,               // ord(CFG_SOL_ON_OFF)
    cfgSolUseSwitch: bv8,           // ord(CFG_SOL_USE_SWITCH)
    cardIdGen2Card: byte,           // ord(CARD_ID_GEN2_CARD)
    crc8: seq<byte> -> seq<byte>    // calc_crc8_whole_msg
  )

  predicate SingleBit(b: bv8) {
    b != 0 && b & (b - 1) == 0
  }

  /** The configuration flags are three different single bits of the command byte,
      which is what lets the firmware tell them apart. */
  predicate ValidFlags(p: Protocol) {
    SingleBit(p.cfgSolAutoClr) && SingleBit(p.cfgSolOnOff) && SingleBit(p.cfgSolUseSwitch) &&
    p.cfgSolAutoClr & p.cfgSolOnOff == 0 &&
    p.cfgSolAutoClr & p.cfgSolUseSwitch == 0 &&
    p.cfgSolOnOff & p.cfgSolUseSwitch == 0
  }

  /** PulseSettings(duration, power): duration in milliseconds, power as a fraction.
      A power of None stands for a configuration that left it unset. */
  datatype PulseSettings = PulseSettings(duration: int, power: Option<real>)

  /** HoldSettings(power): the hold power as a fraction of full power, or None. */
  datatype HoldSettings = HoldSettings(power: Option<real>)

  /** The per-driver platform settings; a `recycle_factor` of None is falsy like 0,
      and both are written 0 here. */
  datatype PlatformSettings = PlatformSettings(recycleFactor: int)

  /** The coil configuration fields that `remove_switch_rule` reads. */
  datatype DriverConfig = DriverConfig(
    defaultPulseMs: Option<int>,
    defaultPulsePower: Option<real>,
    defaultHoldPower: Option<real>)

  /** The exceptions the driver raises, by cause. */
  datatype Error =
    | ConflictingRule          // AssertionError in set_switch_rule
    | MalformedNumber          // ValueError from `number.split("-")` unpacking or `int(solenoid)`
    | ByteOutOfRange           // ValueError from bytearray.append
    | MissingPlatformSettings  // TypeError: platform_settings is still None
    | MissingDriverConfig      // AttributeError: config is still the empty dict

  datatype Option<+T> = None | Some(value: T)

  datatype Result<+T> = Ok(value: T) | Err(error: Error)

  /** How a call that returns nothing ends: normally, or by raising. */
  datatype Outcome = Pass | Fail(error: Error)
}
