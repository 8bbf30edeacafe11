/** The byte-level encoders of the OPP solenoid driver: the kick message of
    `_kick_coil`, the individual configuration message of `reconfigure_driver`
    with its command flags, hold level and minimum-off factor, and a decoder for
    each that is the reference decoding of the byte layout the encoder writes. */
module OppMessages {
  import opened OppTypes
  import opened Numbering

  /** `1 << n`. */
  function Pow2(n: nat): (r: nat)
    ensures r >= 1
  {
    if n == 0 then 1 else 2 * Pow2(n - 1)
  }

  lemma {:induction false} Pow2Add(a: nat, b: nat)
    ensures Pow2(a + b) == Pow2(a) * Pow2(b)
  {
    if a > 0 {
      Pow2Add(a - 1, b);
    }
  }

  lemma {:induction false} Pow2Increasing(n: nat, m: nat)
    requires n < m
    ensures Pow2(n) < Pow2(m)
  {
    if n + 1 < m {
      Pow2Increasing(n, m - 1);
    }
  }

  lemma Pow2Of16()
    ensures Pow2(16) == 65536
  {
    assert Pow2(2) == 4;
    assert Pow2(4) == 16 by { Pow2Add(2, 2); }
    assert Pow2(8) == 256 by { Pow2Add(4, 4); }
    Pow2Add(8, 8);
  }

  // ---------------------------------------------------------------------------
  // Kick message (_kick_coil)

  /** `(mask >> 8) & 0xff` for a non-negative mask. */
  function HighByte(mask: nat): byte {
    (mask / 256) % 256
  }

  /** `mask & 0xff` for a non-negative mask. */
  function LowByte(mask: nat): byte {
    mask % 256
  }

  /** The message `_kick_coil(sol_int, on)` hands to the serial port: the card
      address, KICK_SOL_CMD, the bytes of the mask to switch on (zeros to switch
      off), the bytes of the mask to change, then the CRC of all of it.
      Appending an address outside 0..255 raises. */
  function KickMessage(p: Protocol, addr: int, sol: nat, on: bool): (r: Result<seq<byte>>)
    ensures r.Ok? <==> IsByte(addr)
    ensures r.Err? ==> r.error == ByteOutOfRange
  {
    if !IsByte(addr) then Err(ByteOutOfRange)
    else
      var mask := Pow2(sol);
      var body := [addr as byte] + p.kickSolCmd
                  + (if on then [HighByte(mask), LowByte(mask)] else [0, 0])
                  + [HighByte(mask), LowByte(mask)];
      Ok(body + p.crc8(body))
  }

  /** The 16-bit solenoid word a card reads from a high and a low byte. */
  function Word(high: byte, low: byte): nat {
    high * 256 + low
  }

  /** The word that should reach the card for solenoid `sol`: its own bit. A card
      has 16 solenoids; for a larger index no bit of the word can name it. */
  function SolenoidBit(sol: nat): nat {
    if sol < 16 then Pow2(sol) else 0
  }

  datatype KickFields = KickFields(addr: byte, onWord: nat, maskWord: nat)

  /** Reads a kick message back: address, the two 16-bit words, and a CRC that matches. */
  function DecodeKick(p: Protocol, m: seq<byte>): Option<KickFields> {
    var k := |p.kickSolCmd|;
    if |m| >= 5 + k && m[1..1 + k] == p.kickSolCmd && m[5 + k..] == p.crc8(m[..5 + k])
    then Some(KickFields(m[0], Word(m[1 + k], m[2 + k]), Word(m[3 + k], m[4 + k])))
    else None
  }

  lemma SmallWord(x: nat)
    requires x < 65536
    ensures Word(HighByte(x), LowByte(x)) == x
  {
    assert x / 256 < 256;
  }

  lemma LargeWord(q: nat)
    ensures HighByte(65536 * q) == 0 && LowByte(65536 * q) == 0
  {
    assert 65536 * q == 256 * (256 * q);
    assert (65536 * q) / 256 == 256 * q;
  }

  /** High byte times 256 plus low byte gives back `1 << sol` for the 16 solenoids
      of a card, and 0 beyond them. */
  lemma MaskBytes(sol: nat)
    ensures Word(HighByte(Pow2(sol)), LowByte(Pow2(sol))) == SolenoidBit(sol)
  {
    if sol < 16 {
      MaskBytesBelow16(sol);
    } else {
      MaskBytesBeyond(sol);
    }
  }

  lemma MaskBytesBelow16(sol: nat)
    requires sol < 16
    ensures Word(HighByte(Pow2(sol)), LowByte(Pow2(sol))) == Pow2(sol)
  {
    Pow2Of16();
    Pow2Increasing(sol, 16);
    SmallWord(Pow2(sol));
  }

  lemma MaskBytesBeyond(sol: nat)
    requires sol >= 16
    ensures HighByte(Pow2(sol)) == 0 && LowByte(Pow2(sol)) == 0
  {
    var q := Pow2(sol - 16);
    Pow2Add(16, sol - 16);
    Pow2Of16();
    assert Pow2(sol) == 65536 * q;
    LargeWord(q);
  }

  /** The layout of a kick: the reference decoding gives the card address, the solenoid's bit as
      the word to change, and that bit again as the word to switch on exactly when
      `on` holds (0 when switching off), under a CRC of the preceding bytes. */
  lemma KickLayout(p: Protocol, addr: int, sol: nat, on: bool)
    requires IsByte(addr)
    ensures KickMessage(p, addr, sol, on).Ok?
    ensures DecodeKick(p, KickMessage(p, addr, sol, on).value) ==
            Some(KickFields(addr, if on then SolenoidBit(sol) else 0, SolenoidBit(sol)))
  {
    MaskBytes(sol);
    var mask := Pow2(sol);
    var k := |p.kickSolCmd|;
    var body := [addr as byte] + p.kickSolCmd
                + (if on then [HighByte(mask), LowByte(mask)] else [0, 0])
                + [HighByte(mask), LowByte(mask)];
    var m := body + p.crc8(body);
    assert m[..5 + k] == body;
    assert m[1..1 + k] == p.kickSolCmd;
  }

  // ---------------------------------------------------------------------------
  // Command flags of the configuration message

  /** The flags a configuration message can carry. */
  datatype CfgFlags = CfgFlags(autoClear: bool, fullPower: bool, useSwitch: bool)

  /** The command byte as `reconfigure_driver` adds the flags up with `cmd +=`. */
  function FlagsCmd(p: Protocol, f: CfgFlags): int {
    (if f.autoClear then p.cfgSolAutoClr as int else 0) +
    (if f.fullPower then p.cfgSolOnOff as int else 0) +
    (if f.useSwitch then p.cfgSolUseSwitch as int else 0)
  }

  /** The reference decoding of the command byte: each flag is read from its own bit. */
  function DecodeFlags(p: Protocol, c: bv8): CfgFlags {
    CfgFlags(c & p.cfgSolAutoClr != 0, c & p.cfgSolOnOff != 0, c & p.cfgSolUseSwitch != 0)
  }

  function FlagsMask(p: Protocol, f: CfgFlags): bv8 {
    (if f.autoClear then p.cfgSolAutoClr else 0) |
    (if f.fullPower then p.cfgSolOnOff else 0) |
    (if f.useSwitch then p.cfgSolUseSwitch else 0)
  }

  /** Distinct single bits can be told apart in any combination. */
  lemma MaskBits(a: bv8, o: bv8, u: bv8, x: bool, y: bool, z: bool)
    requires SingleBit(a) && SingleBit(o) && SingleBit(u)
    requires a & o == 0 && a & u == 0 && o & u == 0
    ensures var m := (if x then a else 0) | (if y then o else 0) | (if z then u else 0);
            (m & a != 0 <==> x) && (m & o != 0 <==> y) && (m & u != 0 <==> z)
  {
  }

  lemma BvRoundTrip(m: bv8)
    ensures 0 <= m as int < 256 && (m as int) as bv8 == m
  {
  }

  lemma DisjointSum(a: bv8, b: bv8)
    requires a & b == 0
    ensures (a as int) + (b as int) == (a | b) as int
  {
  }

  lemma FlagsCmdIsMask(p: Protocol, f: CfgFlags)
    requires ValidFlags(p)
    ensures FlagsCmd(p, f) == FlagsMask(p, f) as int
  {
    var a: bv8 := if f.autoClear then p.cfgSolAutoClr else 0;
    var o: bv8 := if f.fullPower then p.cfgSolOnOff else 0;
    var u: bv8 := if f.useSwitch then p.cfgSolUseSwitch else 0;
    DisjointSum(a, o);
    DisjointSum(a | o, u);
  }

  /** Testing each flag's bit in the summed mask gives back the flags. */
  lemma MaskFlags(p: Protocol, f: CfgFlags)
    requires ValidFlags(p)
    ensures DecodeFlags(p, FlagsMask(p, f)) == f
  {
    MaskBits(p.cfgSolAutoClr, p.cfgSolOnOff, p.cfgSolUseSwitch, f.autoClear, f.fullPower, f.useSwitch);
  }

  /** With the flags on distinct bits, the command byte the driver adds up is a
      byte, and reading each flag's bit gives back exactly the flags that were added. */
  lemma FlagsRoundTrip(p: Protocol, f: CfgFlags)
    requires ValidFlags(p)
    ensures IsByte(FlagsCmd(p, f))
    ensures DecodeFlags(p, FlagsCmd(p, f) as bv8) == f
  {
    var m := FlagsMask(p, f);
    FlagsCmdIsMask(p, f);
    BvRoundTrip(m);
    MaskFlags(p, f);
  }

  // ---------------------------------------------------------------------------
  // Hold level

  /** Python's `int(x)` on a float: truncation toward zero. */
  function Trunc(x: real): int {
    if x >= 0.0 then x.Floor else -((-x).Floor)
  }

  /** `not hold_settings or not hold_settings.power`. */
  predicate HoldOff(hs: Option<HoldSettings>) {
    hs.None? || hs.value.power.None? || hs.value.power.value == 0.0
  }

  /** The flags and hold level `reconfigure_driver` derives from the hold settings. */
  datatype HoldEncoding = HoldEncoding(autoClear: bool, fullPower: bool, hold: int)

  /** No hold power means auto-clear and level 0; otherwise the level is the power in
      sixteenths, clamped to 15, and a clamped level asks for full power on firmware
      0.2.0.0 and later. */
  function EncodeHold(hs: Option<HoldSettings>, minVersion: int): (r: HoldEncoding)
    ensures r.hold <= 15
    ensures r.autoClear <==> HoldOff(hs)
    ensures !(r.autoClear && r.fullPower)
    ensures HoldOff(hs) ==> r.hold == 0
  {
    if HoldOff(hs) then HoldEncoding(true, false, 0)
    else
      var level := Trunc(hs.value.power.value * 16.0);
      if level >= 16 then HoldEncoding(false, minVersion >= 0x0002_0000, 15)
      else HoldEncoding(false, false, level)
  }

  /** What the hold level means: the largest number of sixteenths not above the
      requested power, saturating at 15 for a power of 1 or more, where full power is
      flagged exactly when the firmware knows the flag; a negative power truncates
      toward zero. */
  lemma HoldLevelMeaning(hs: Option<HoldSettings>, minVersion: int)
    requires !HoldOff(hs)
    ensures var power, r := hs.value.power.value, EncodeHold(hs, minVersion);
            && (power >= 1.0 ==> r.hold == 15 && (r.fullPower <==> minVersion >= 0x0002_0000))
            && (0.0 < power < 1.0 ==>
                  !r.fullPower && 0 <= r.hold < 16 &&
                  r.hold as real <= 16.0 * power < (r.hold + 1) as real)
            && (power < 0.0 ==>
                  !r.fullPower && r.hold <= 0 &&
                  (r.hold - 1) as real < 16.0 * power <= r.hold as real)
  {
    var power := hs.value.power.value;
    var level := Trunc(power * 16.0);
    if power >= 1.0 {
      assert level >= 16;
    } else if power > 0.0 {
      assert level < 16;
    } else {
      var down := (-(power * 16.0)).Floor;
      assert level == -down;
      assert down as real <= -(power * 16.0) < (down + 1) as real;
    }
  }

  // ---------------------------------------------------------------------------
  // Minimum off time and the timing byte

  /** `get_minimum_off_time(recycle)`: 0 without recycle, else the configured
      recycle factor when it is set, else 2. Reading the factor while the platform
      settings are still None raises. */
  function MinimumOffTime(settings: Option<PlatformSettings>, recycle: bool): (r: Result<int>)
    ensures r.Ok? <==> !recycle || settings.Some?
    ensures r.Err? ==> r.error == MissingPlatformSettings
    ensures r.Ok? ==> (r.value == 0 <==> !recycle)
    ensures recycle && settings.Some? && settings.value.recycleFactor != 0 ==> r == Ok(settings.value.recycleFactor)
    ensures recycle && settings.Some? && settings.value.recycleFactor == 0 ==> r == Ok(2)
  {
    if !recycle then Ok(0)
    else if settings.None? then Err(MissingPlatformSettings)
    else if settings.value.recycleFactor != 0 then Ok(settings.value.recycleFactor)
    else Ok(2)
  }

  /** `hold + (minimum_off << 4)`. */
  function Timing(hold: int, minOff: int): int {
    hold + minOff * 16
  }

  /** For a hold level of 0..15 the timing byte is valid exactly when the factor
      fits the high nibble, and then the hold level is the low
      nibble and the factor the high one. */
  lemma TimingNibbles(hold: int, minOff: int)
    requires 0 <= hold < 16
    ensures IsByte(Timing(hold, minOff)) <==> 0 <= minOff < 16
    ensures IsByte(Timing(hold, minOff)) ==>
              Timing(hold, minOff) % 16 == hold && Timing(hold, minOff) / 16 == minOff
  {
  }

  // ---------------------------------------------------------------------------
  // Configuration message (the message part of reconfigure_driver)

  /** The individual configuration message: card address, CFG_IND_SOL_CMD, solenoid
      index, command byte, pulse length and timing byte, then the CRC of those and
      EOM_CMD. The appends happen in that order, so the first value outside 0..255
      raises (and `int(solenoid)` raises first if the index field is not a number). */
  function ConfigMessage(p: Protocol, addr: int, solenoid: string, cmd: int, pulseLen: int, timing: int)
    : (r: Result<seq<byte>>)
    ensures r.Ok? <==>
              IsByte(addr) && ParseDecimal(solenoid).Some? && IsByte(ParseDecimal(solenoid).value) &&
              IsByte(cmd) && IsByte(pulseLen) && IsByte(timing)
    ensures r.Err? ==> (r.error == MalformedNumber <==> IsByte(addr) && ParseDecimal(solenoid).None?)
    ensures r.Err? ==> r.error == MalformedNumber || r.error == ByteOutOfRange
  {
    if !IsByte(addr) then Err(ByteOutOfRange)
    else match ParseDecimal(solenoid)
      case None => Err(MalformedNumber)
      case Some(sol) =>
        if !IsByte(sol) || !IsByte(cmd) || !IsByte(pulseLen) || !IsByte(timing) then Err(ByteOutOfRange)
        else
          var body := [addr as byte] + p.cfgIndSolCmd + [sol as byte, cmd as byte, pulseLen as byte, timing as byte];
          Ok(body + p.crc8(body) + p.eomCmd)
  }

  datatype ConfigFields = ConfigFields(addr: byte, solenoid: byte, cmd: byte, pulseLen: byte, timing: byte)

  /** Reads a configuration message back: the five fields, a matching CRC and EOM_CMD. */
  function DecodeConfig(p: Protocol, m: seq<byte>): Option<ConfigFields> {
    var k := |p.cfgIndSolCmd|;
    if |m| >= 5 + k && m[1..1 + k] == p.cfgIndSolCmd && m[5 + k..] == p.crc8(m[..5 + k]) + p.eomCmd
    then Some(ConfigFields(m[0], m[1 + k], m[2 + k], m[3 + k], m[4 + k]))
    else None
  }

  /** Every configuration message that is built reads back as the fields it was built from. */
  lemma ConfigLayout(p: Protocol, addr: int, solenoid: string, cmd: int, pulseLen: int, timing: int)
    requires ConfigMessage(p, addr, solenoid, cmd, pulseLen, timing).Ok?
    ensures DecodeConfig(p, ConfigMessage(p, addr, solenoid, cmd, pulseLen, timing).value) ==
            Some(ConfigFields(addr, ParseDecimal(solenoid).value, cmd, pulseLen, timing))
  {
    var k := |p.cfgIndSolCmd|;
    var sol := ParseDecimal(solenoid).value;
    var body := [addr as byte] + p.cfgIndSolCmd + [sol as byte, cmd as byte, pulseLen as byte, timing as byte];
    var m := body + p.crc8(body) + p.eomCmd;
    assert m[..5 + k] == body;
    assert m[1..1 + k] == p.cfgIndSolCmd;
    assert m[5 + k..] == p.crc8(body) + p.eomCmd;
  }
}
