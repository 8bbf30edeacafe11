/** The classes of opp_coil.py. OPPSolenoid keeps its switch rule and its cached
    configuration in fields and builds each message byte by byte; every method is
    proved to leave the state, and to add to the serial log, exactly what the
    corresponding function of OppDriver says. OPPSolenoidCard's constructor fills
    the caller's solenoid dictionary from the card's 16-bit mask. */
module OppCoil {
  import opened OppTypes
  import opened Numbering
  import opened OppMessages
  import opened OppDriver

  /** One call of `send_to_processor(chain_serial, msg)`. */
  datatype Sent = Sent(chainSerial: string, msg: seq<byte>)

  /** The log entries for messages sent in order on one chain. */
  function Outgoing(chainSerial: string, msgs: seq<seq<byte>>): seq<Sent> {
    if msgs == [] then [] else [Sent(chainSerial, msgs[0])] + Outgoing(chainSerial, msgs[1..])
  }

  lemma {:induction false} OutgoingAppend(chainSerial: string, a: seq<seq<byte>>, b: seq<seq<byte>>)
    ensures Outgoing(chainSerial, a + b) == Outgoing(chainSerial, a) + Outgoing(chainSerial, b)
  {
    if a != [] {
      assert (a + b)[1..] == a[1..] + b;
      OutgoingAppend(chainSerial, a[1..], b);
    } else {
      assert a + b == b;
    }
  }

  /** `bytearray.append(x)`: raises unless x is a byte. */
  method Append(msg: seq<byte>, x: int) returns (next: seq<byte>, r: Outcome)
    ensures IsByte(x) ==> next == msg + [x] && r == Pass
    ensures !IsByte(x) ==> next == msg && r == Fail(ByteOutOfRange)
  {
    if 0 <= x < 256 {
      next, r := msg + [x], Pass;
    } else {
      next, r := msg, Fail(ByteOutOfRange);
    }
  }

  /** The part of the OPP platform a solenoid uses: the interface constants, the
      lowest firmware version among the boards, and the serial port, whose output
      is recorded as a log of sent messages. */
  class OPPPlatform {
    const intf: Protocol
    var minVersion: int
    ghost var sent: seq<Sent>

    constructor (intf: Protocol, minVersion: int)
      ensures this.intf == intf && this.minVersion == minVersion && sent == []
    {
      this.intf := intf;
      this.minVersion := minVersion;
      sent := [];
    }

    /** `send_to_processor(chain_serial, msg)`. */
    method SendToProcessor(chainSerial: string, msg: seq<byte>)
      modifies this`sent
      ensures sent == old(sent) + [Sent(chainSerial, msg)]
    {
      sent := sent + [Sent(chainSerial, msg)];
    }
  }

  /** The caller's `sol_dict`, which the card fills in. */
  class SolenoidDict {
    var entries: map<string, OPPSolenoid>

    constructor ()
      ensures entries == map[]
    {
      entries := map[];
    }
  }

  /** `((1 << index) & mask) != 0`: bit `index` of `mask`, two's complement for a
      negative mask as in Python (Dafny's `/` rounds down for a positive divisor). */
  predicate Bit(mask: int, index: nat) {
    (mask / Pow2(index)) % 2 == 1
  }

  /** The names a card creates for the first `upto` indices of its mask. */
  function CardNumbersBelow(chainSerial: string, card: int, mask: int, upto: nat): set<string> {
    set i: nat | i < upto && Bit(mask, i) :: SolenoidNumber(chainSerial, card, i)
  }

  /** The names of all solenoids a card creates. */
  function CardNumbers(chainSerial: string, card: int, mask: int): set<string> {
    CardNumbersBelow(chainSerial, card, mask, 16)
  }

  lemma CardNumbersBelowNext(chainSerial: string, card: int, mask: int, upto: nat)
    ensures CardNumbersBelow(chainSerial, card, mask, upto + 1) ==
            CardNumbersBelow(chainSerial, card, mask, upto) +
            (if Bit(mask, upto) then {SolenoidNumber(chainSerial, card, upto)} else {})
  {
  }

  /** A card names solenoid `i` (below 16) exactly when bit `i` of its mask is set. */
  lemma CardNumbersExact(chainSerial: string, card: int, mask: int, i: nat)
    requires i < 16
    ensures SolenoidNumber(chainSerial, card, i) in CardNumbers(chainSerial, card, mask) <==> Bit(mask, i)
  {
    if SolenoidNumber(chainSerial, card, i) in CardNumbers(chainSerial, card, mask) {
      var j: nat :| j < 16 && Bit(mask, j) && SolenoidNumber(chainSerial, card, j) == SolenoidNumber(chainSerial, card, i);
      SolenoidNumberInjective(chainSerial, card, i, j);
    }
  }

  /** When the chain serial has no dash and the card number is not negative, every
      name a card creates parses back, in the driver, to an index below 16 whose
      mask bit is set and which names it. */
  lemma CardNumbersParseBack(chainSerial: string, card: int, mask: int, n: string)
    requires '-' !in chainSerial && card >= 0
    requires n in CardNumbers(chainSerial, card, mask)
    ensures SolenoidIndex(n).Ok?
    ensures var i := SolenoidIndex(n).value;
            i < 16 && Bit(mask, i) && n == SolenoidNumber(chainSerial, card, i)
  {
    var i: nat :| i < 16 && Bit(mask, i) && n == SolenoidNumber(chainSerial, card, i);
    SolenoidIndexRoundTrip(chainSerial, card, i);
  }

  /** OPP solenoid card. */
  class OPPSolenoidCard {
    const chainSerial: string
    const addr: int
    const mask: int
    const platform: OPPPlatform
    var state: int

    /** Creates one solenoid for each set bit among the 16 of `mask`, named
        `chain_serial-card-index`, and inserts it into `solDict`, replacing an entry
        of the same name; every other entry is left alone. */
    constructor (chainSerial: string, addr: int, mask: int, solDict: SolenoidDict, platform: OPPPlatform)
      modifies solDict
      ensures this.chainSerial == chainSerial && this.addr == addr && this.mask == mask
      ensures this.platform == platform && state == 0
      ensures var created := CardNumbers(chainSerial, addr - platform.intf.cardIdGen2Card, mask);
              && solDict.entries.Keys == old(solDict.entries.Keys) + created
              && (forall n :: n in created ==>
                    && fresh(solDict.entries[n])
                    && solDict.entries[n].solCard == this
                    && solDict.entries[n].number == n
                    && solDict.entries[n].Unconfigured())
              && (forall n :: n in old(solDict.entries) && n !in created ==>
                    solDict.entries[n] == old(solDict.entries[n]))
    {
      this.chainSerial := chainSerial;
      this.addr := addr;
      this.mask := mask;
      this.platform := platform;
      state := 0;
      new;
      var cardNo := addr - platform.intf.cardIdGen2Card;
      var card := IntToString(cardNo);
      var index := 0;
      while index < 16
        invariant 0 <= index <= 16 && state == 0
        invariant solDict.entries.Keys ==
                  old(solDict.entries.Keys) + CardNumbersBelow(chainSerial, cardNo, mask, index)
        invariant forall n :: n in CardNumbersBelow(chainSerial, cardNo, mask, index) ==>
                    && fresh(solDict.entries[n])
                    && solDict.entries[n].solCard == this
                    && solDict.entries[n].number == n
                    && solDict.entries[n].Unconfigured()
        invariant forall n :: n in old(solDict.entries) && n !in CardNumbersBelow(chainSerial, cardNo, mask, index) ==>
                    solDict.entries[n] == old(solDict.entries[n])
      {
        CardNumbersBelowNext(chainSerial, cardNo, mask, index);
        if Bit(mask, index) {
          var number := chainSerial + "-" + card + "-" + NatToString(index);
          assert number == SolenoidNumber(chainSerial, cardNo, index);
          var sol := new OPPSolenoid(this, number);
          sol.config := None;
          solDict.entries := solDict.entries[number := sol];
        }
        index := index + 1;
      }
    }
  }

  /** Driver of an OPP solenoid card. */
  class OPPSolenoid {
    const solCard: OPPSolenoidCard
    const number: string
    var switchRule: Option<SwitchRule>
    var configState: Option<ConfigState>
    var platformSettings: Option<PlatformSettings>
    var config: Option<DriverConfig>

    constructor (solCard: OPPSolenoidCard, number: string)
      ensures this.solCard == solCard && this.number == number && Unconfigured()
    {
      this.solCard := solCard;
      this.number := number;
      switchRule := None;
      configState := None;
      platformSettings := None;
      config := None;
    }

    /** A freshly created driver: no rule, nothing cached, no settings yet. */
    predicate Unconfigured()
      reads this
    {
      switchRule.None? && configState.None? && platformSettings.None? && config.None?
    }

    /** What this driver reads and never writes. */
    function Environment(): Env
      reads this`platformSettings, this`config, solCard.platform`minVersion
    {
      Env(solCard.platform.intf, solCard.addr, number, solCard.platform.minVersion, platformSettings, config)
    }

    /** What this driver writes. */
    function DriverState(): Driver
      reads this`switchRule, this`configState
    {
      Driver(switchRule, configState)
    }

    /** `_kick_coil(sol_int, on)`. */
    method KickCoil(solInt: nat, on: bool) returns (r: Outcome)
      modifies solCard.platform`sent
      ensures var k := KickMessage(solCard.platform.intf, solCard.addr, solInt, on);
              && r == (if k.Ok? then Pass else Fail(k.error))
              && solCard.platform.sent == old(solCard.platform.sent) + (if k.Ok? then [Sent(solCard.chainSerial, k.value)] else [])
    {
      var p := solCard.platform.intf;
      var mask := Pow2(solInt);
      var msg: seq<byte> := [];
      msg, r := Append(msg, solCard.addr);
      if r.Fail? {
        return;
      }
      msg := msg + p.kickSolCmd;
      if on {
        msg := msg + [(mask / 256) % 256];
        msg := msg + [mask % 256];
      } else {
        msg := msg + [0];
        msg := msg + [0];
      }
      msg := msg + [(mask / 256) % 256];
      msg := msg + [mask % 256];
      assert msg == [solCard.addr as byte] + p.kickSolCmd
                    + (if on then [HighByte(mask), LowByte(mask)] else [0, 0])
                    + [HighByte(mask), LowByte(mask)];
      msg := msg + p.crc8(msg);
      solCard.platform.SendToProcessor(solCard.chainSerial, msg);
    }

    /** The first half of `reconfigure_driver` after the cache update: the command
        byte without the switch flag, and the hold level. */
    method HoldCommand(hold: Option<HoldSettings>) returns (cmd: int, holdLevel: int)
      ensures var enc := EncodeHold(hold, solCard.platform.minVersion);
              && holdLevel == enc.hold
              && cmd == FlagsCmd(solCard.platform.intf, CfgFlags(enc.autoClear, enc.fullPower, false))
    {
      var p := solCard.platform.intf;
      if HoldOff(hold) {
        cmd := p.cfgSolAutoClr as int;
        holdLevel := 0;
      } else {
        cmd := 0;
        holdLevel := Trunc(hold.value.power.value * 16.0);
        if holdLevel >= 16 {
          holdLevel := 15;
          if solCard.platform.minVersion >= 0x0002_0000 {
            cmd := cmd + p.cfgSolOnOff as int;
          }
        }
      }
    }

    /** The end of `reconfigure_driver`: builds the configuration message byte by
        byte and sends it, or raises where an append or `int(solenoid)` does. */
    method WriteConfig(solenoid: string, cmd: int, pulseLen: int, timing: int) returns (r: Outcome)
      modifies solCard.platform`sent
      ensures var m := ConfigMessage(solCard.platform.intf, solCard.addr, solenoid, cmd, pulseLen, timing);
              && r == (if m.Ok? then Pass else Fail(m.error))
              && solCard.platform.sent == old(solCard.platform.sent) + (if m.Ok? then [Sent(solCard.chainSerial, m.value)] else [])
    {
      var p := solCard.platform.intf;
      var msg: seq<byte> := [];
      msg, r := Append(msg, solCard.addr);
      if r.Fail? {
        return;
      }
      msg := msg + p.cfgIndSolCmd;
      var solInt := ParseDecimal(solenoid);
      if solInt.None? {
        return Fail(MalformedNumber);
      }
      msg, r := Append(msg, solInt.value);
      if r.Fail? {
        return;
      }
      msg, r := Append(msg, cmd);
      if r.Fail? {
        return;
      }
      msg, r := Append(msg, pulseLen);
      if r.Fail? {
        return;
      }
      msg, r := Append(msg, timing);
      if r.Fail? {
        return;
      }
      assert msg == [solCard.addr as byte] + p.cfgIndSolCmd
                    + [solInt.value as byte, cmd as byte, pulseLen as byte, timing as byte];
      msg := msg + p.crc8(msg);
      msg := msg + p.eomCmd;
      solCard.platform.SendToProcessor(solCard.chainSerial, msg);
    }

    /** The part of `reconfigure_driver` after the cache update: derives the command
        byte, the hold level and the minimum off time, then writes the message. */
    method SendConfig(pulse: PulseSettings, hold: Option<HoldSettings>, recycle: bool) returns (r: Outcome)
      modifies solCard.platform`sent
      ensures var m := ConfigFor(Environment(), switchRule.Some?, pulse, hold, recycle);
              && r == (if m.Ok? then Pass else Fail(m.error))
              && solCard.platform.sent == old(solCard.platform.sent) + (if m.Ok? then [Sent(solCard.chainSerial, m.value)] else [])
    {
      ghost var env := Environment();
      ghost var enc := EncodeHold(hold, env.minVersion);
      ghost var config := ConfigFor(env, switchRule.Some?, pulse, hold, recycle);
      var cmd, holdLevel := HoldCommand(hold);

      var minimumOff: int;
      match MinimumOffTime(platformSettings, recycle) {
        case Err(e) =>
          assert config == Err(e);
          return Fail(e);
        case Ok(v) => minimumOff := v;
      }

      if switchRule.Some? {
        cmd := cmd + solCard.platform.intf.cfgSolUseSwitch as int;
      }
      assert cmd == FlagsCmd(env.p, CfgFlags(enc.autoClear, enc.fullPower, switchRule.Some?));

      var solenoid := SolenoidField(number);
      if solenoid.Err? {
        assert config == Err(solenoid.error);
        return Fail(solenoid.error);
      }
      assert config == ConfigMessage(env.p, env.addr, solenoid.value, cmd, pulse.duration, Timing(holdLevel, minimumOff));
      r := WriteConfig(solenoid.value, cmd, pulse.duration, holdLevel + minimumOff * 16);
    }

    /** `reconfigure_driver(pulse_settings, hold_settings, recycle)`. */
    method ReconfigureDriver(pulse: PulseSettings, hold: Option<HoldSettings>, recycle: bool) returns (r: Outcome)
      modifies this`configState, solCard.platform`sent
      ensures var s := Reconfigure(old(Environment()), old(DriverState()), pulse, hold, recycle);
              && DriverState() == s.driver
              && solCard.platform.sent == old(solCard.platform.sent) + Outgoing(solCard.chainSerial, s.sent)
              && r == s.outcome
    {
      var newConfigState := ConfigState(pulse, hold, recycle, switchRule.Some?);
      if configState == Some(newConfigState) {
        return Pass;
      }
      configState := Some(newConfigState);
      r := SendConfig(pulse, hold, recycle);
    }

    /** `apply_switch_rule()`. */
    method ApplySwitchRule() returns (r: Outcome)
      modifies this`configState, solCard.platform`sent
      ensures var s := OppDriver.ApplySwitchRule(old(Environment()), old(DriverState()));
              && DriverState() == s.driver
              && solCard.platform.sent == old(solCard.platform.sent) + Outgoing(solCard.chainSerial, s.sent)
              && r == s.outcome
    {
      r := Pass;
      if switchRule.Some? {
        r := ReconfigureDriver(switchRule.value.pulse, switchRule.value.hold, switchRule.value.recycle);
      }
    }

    /** `set_switch_rule(pulse_settings, hold_settings, recycle)`. */
    method SetSwitchRule(pulse: PulseSettings, hold: Option<HoldSettings>, recycle: bool) returns (r: Outcome)
      modifies this`switchRule, this`configState, solCard.platform`sent
      ensures var s := OppDriver.SetSwitchRule(old(Environment()), old(DriverState()), pulse, hold, recycle);
              && DriverState() == s.driver
              && solCard.platform.sent == old(solCard.platform.sent) + Outgoing(solCard.chainSerial, s.sent)
              && r == s.outcome
    {
      var newRule := SwitchRule(pulse, hold, recycle);
      if switchRule.Some? && switchRule.value != newRule {
        return Fail(ConflictingRule);
      }
      switchRule := Some(newRule);
      r := ApplySwitchRule();
    }

    /** `remove_switch_rule()`. */
    method RemoveSwitchRule() returns (r: Outcome)
      modifies this`switchRule, this`configState, solCard.platform`sent
      ensures var s := OppDriver.RemoveSwitchRule(old(Environment()), old(DriverState()));
              && DriverState() == s.driver
              && solCard.platform.sent == old(solCard.platform.sent) + Outgoing(solCard.chainSerial, s.sent)
              && r == s.outcome
    {
      switchRule := None;
      if config.None? {
        return Fail(MissingDriverConfig);
      }
      var duration := if config.value.defaultPulseMs.Some? then config.value.defaultPulseMs.value else 10;
      r := ReconfigureDriver(PulseSettings(duration, config.value.defaultPulsePower),
                             Some(HoldSettings(config.value.defaultHoldPower)), true);
    }

    /** `disable()`. */
    method Disable() returns (r: Outcome)
      modifies solCard.platform`sent
      ensures var s := OppDriver.Disable(old(Environment()), old(DriverState()));
              && DriverState() == s.driver
              && solCard.platform.sent == old(solCard.platform.sent) + Outgoing(solCard.chainSerial, s.sent)
              && r == s.outcome
    {
      r := KickSolenoid(false);
    }

    /** `_, _, solenoid = self.number.split("-")`, `sol_int = int(solenoid)` and
        `self._kick_coil(sol_int, on)`, as `disable`, `enable` and `pulse` each do. */
    method KickSolenoid(on: bool) returns (r: Outcome)
      modifies solCard.platform`sent
      ensures var s := Kick(old(Environment()), DriverState(), on);
              && solCard.platform.sent == old(solCard.platform.sent) + Outgoing(solCard.chainSerial, s.sent)
              && r == s.outcome
    {
      var solInt := SolenoidIndex(number);
      if solInt.Err? {
        return Fail(solInt.error);
      }
      r := KickCoil(solInt.value, on);
    }

    /** `self._kick_coil(sol_int, True)` followed by `self.apply_switch_rule()`, the
        tail of `enable` and `pulse`. */
    method KickAndRestore() returns (r: Outcome)
      modifies this`configState, solCard.platform`sent
      ensures var s := OppDriver.KickAndRestore(old(Environment()), old(DriverState()));
              && DriverState() == s.driver
              && solCard.platform.sent == old(solCard.platform.sent) + Outgoing(solCard.chainSerial, s.sent)
              && r == s.outcome
    {
      ghost var env, d, log := Environment(), DriverState(), solCard.platform.sent;
      ghost var spec := OppDriver.KickAndRestore(env, d);
      ghost var s2 := Kick(env, d, true);
      r := KickSolenoid(true);
      assert Environment() == env;
      assert DriverState() == d;
      assert solCard.platform.sent == log + Outgoing(solCard.chainSerial, s2.sent);
      if r.Fail? {
        assert spec == s2;
        return;
      }
      ghost var log1 := solCard.platform.sent;
      ghost var s3 := OppDriver.ApplySwitchRule(env, d);
      r := ApplySwitchRule();
      assert DriverState() == s3.driver;
      assert solCard.platform.sent == log1 + Outgoing(solCard.chainSerial, s3.sent);
      assert spec == Step(s3.driver, s2.sent + s3.sent, s3.outcome);
      OutgoingAppend(solCard.chainSerial, s2.sent, s3.sent);
    }

    /** `enable(pulse_settings, hold_settings)`. */
    method Enable(pulse: PulseSettings, hold: Option<HoldSettings>) returns (r: Outcome)
      modifies this`configState, solCard.platform`sent
      ensures var s := OppDriver.Enable(old(Environment()), old(DriverState()), pulse, hold);
              && DriverState() == s.driver
              && solCard.platform.sent == old(solCard.platform.sent) + Outgoing(solCard.chainSerial, s.sent)
              && r == s.outcome
    {
      ghost var env, d0, log := Environment(), DriverState(), solCard.platform.sent;
      ghost var spec := OppDriver.Enable(env, d0, pulse, hold);
      ghost var s1 := Reconfigure(env, d0, pulse, hold, false);
      r := ReconfigureDriver(pulse, hold, false);
      assert Environment() == env;
      assert DriverState() == s1.driver;
      assert solCard.platform.sent == log + Outgoing(solCard.chainSerial, s1.sent);
      if r.Fail? {
        assert spec == s1;
        return;
      }
      ghost var log1 := solCard.platform.sent;
      ghost var s := OppDriver.KickAndRestore(env, s1.driver);
      r := KickAndRestore();
      assert DriverState() == s.driver;
      assert solCard.platform.sent == log1 + Outgoing(solCard.chainSerial, s.sent);
      assert spec == Step(s.driver, s1.sent + s.sent, s.outcome);
      OutgoingAppend(solCard.chainSerial, s1.sent, s.sent);
    }

    /** `pulse(pulse_settings)`. */
    method Pulse(pulse: PulseSettings) returns (r: Outcome)
      modifies this`configState, solCard.platform`sent
      ensures var s := OppDriver.Pulse(old(Environment()), old(DriverState()), pulse);
              && DriverState() == s.driver
              && solCard.platform.sent == old(solCard.platform.sent) + Outgoing(solCard.chainSerial, s.sent)
              && r == s.outcome
    {
      ghost var env, d0, log := Environment(), DriverState(), solCard.platform.sent;
      ghost var spec := OppDriver.Pulse(env, d0, pulse);
      ghost var s1 := Reconfigure(env, d0, pulse, None, false);
      r := ReconfigureDriver(pulse, None, false);
      assert Environment() == env;
      assert DriverState() == s1.driver;
      assert solCard.platform.sent == log + Outgoing(solCard.chainSerial, s1.sent);
      if r.Fail? {
        assert spec == s1;
        return;
      }
      ghost var log1 := solCard.platform.sent;
      ghost var s := OppDriver.KickAndRestore(env, s1.driver);
      r := KickAndRestore();
      assert DriverState() == s.driver;
      assert solCard.platform.sent == log1 + Outgoing(solCard.chainSerial, s.sent);
      assert spec == Step(s.driver, s1.sent + s.sent, s.outcome);
      OutgoingAppend(solCard.chainSerial, s1.sent, s.sent);
    }
  }
}
