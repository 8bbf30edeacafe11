/** The behaviour of one OPP solenoid driver (OPPSolenoid) as functions of its
    state. The driver owns two pieces of state, the installed switch rule and the
    cached last configuration; every operation yields the new state, the messages
    it handed to the serial port in order, and whether it returned or raised.
    The class in OppCoil runs these operations step by step and is proved to agree
    with the functions here; the properties of the driver are lemmas about them. */
module OppDriver {
  import opened OppTypes
  import opened Numbering
  import opened OppMessages

  /** SwitchRule(pulse_settings, hold_settings, recycle). */
  datatype SwitchRule = SwitchRule(pulse: PulseSettings, hold: Option<HoldSettings>, recycle: bool)

  /** The tuple `(pulse_settings, hold_settings, recycle, bool(switch_rule))` cached
      in `_config_state`. */
  datatype ConfigState = ConfigState(pulse: PulseSettings, hold: Option<HoldSettings>, recycle: bool, hasRule: bool)

  /** What an OPPSolenoid changes: `switch_rule` and `_config_state`. */
  datatype Driver = Driver(switchRule: Option<SwitchRule>, configState: Option<ConfigState>)

  /** What an OPPSolenoid reads and never changes: the protocol, its card's address,
      its number, the firmware version of the platform, `platform_settings` and `config`. */
  datatype Env = Env(
    p: Protocol,
    addr: int,
    number: string,
    minVersion: int,
    settings: Option<PlatformSettings>,
    config: Option<DriverConfig>)

  /** The result of one operation. */
  datatype Step = Step(driver: Driver, sent: seq<seq<byte>>, outcome: Outcome)

  /** The configuration a switch rule asks for. */
  function RuleConfig(rule: SwitchRule): ConfigState {
    ConfigState(rule.pulse, rule.hold, rule.recycle, true)
  }

  /** The message `reconfigure_driver` builds once the cache missed, or the error
      that building it raises: the hold encoding, then the minimum off time, then
      the use-switch flag when a rule is installed, then the solenoid field of the
      number, then the appends. */
  function ConfigFor(env: Env, hasRule: bool, pulse: PulseSettings, hold: Option<HoldSettings>, recycle: bool)
    : (r: Result<seq<byte>>)
    ensures r.Err? && r.error == MissingPlatformSettings <==> recycle && env.settings.None?
    ensures r.Err? ==> r.error in {MissingPlatformSettings, MalformedNumber, ByteOutOfRange}
  {
    var enc := EncodeHold(hold, env.minVersion);
    match MinimumOffTime(env.settings, recycle)
    case Err(e) => Err(e)
    case Ok(minOff) =>
      var cmd := FlagsCmd(env.p, CfgFlags(enc.autoClear, enc.fullPower, hasRule));
      match SolenoidField(env.number)
      case Err(e) => Err(e)
      case Ok(solenoid) => ConfigMessage(env.p, env.addr, solenoid, cmd, pulse.duration, Timing(enc.hold, minOff))
  }

  /** `reconfigure_driver(pulse_settings, hold_settings, recycle)`. When the requested
      configuration equals the cached one nothing happens. Otherwise the cache is
      updated first and then the configuration message is built and sent; when
      building it raises, the new configuration stays cached and nothing is sent. */
  function Reconfigure(env: Env, d: Driver, pulse: PulseSettings, hold: Option<HoldSettings>, recycle: bool)
    : (r: Step)
    ensures r.driver == Driver(d.switchRule, Some(ConfigState(pulse, hold, recycle, d.switchRule.Some?)))
    ensures |r.sent| <= 1
    ensures d.configState == Some(ConfigState(pulse, hold, recycle, d.switchRule.Some?)) ==> r.sent == [] && r.outcome == Pass
    ensures r.outcome.Pass? && d.configState != Some(ConfigState(pulse, hold, recycle, d.switchRule.Some?)) ==> |r.sent| == 1
    ensures r.outcome.Fail? ==> r.sent == []
  {
    var wanted := ConfigState(pulse, hold, recycle, d.switchRule.Some?);
    if d.configState == Some(wanted) then Step(d, [], Pass)
    else
      var cached := d.(configState := Some(wanted));
      match ConfigFor(env, d.switchRule.Some?, pulse, hold, recycle)
      case Err(e) => Step(cached, [], Fail(e))
      case Ok(m) => Step(cached, [m], Pass)
  }

  /** `_, _, solenoid = self.number.split("-")`, `int(solenoid)`, then
      `_kick_coil(sol_int, on)`. */
  function Kick(env: Env, d: Driver, on: bool): (r: Step)
    ensures r.driver == d
    ensures r.outcome.Pass? <==> |r.sent| == 1
    ensures |r.sent| <= 1
  {
    match SolenoidIndex(env.number)
    case Err(e) => Step(d, [], Fail(e))
    case Ok(sol) =>
      match KickMessage(env.p, env.addr, sol, on)
      case Err(e) => Step(d, [], Fail(e))
      case Ok(m) => Step(d, [m], Pass)
  }

  /** `disable()`: a kick that switches the solenoid off. */
  function Disable(env: Env, d: Driver): (r: Step)
    ensures r.driver == d
    ensures r.outcome.Pass? <==> |r.sent| == 1
    ensures |r.sent| <= 1
  {
    Kick(env, d, false)
  }

  /** `apply_switch_rule()`: reconfigure for the installed rule, if there is one. */
  function ApplySwitchRule(env: Env, d: Driver): (r: Step)
    ensures r.driver.switchRule == d.switchRule
    ensures d.switchRule.None? ==> r == Step(d, [], Pass)
    ensures d.switchRule.Some? ==> r.driver.configState == Some(RuleConfig(d.switchRule.value))
  {
    match d.switchRule
    case None => Step(d, [], Pass)
    case Some(rule) => Reconfigure(env, d, rule.pulse, rule.hold, rule.recycle)
  }

  /** The tail that `enable` and `pulse` share: switch the solenoid on, then restore
      the switch rule. A kick that raises ends the call. */
  function KickAndRestore(env: Env, d: Driver): (r: Step)
    ensures r.driver.switchRule == d.switchRule
    ensures d.switchRule.None? ==> r.driver == d
    ensures r.outcome.Pass? && d.switchRule.Some? ==> r.driver.configState == Some(RuleConfig(d.switchRule.value))
    ensures r.outcome.Pass? ==> 1 <= |r.sent| <= 2
    ensures |r.sent| <= 2
  {
    var s2 := Kick(env, d, true);
    if s2.outcome.Fail? then s2
    else
      var s3 := ApplySwitchRule(env, s2.driver);
      Step(s3.driver, s2.sent + s3.sent, s3.outcome)
  }

  /** `enable(pulse_settings, hold_settings)`: reconfigure without recycle, switch
      the solenoid on, then restore the switch rule. The first step that raises
      ends the call. */
  function Enable(env: Env, d: Driver, pulse: PulseSettings, hold: Option<HoldSettings>): (r: Step)
    ensures r.driver.switchRule == d.switchRule
    ensures r.outcome.Pass? ==>
              r.driver.configState ==
              (if d.switchRule.Some? then Some(RuleConfig(d.switchRule.value))
               else Some(ConfigState(pulse, hold, false, false)))
    ensures r.outcome.Pass? ==> |r.sent| >= 1
    ensures |r.sent| <= 3
  {
    var s1 := Reconfigure(env, d, pulse, hold, false);
    if s1.outcome.Fail? then s1
    else
      var s := KickAndRestore(env, s1.driver);
      Step(s.driver, s1.sent + s.sent, s.outcome)
  }

  /** `pulse(pulse_settings)`: the same sequence as `enable` with no hold settings. */
  function Pulse(env: Env, d: Driver, pulse: PulseSettings): (r: Step)
    ensures r.driver.switchRule == d.switchRule
    ensures r.outcome.Pass? ==>
              r.driver.configState ==
              (if d.switchRule.Some? then Some(RuleConfig(d.switchRule.value))
               else Some(ConfigState(pulse, None, false, false)))
    ensures r.outcome.Pass? ==> |r.sent| >= 1
    ensures |r.sent| <= 3
  {
    Enable(env, d, pulse, None)
  }

  /** `set_switch_rule(pulse_settings, hold_settings, recycle)`: a different rule than
      the installed one is refused and changes nothing; otherwise the rule is
      installed and applied. */
  function SetSwitchRule(env: Env, d: Driver, pulse: PulseSettings, hold: Option<HoldSettings>, recycle: bool)
    : (r: Step)
    ensures var rule := SwitchRule(pulse, hold, recycle);
            && (r.outcome == Fail(ConflictingRule) <==> d.switchRule.Some? && d.switchRule.value != rule)
            && (d.switchRule.Some? && d.switchRule.value != rule ==> r == Step(d, [], Fail(ConflictingRule)))
            && (d.switchRule.None? || d.switchRule.value == rule ==>
                  r.driver == Driver(Some(rule), Some(RuleConfig(rule))) && |r.sent| <= 1)
  {
    var rule := SwitchRule(pulse, hold, recycle);
    if d.switchRule.Some? && d.switchRule.value != rule then Step(d, [], Fail(ConflictingRule))
    else ApplySwitchRule(env, d.(switchRule := Some(rule)))
  }

  /** The pulse settings `remove_switch_rule` restores: the default pulse length, 10
      when none is configured, and the default pulse power. */
  function DefaultPulse(config: DriverConfig): (r: PulseSettings)
    ensures config.defaultPulseMs.Some? ==> r.duration == config.defaultPulseMs.value
    ensures config.defaultPulseMs.None? ==> r.duration == 10
    ensures r.power == config.defaultPulsePower
  {
    PulseSettings(if config.defaultPulseMs.Some? then config.defaultPulseMs.value else 10,
                  config.defaultPulsePower)
  }

  /** `remove_switch_rule()`: forget the rule, then reconfigure for the coil's defaults
      with recycle. The rule is gone even when reading the defaults raises. */
  function RemoveSwitchRule(env: Env, d: Driver): (r: Step)
    ensures r.driver.switchRule.None?
    ensures env.config.None? ==> r == Step(Driver(None, d.configState), [], Fail(MissingDriverConfig))
    ensures env.config.Some? ==>
              r.driver.configState ==
              Some(ConfigState(DefaultPulse(env.config.value),
                               Some(HoldSettings(env.config.value.defaultHoldPower)), true, false))
  {
    var cleared := d.(switchRule := None);
    match env.config
    case None => Step(cleared, [], Fail(MissingDriverConfig))
    case Some(config) =>
      Reconfigure(env, cleared, DefaultPulse(config), Some(HoldSettings(config.defaultHoldPower)), true)
  }

  // ---------------------------------------------------------------------------
  // Properties

  /** A configuration that is built reads back as the card address, the index parsed
      from the number, the command byte of the hold encoding and the rule flag, the
      pulse length and the timing byte of the hold level and the minimum off time. */
  lemma ConfigForLayout(env: Env, hasRule: bool, pulse: PulseSettings, hold: Option<HoldSettings>, recycle: bool)
    requires ConfigFor(env, hasRule, pulse, hold, recycle).Ok?
    ensures SolenoidIndex(env.number).Ok? && MinimumOffTime(env.settings, recycle).Ok?
    ensures var enc := EncodeHold(hold, env.minVersion);
            DecodeConfig(env.p, ConfigFor(env, hasRule, pulse, hold, recycle).value) ==
            Some(ConfigFields(env.addr, SolenoidIndex(env.number).value,
                              FlagsCmd(env.p, CfgFlags(enc.autoClear, enc.fullPower, hasRule)),
                              pulse.duration, Timing(enc.hold, MinimumOffTime(env.settings, recycle).value)))
  {
    var enc := EncodeHold(hold, env.minVersion);
    var minOff := MinimumOffTime(env.settings, recycle).value;
    var cmd := FlagsCmd(env.p, CfgFlags(enc.autoClear, enc.fullPower, hasRule));
    var solenoid := SolenoidField(env.number).value;
    assert ConfigFor(env, hasRule, pulse, hold, recycle)
        == ConfigMessage(env.p, env.addr, solenoid, cmd, pulse.duration, Timing(enc.hold, minOff));
    ConfigLayout(env.p, env.addr, solenoid, cmd, pulse.duration, Timing(enc.hold, minOff));
  }

  /** Building the configuration succeeds exactly when the minimum off time can be
      read, the number's solenoid field is a number, and every appended value is a
      byte: card address, solenoid index, command byte, pulse length and timing. */
  lemma ConfigForBuilt(env: Env, hasRule: bool, pulse: PulseSettings, hold: Option<HoldSettings>, recycle: bool)
    ensures var enc := EncodeHold(hold, env.minVersion);
            var minOff := MinimumOffTime(env.settings, recycle);
            ConfigFor(env, hasRule, pulse, hold, recycle).Ok? <==>
              && minOff.Ok?
              && SolenoidIndex(env.number).Ok?
              && IsByte(env.addr)
              && IsByte(SolenoidIndex(env.number).value)
              && IsByte(FlagsCmd(env.p, CfgFlags(enc.autoClear, enc.fullPower, hasRule)))
              && IsByte(pulse.duration)
              && IsByte(Timing(enc.hold, minOff.value))
  {
  }

  /** A cache miss on a solenoid named by its card sends exactly one message when
      the card address and pulse length are bytes, the flags are distinct bits, the
      hold power is unset or not negative, and with recycle the platform settings
      give a factor that fits the high nibble. */
  lemma ReconfigureOfCardSolenoid(env: Env, d: Driver, pulse: PulseSettings, hold: Option<HoldSettings>, recycle: bool,
                                  chainSerial: string, card: int, index: nat)
    requires env.number == SolenoidNumber(chainSerial, card, index)
    requires '-' !in chainSerial && card >= 0 && index < 16
    requires IsByte(env.addr) && IsByte(pulse.duration)
    requires ValidFlags(env.p)
    requires HoldOff(hold) || hold.value.power.value >= 0.0
    requires recycle ==> env.settings.Some? && 0 <= env.settings.value.recycleFactor < 16
    requires d.configState != Some(ConfigState(pulse, hold, recycle, d.switchRule.Some?))
    ensures Reconfigure(env, d, pulse, hold, recycle).outcome == Pass
    ensures |Reconfigure(env, d, pulse, hold, recycle).sent| == 1
  {
    SolenoidIndexRoundTrip(chainSerial, card, index);
    var enc := EncodeHold(hold, env.minVersion);
    FlagsRoundTrip(env.p, CfgFlags(enc.autoClear, enc.fullPower, d.switchRule.Some?));
    assert 0 <= enc.hold < 16;
    var minOff := MinimumOffTime(env.settings, recycle);
    assert minOff.Ok? && 0 <= minOff.value < 16;
    TimingNibbles(enc.hold, minOff.value);
    ConfigForBuilt(env, d.switchRule.Some?, pulse, hold, recycle);
  }

  /** The configuration message `reconfigure_driver` sends reads back as: the card
      address; the solenoid index from the number; a command byte whose flags are
      auto-clear exactly when there is no hold power, full power exactly when the
      hold level was clamped on firmware 0.2.0.0 or later, and use-switch exactly
      when a switch rule is installed; the pulse length; and the hold level in the
      low nibble with the minimum-off factor in the high nibble. */
  lemma ReconfigureMessage(env: Env, d: Driver, pulse: PulseSettings, hold: Option<HoldSettings>, recycle: bool)
    requires Reconfigure(env, d, pulse, hold, recycle).sent != []
    ensures var m := Reconfigure(env, d, pulse, hold, recycle).sent[0];
            var enc := EncodeHold(hold, env.minVersion);
            && SolenoidIndex(env.number).Ok?
            && MinimumOffTime(env.settings, recycle).Ok?
            && var minOff := MinimumOffTime(env.settings, recycle).value;
               && DecodeConfig(env.p, m).Some?
               && var fields := DecodeConfig(env.p, m).value;
                  && fields.addr == env.addr
                  && fields.solenoid == SolenoidIndex(env.number).value
                  && fields.pulseLen == pulse.duration
                  && fields.timing == Timing(enc.hold, minOff)
                  && (enc.hold >= 0 ==> fields.timing % 16 == enc.hold && fields.timing / 16 == minOff)
                  && fields.cmd == FlagsCmd(env.p, CfgFlags(HoldOff(hold), enc.fullPower, d.switchRule.Some?))
  {
    var hasRule := d.switchRule.Some?;
    var m := Reconfigure(env, d, pulse, hold, recycle).sent[0];
    assert ConfigFor(env, hasRule, pulse, hold, recycle) == Ok(m) by {
      assert d.configState != Some(ConfigState(pulse, hold, recycle, hasRule));
    }
    ConfigForLayout(env, hasRule, pulse, hold, recycle);
    var enc := EncodeHold(hold, env.minVersion);
    var minOff := MinimumOffTime(env.settings, recycle).value;
    if enc.hold >= 0 {
      TimingNibbles(enc.hold, minOff);
    }
  }

  /** With distinct single-bit flags, the command byte of a sent configuration reads
      back as auto-clear exactly when there is no hold power, full power exactly when
      the hold level was clamped on firmware 0.2.0.0 or later, and use-switch exactly
      when a switch rule is installed. */
  lemma ReconfigureFlags(env: Env, d: Driver, pulse: PulseSettings, hold: Option<HoldSettings>, recycle: bool)
    requires Reconfigure(env, d, pulse, hold, recycle).sent != []
    requires ValidFlags(env.p)
    ensures var m := Reconfigure(env, d, pulse, hold, recycle).sent[0];
            && DecodeConfig(env.p, m).Some?
            && DecodeFlags(env.p, DecodeConfig(env.p, m).value.cmd as bv8) ==
               CfgFlags(HoldOff(hold), EncodeHold(hold, env.minVersion).fullPower, d.switchRule.Some?)
  {
    ReconfigureMessage(env, d, pulse, hold, recycle);
    var enc := EncodeHold(hold, env.minVersion);
    FlagsRoundTrip(env.p, CfgFlags(HoldOff(hold), enc.fullPower, d.switchRule.Some?));
  }

  /** The cache makes reconfiguration idempotent: the same call again sends nothing,
      changes nothing and returns normally. This holds even when the first call raised,
      because the configuration is cached before the message is built. */
  lemma ReconfigureIdempotent(env: Env, d: Driver, pulse: PulseSettings, hold: Option<HoldSettings>, recycle: bool)
    ensures var first := Reconfigure(env, d, pulse, hold, recycle);
            Reconfigure(env, first.driver, pulse, hold, recycle) == Step(first.driver, [], Pass)
  {
  }

  /** A recycle factor that does not fit the high nibble makes every configuration
      with recycle and a hold power that is not negative raise when the timing byte
      is appended, though the configuration is cached. */
  lemma LargeRecycleFactorRaises(env: Env, d: Driver, pulse: PulseSettings, hold: Option<HoldSettings>)
    requires env.settings.Some? && env.settings.value.recycleFactor >= 16
    requires HoldOff(hold) || hold.value.power.value >= 0.0
    requires IsByte(env.addr) && IsByte(pulse.duration)
    requires ValidFlags(env.p)
    requires SolenoidIndex(env.number).Ok? && SolenoidIndex(env.number).value < 256
    requires d.configState != Some(ConfigState(pulse, hold, true, d.switchRule.Some?))
    ensures Reconfigure(env, d, pulse, hold, true).outcome == Fail(ByteOutOfRange)
  {
    var enc := EncodeHold(hold, env.minVersion);
    FlagsRoundTrip(env.p, CfgFlags(enc.autoClear, enc.fullPower, d.switchRule.Some?));
    assert enc.hold >= 0;
    TimingNibbles(enc.hold, env.settings.value.recycleFactor);
  }

  /** A kick, when it goes out, reads back as the card address with the solenoid's
      bit as the word to change and, when switching on, as the word to switch on. */
  lemma KickMessageSent(env: Env, d: Driver, on: bool)
    requires Kick(env, d, on).outcome.Pass?
    ensures SolenoidIndex(env.number).Ok?
    ensures var bit := SolenoidBit(SolenoidIndex(env.number).value);
            DecodeKick(env.p, Kick(env, d, on).sent[0]) == Some(KickFields(env.addr, if on then bit else 0, bit))
  {
    KickLayout(env.p, env.addr, SolenoidIndex(env.number).value, on);
  }

  /** `disable`, when its kick goes out, switches nothing on and changes exactly the
      solenoid's bit. */
  lemma DisableSwitchesOff(env: Env, d: Driver)
    requires Disable(env, d).outcome.Pass?
    ensures SolenoidIndex(env.number).Ok?
    ensures DecodeKick(env.p, Disable(env, d).sent[0]) ==
            Some(KickFields(env.addr, 0, SolenoidBit(SolenoidIndex(env.number).value)))
  {
    KickMessageSent(env, d, false);
  }

  /** For a solenoid named by its card (chain serial without a dash, card number not
      negative, index below 16) on a card whose address is a byte, a kick always goes
      out and carries exactly bit `index` of the card's 16-bit solenoid word. */
  lemma KickOfCardSolenoid(env: Env, d: Driver, chainSerial: string, card: int, index: nat, on: bool)
    requires env.number == SolenoidNumber(chainSerial, card, index)
    requires '-' !in chainSerial && card >= 0 && index < 16 && IsByte(env.addr)
    ensures Kick(env, d, on).outcome.Pass?
    ensures DecodeKick(env.p, Kick(env, d, on).sent[0]) ==
            Some(KickFields(env.addr, if on then Pow2(index) else 0, Pow2(index)))
  {
    SolenoidIndexRoundTrip(chainSerial, card, index);
    KickLayout(env.p, env.addr, index, on);
  }

  /** `set_switch_rule` with the rule already installed is idempotent: the repeat
      sends nothing and leaves the driver as it was. It raises only when the first
      call was refused, and then it is refused for the same reason. */
  lemma SetSwitchRuleIdempotent(env: Env, d: Driver, pulse: PulseSettings, hold: Option<HoldSettings>, recycle: bool)
    ensures var first := SetSwitchRule(env, d, pulse, hold, recycle);
            var again := SetSwitchRule(env, first.driver, pulse, hold, recycle);
            && again.driver == first.driver
            && again.sent == []
            && (again.outcome.Fail? <==> first.outcome == Fail(ConflictingRule))
  {
    var rule := SwitchRule(pulse, hold, recycle);
    var first := SetSwitchRule(env, d, pulse, hold, recycle);
    if d.switchRule.None? || d.switchRule.value == rule {
      assert first.driver == Driver(Some(rule), Some(RuleConfig(rule)));
    }
  }

  /** After `enable` or `pulse` returns, the switch rule is unchanged and the cache
      holds the rule's configuration when there is a rule, and the configuration
      used for the kick when there is none; the kick itself is among the messages. */
  lemma EnableRestoresRule(env: Env, d: Driver, pulse: PulseSettings, hold: Option<HoldSettings>)
    requires Enable(env, d, pulse, hold).outcome.Pass?
    ensures var r := Enable(env, d, pulse, hold);
            && r.driver.switchRule == d.switchRule
            && r.driver.configState ==
               (if d.switchRule.Some? then Some(RuleConfig(d.switchRule.value))
                else Some(ConfigState(pulse, hold, false, false)))
            && SolenoidIndex(env.number).Ok?
            && KickMessage(env.p, env.addr, SolenoidIndex(env.number).value, true).Ok?
            && KickMessage(env.p, env.addr, SolenoidIndex(env.number).value, true).value in r.sent
  {
    var s1 := Reconfigure(env, d, pulse, hold, false);
    var s2 := Kick(env, s1.driver, true);
    var s3 := ApplySwitchRule(env, s2.driver);
    assert Enable(env, d, pulse, hold).sent == s1.sent + s2.sent + s3.sent;
    assert s2.sent[0] in s1.sent + s2.sent + s3.sent by {
      assert (s1.sent + s2.sent + s3.sent)[|s1.sent|] == s2.sent[0];
    }
  }

  /** With a switch rule whose settings are not those of the pulse, every pulse
      configures the coil for the pulse, kicks it, and configures it back for the
      rule: three messages, the kick in the middle. */
  lemma PulseWithRuleSendsThree(env: Env, d: Driver, pulse: PulseSettings)
    requires d.switchRule.Some? && d.configState == Some(RuleConfig(d.switchRule.value))
    requires RuleConfig(d.switchRule.value) != ConfigState(pulse, None, false, true)
    requires Pulse(env, d, pulse).outcome.Pass?
    ensures |Pulse(env, d, pulse).sent| == 3
    ensures Pulse(env, d, pulse).sent[1] ==
            KickMessage(env.p, env.addr, SolenoidIndex(env.number).value, true).value
  {
    var s1 := Reconfigure(env, d, pulse, None, false);
    var s2 := Kick(env, s1.driver, true);
    assert s1.outcome.Pass? && s2.outcome.Pass?;
    var s3 := ApplySwitchRule(env, s2.driver);
    assert s3.outcome.Pass?;
    assert s2.driver.configState == Some(ConfigState(pulse, None, false, true));
  }

  /** Without a switch rule, repeating a pulse with the same settings sends only the
      kick: the configuration is already in place. */
  lemma RepeatedPulseWithoutRule(env: Env, d: Driver, pulse: PulseSettings)
    requires d.switchRule.None?
    requires Pulse(env, d, pulse).outcome.Pass?
    ensures var first := Pulse(env, d, pulse);
            Pulse(env, first.driver, pulse) ==
            Step(first.driver, [KickMessage(env.p, env.addr, SolenoidIndex(env.number).value, true).value], Pass)
  {
    var first := Pulse(env, d, pulse);
    EnableRestoresRule(env, d, pulse, None);
    assert first.driver == Driver(None, Some(ConfigState(pulse, None, false, false)));
  }

  /** Removing a rule and then setting any rule never conflicts: the rule is gone. */
  lemma RemoveThenSetNeverConflicts(env: Env, d: Driver, pulse: PulseSettings, hold: Option<HoldSettings>, recycle: bool)
    ensures var removed := RemoveSwitchRule(env, d);
            SetSwitchRule(env, removed.driver, pulse, hold, recycle).outcome != Fail(ConflictingRule)
  {
    var removed := RemoveSwitchRule(env, d);
    var rule := SwitchRule(pulse, hold, recycle);
    var again := SetSwitchRule(env, removed.driver, pulse, hold, recycle);
    assert again.driver.switchRule == Some(rule);
  }
}
