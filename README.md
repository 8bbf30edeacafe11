# OPP solenoid driver, modelled in Dafny

This project models the solenoid side of the Open Pinball Project (OPP) platform in
the Mission Pinball Framework. That code lives in `mpf/platforms/opp/opp_coil.py`.

- **`OPPSolenoidCard`**: when a solenoid wing is created, it names one driver per set
  bit of the card's 16-bit mask, as `"<chain serial>-<card>-<index>"`. It inserts those
  drivers into the caller's solenoid dictionary.
- **`OPPSolenoid`**: one coil. It can
  - kick the coil on or off;
  - pulse or enable it, then restore its hardware switch rule;
  - install or remove that switch rule.

  It also writes the individual configuration message, which carries
  - the command flags: auto-clear, full power, use switch;
  - the pulse length;
  - a timing byte holding the hold level and the minimum-off factor.

  A cache of the last configuration suppresses repeated identical messages.

The project has five modules:

- `OppTypes` (`opp_types.dfy`) holds the message byte, the settings records and the
  Python exceptions as an `Error` datatype. `Protocol` collects the constants of the
  OPP serial interface and its CRC. Each of them is a field, so every result holds
  for all their values. Where a result needs the three configuration flags to be
  distinct single bits, it says so through `ValidFlags`.
- `Numbering` (`numbering.dfy`) gives:
  - `str` for integers;
  - `int` for digit strings;
  - `str.split` on one separator.

  With these it proves when a driver reads back the index its card wrote.
- `OppMessages` (`opp_messages.dfy`) builds the kick and configuration messages. It
  also defines `DecodeKick` and `DecodeConfig`, reference decoders of the byte layout
  the driver writes, and proves each message against its decoder.
- `OppDriver` (`opp_driver.dfy`) states each driver operation as a function from
  three inputs to a `Step`:
  - the settings the driver only reads (`Env`);
  - the two fields it writes (`Driver`: switch rule and cached configuration);
  - the call's arguments.

  A `Step` is the new `Driver` state, the messages sent and how the call ended. The
  properties of the driver are lemmas about these functions.
- `OppCoil` (`opp_coil.dfy`) holds the classes as the source has them:
  - `OPPPlatform` records `send_to_processor` calls in a ghost log.
  - `OPPSolenoidCard`'s constructor fills a `SolenoidDict` in a loop over the 16 mask
    bits.
  - `OPPSolenoid` keeps its rule and cache in fields and builds messages byte by byte.

  The postconditions of the public operations and of `KickSolenoid`, `KickAndRestore`
  and `SendConfig` say the new state, the log entries appended and the outcome are
  exactly those of the matching `OppDriver` function. The byte-building helpers are
  tied to `OppMessages`: `KickCoil` to `KickMessage`, `HoldCommand` to `EncodeHold`
  and `WriteConfig` to `ConfigMessage`.

A Python exception becomes a `Fail(error)` outcome. State already changed before the
raise stays changed. This matters in `reconfigure_driver`: the configuration is
cached before the message is built. After a call that raised, the same call again
sends nothing and returns normally.

## Model

| member | source | states |
|---|---|---|
| Numbering.NatToString | mpf/platforms/opp/opp_coil.py:185 | `str(index)` is a non-empty string of decimal digits |
| Numbering.IntToString | mpf/platforms/opp/opp_coil.py:182 | `str(card)` starts with a dash exactly when the card number is negative, and the rest is a non-empty run of decimal digits |
| Numbering.ParseDecimal | mpf/platforms/opp/opp_coil.py:64-65 | `int(solenoid)` yields a value exactly when the field is a non-empty run of decimal digits |
| Numbering.ParseNatToString | mpf/platforms/opp/opp_coil.py:182-185 | reading back the `str(index)` the card wrote gives the same index |
| Numbering.Split | mpf/platforms/opp/opp_coil.py:148 | `str.split` always yields at least one piece |
| Numbering.JoinSplit | mpf/platforms/opp/opp_coil.py:148 | no piece of a split contains the separator, and joining the pieces with it gives the string back |
| Numbering.SplitJoin | mpf/platforms/opp/opp_coil.py:148 | splitting at one separator gives the pieces of both sides, concatenated |
| Numbering.SplitNoSeparator | mpf/platforms/opp/opp_coil.py:148 | a string without a dash splits into itself alone |
| Numbering.SolenoidFieldShape | mpf/platforms/opp/opp_coil.py:148 | when the three-way unpacking succeeds, the name is two dash-free pieces and the field, joined by dashes, and the field has no dash |
| Numbering.SolenoidFieldOfPieces | mpf/platforms/opp/opp_coil.py:148 | conversely, a name made of three dash-free pieces joined by dashes unpacks to its third piece |
| Numbering.SolenoidIndex | mpf/platforms/opp/opp_coil.py:64-65 | the index is read exactly when the unpacking succeeds and the field is a non-empty run of decimal digits; every failure is a ValueError |
| Numbering.SolenoidNumber | mpf/platforms/opp/opp_coil.py:185 | the name starts with the chain serial and ends with a dash and the decimal index |
| Numbering.SolenoidIndexRoundTrip | mpf/platforms/opp/opp_coil.py:182-188 | if the chain serial has no dash and the card number is not negative, the driver parses back exactly the index its card put in its name |
| Numbering.NegativeCardIsMalformed | mpf/platforms/opp/opp_coil.py:182-185 | a card address below the generation-2 card id gives a negative card number, whose extra dash makes the driver's unpacking raise, whatever the chain serial |
| Numbering.DashedChainSerialIsMalformed | mpf/platforms/opp/opp_coil.py:148 | a dash inside the chain serial gives the name an extra piece, so the driver's three-way unpacking raises, whatever the card and index |
| Numbering.SolenoidIndexOfName | mpf/platforms/opp/opp_coil.py:148-153 | the driver parses back the index the card wrote into a name exactly when the chain serial has no dash and the card number is not negative |
| Numbering.SolenoidNumberInjective | mpf/platforms/opp/opp_coil.py:183-188 | different indices on one card always get different names, so no dictionary entry of the card overwrites another |
| OppMessages.KickMessage | mpf/platforms/opp/opp_coil.py:44-57 | the kick is built exactly when the card address is a byte; otherwise the first append raises |
| OppMessages.MaskBytes | mpf/platforms/opp/opp_coil.py:45-56 | high byte times 256 plus low byte of `1 << sol` is the solenoid's bit for sol < 16, and 0 beyond |
| OppMessages.KickLayout | mpf/platforms/opp/opp_coil.py:44-57 | a kick reads back as the address, the bit to switch on (0 when switching off) and the bit to change, under the CRC of the preceding bytes |
| OppMessages.FlagsRoundTrip | mpf/platforms/opp/opp_coil.py:130-146 | with distinct single-bit flags, the summed command byte is a byte and reading each flag's bit gives back exactly the flags that were added |
| OppMessages.EncodeHold | mpf/platforms/opp/opp_coil.py:130-141 | auto-clear exactly when there is no hold power, and then the level is 0; the level never exceeds 15; auto-clear and full power never come together |
| OppMessages.HoldLevelMeaning | mpf/platforms/opp/opp_coil.py:134-141 | the level is the power in whole sixteenths; a power of 1 or more clamps to 15 and sets full power exactly when the minimum firmware version is at least 0x00020000; a negative power truncates toward zero without full power |
| OppMessages.MinimumOffTime | mpf/platforms/opp/opp_coil.py:31-42 | 0 exactly when recycle is off; the configured factor when it is set, otherwise 2; raises only when recycling without platform settings |
| OppMessages.TimingNibbles | mpf/platforms/opp/opp_coil.py:157 | for a hold level 0..15 the timing byte is valid exactly when the factor is 0..15; the hold level is then the low nibble and the factor the high nibble |
| OppMessages.ConfigMessage | mpf/platforms/opp/opp_coil.py:151-159 | the configuration message is built exactly when every appended value is a byte and the index field parses; a malformed index raises before the command byte is checked |
| OppMessages.ConfigLayout | mpf/platforms/opp/opp_coil.py:151-159 | a configuration message reads back as the five fields it was built from, with the CRC and EOM_CMD after them |
| OppDriver.Reconfigure | mpf/platforms/opp/opp_coil.py:119-163 | the new configuration is cached whatever follows; a cached configuration sends nothing; at most one message goes out, and exactly one when the call returns normally after a cache miss |
| OppDriver.ConfigFor | mpf/platforms/opp/opp_coil.py:130-159 | building the configuration raises the missing-settings error exactly when it recycles without platform settings; any other failure is a malformed number or a value that is not a byte |
| OppDriver.ConfigForBuilt | mpf/platforms/opp/opp_coil.py:130-159 | the configuration is built exactly when the minimum off time can be read, the index field parses, and the address, index, command byte, pulse length and timing byte are all bytes |
| OppDriver.ConfigForLayout | mpf/platforms/opp/opp_coil.py:130-159 | a configuration that is built decodes to the address, the parsed index, the command byte of the hold flags and the rule flag, the pulse length and the timing byte |
| OppDriver.ReconfigureOfCardSolenoid | mpf/platforms/opp/opp_coil.py:119-163 | on a cache miss, a solenoid named by its card (dash-free chain serial, card not negative, index below 16) with a byte address and pulse length, distinct flag bits, a hold power that is unset or not negative, and a recycle factor of 0..15 when recycling gets exactly one message and a normal return |
| OppDriver.Kick | mpf/platforms/opp/opp_coil.py:44-67 | a kick leaves the driver state alone and returns normally exactly when one message goes out |
| OppDriver.Disable | mpf/platforms/opp/opp_coil.py:62-67 | disable leaves the driver state alone and returns normally exactly when its one message goes out |
| OppDriver.KickAndRestore | mpf/platforms/opp/opp_coil.py:73-79 | the rule is unchanged; without a rule the state is too; after a normal return the cache holds the rule's configuration and one or two messages went out |
| OppDriver.Enable | mpf/platforms/opp/opp_coil.py:69-79 | the rule is unchanged; after a normal return the cache holds the rule's configuration if there is a rule (else the enable's) and at least the kick went out; never more than three messages |
| OppDriver.Pulse | mpf/platforms/opp/opp_coil.py:81-92 | the rule is unchanged; after a normal return the cache holds the rule's configuration if there is a rule (else the pulse's, without hold); never more than three messages |
| OppDriver.ApplySwitchRule | mpf/platforms/opp/opp_coil.py:113-117 | without a rule nothing happens; with one, the cache ends up holding that rule's configuration |
| OppDriver.SetSwitchRule | mpf/platforms/opp/opp_coil.py:104-111 | the call is refused as a conflict exactly when a different rule is installed, and then changes nothing; otherwise the rule is installed, its configuration cached and at most one message sent |
| OppDriver.DefaultPulse | mpf/platforms/opp/opp_coil.py:98-100 | the restored pulse takes the configured default length, or 10 when there is none, and the configured default power |
| OppDriver.RemoveSwitchRule | mpf/platforms/opp/opp_coil.py:94-102 | the rule is gone even when the call raises; with a coil config, the cache holds the default pulse (10 ms when none is configured), the default hold power and recycle |
| OppDriver.ReconfigureMessage | mpf/platforms/opp/opp_coil.py:119-163 | a sent configuration decodes to the card address, the solenoid index, the pulse length, the hold/minimum-off nibbles and the command byte that sums auto-clear (no hold power), full power and use-switch (a rule is installed) |
| OppDriver.ReconfigureFlags | mpf/platforms/opp/opp_coil.py:130-146 | with distinct single-bit flags, reading each flag's bit of the sent command byte gives auto-clear exactly without hold power, full power exactly when clamped on new firmware, and use-switch exactly when a rule is installed |
| OppDriver.ReconfigureIdempotent | mpf/platforms/opp/opp_coil.py:122-128 | repeating a reconfiguration sends nothing and changes nothing, even after a first call that raised |
| OppDriver.LargeRecycleFactorRaises | mpf/platforms/opp/opp_coil.py:143-157 | a recycle factor of 16 or more makes every recycling configuration with a non-negative hold power raise on the timing byte |
| OppDriver.KickMessageSent | mpf/platforms/opp/opp_coil.py:44-67 | a kick that goes out carries the solenoid's bit as the word to change and, when switching on, as the word to switch on |
| OppDriver.KickOfCardSolenoid | mpf/platforms/opp/opp_coil.py:44-67 | a driver named by its card, on a card whose address is a byte, always kicks exactly bit `index` of the card's word |
| OppDriver.DisableSwitchesOff | mpf/platforms/opp/opp_coil.py:62-67 | a disable that goes out switches nothing on and changes exactly the solenoid's bit |
| OppDriver.SetSwitchRuleIdempotent | mpf/platforms/opp/opp_coil.py:104-111 | setting the same rule twice: the repeat sends nothing, changes nothing and raises only if the first was refused as a conflict |
| OppDriver.EnableRestoresRule | mpf/platforms/opp/opp_coil.py:69-79 | after enable returns, the rule is unchanged, the cache holds the rule's configuration if there is a rule (else the enable's), and the kick was sent |
| OppDriver.PulseWithRuleSendsThree | mpf/platforms/opp/opp_coil.py:81-92 | with a rule configured differently from the pulse, a pulse sends three messages, the kick in the middle |
| OppDriver.RepeatedPulseWithoutRule | mpf/platforms/opp/opp_coil.py:81-92 | without a rule, repeating a pulse sends only the kick |
| OppDriver.RemoveThenSetNeverConflicts | mpf/platforms/opp/opp_coil.py:94-111 | after remove_switch_rule, set_switch_rule is never refused as a conflict |
| OppCoil.Append | mpf/platforms/opp/opp_coil.py:152-157 | `bytearray.append` adds the value when it is a byte and otherwise raises ValueError, leaving the buffer as it was |
| OppCoil.OPPPlatform.SendToProcessor | mpf/platforms/opp/opp_coil.py:163 | a send appends exactly one entry, the chain serial with the message, to the log |
| OppCoil.CardNumbersExact | mpf/platforms/opp/opp_coil.py:183-188 | the card names solenoid `i` (i < 16) exactly when bit `i` of its mask is set |
| OppCoil.CardNumbersParseBack | mpf/platforms/opp/opp_coil.py:182-188 | with a dash-free chain serial and a non-negative card number, every name the card creates parses back to a set bit below 16 that names it |
| OppCoil.OPPSolenoidCard.constructor | mpf/platforms/opp/opp_coil.py:171-188 | the dictionary gains exactly one fresh, unconfigured driver per set mask bit, keyed by its name and pointing back at the card; other entries are untouched |
| OppCoil.OPPSolenoid.constructor | mpf/platforms/opp/opp_coil.py:17-25 | a new driver has no rule, no cached configuration, no platform settings and no coil config |
| OppCoil.OPPSolenoid.KickCoil | mpf/platforms/opp/opp_coil.py:44-60 | appends to the log exactly the kick message, or raises without sending when the address is not a byte |
| OppCoil.OPPSolenoid.HoldCommand | mpf/platforms/opp/opp_coil.py:130-141 | the command byte and hold level computed step by step are those of the hold encoding |
| OppCoil.OPPSolenoid.WriteConfig | mpf/platforms/opp/opp_coil.py:148-163 | the message appended to the log is exactly the configuration message, and nothing is sent when an append raises |
| OppCoil.OPPSolenoid.SendConfig | mpf/platforms/opp/opp_coil.py:130-163 | the command byte with the use-switch flag, the hold level, the minimum-off factor and the index field computed in turn give exactly the message of `OppDriver.ConfigFor`, which is sent; a raise sends nothing |
| OppCoil.OPPSolenoid.KickSolenoid | mpf/platforms/opp/opp_coil.py:64-67 | parsing the index out of the name and kicking it appends and returns exactly what `OppDriver.Kick` does |
| OppCoil.OPPSolenoid.ReconfigureDriver | mpf/platforms/opp/opp_coil.py:119-163 | new state, log and outcome are those of `OppDriver.Reconfigure` |
| OppCoil.OPPSolenoid.ApplySwitchRule | mpf/platforms/opp/opp_coil.py:113-117 | new state, log and outcome are those of `OppDriver.ApplySwitchRule` |
| OppCoil.OPPSolenoid.SetSwitchRule | mpf/platforms/opp/opp_coil.py:104-111 | new state, log and outcome are those of `OppDriver.SetSwitchRule` |
| OppCoil.OPPSolenoid.RemoveSwitchRule | mpf/platforms/opp/opp_coil.py:94-102 | new state, log and outcome are those of `OppDriver.RemoveSwitchRule` |
| OppCoil.OPPSolenoid.Disable | mpf/platforms/opp/opp_coil.py:62-67 | leaves the state alone; log and outcome are those of a kick that switches off |
| OppCoil.OPPSolenoid.KickAndRestore | mpf/platforms/opp/opp_coil.py:73-79 | new state, log and outcome are those of `OppDriver.KickAndRestore`: kick on, then restore the rule unless the kick raised |
| OppCoil.OPPSolenoid.Enable | mpf/platforms/opp/opp_coil.py:69-79 | new state, log and outcome are those of `OppDriver.Enable`: reconfigure, kick on, restore the rule, stopping at the first raise |
| OppCoil.OPPSolenoid.Pulse | mpf/platforms/opp/opp_coil.py:81-92 | new state, log and outcome are those of `OppDriver.Pulse` |

## Left out

- `get_board_name`, the `log` attribute and every debug message are left out: they only format text for logging.
- The `switches` list is left out, because nothing in this file reads it. The constructor arguments passed to `DriverPlatformInterface` are reduced to the two fields used here: `number`, and `config`, which starts as `{}`.
- A `config` still holding `{}` is written `None`. Reading `default_pulse_ms` from it raises AttributeError, modelled as `MissingDriverConfig`.
- The constants and the CRC routine of `opp_rs232_intf` are not part of this model. They are the fields of `Protocol`, so all results hold for any values.
- `send_to_processor` and the serial link behind it are left out. A send is an entry appended to a ghost log.
- The OPP platform is reduced to the two things the driver reads: `minVersion` and the serial log.
- Numbering.ParseDecimal: accepts only non-empty ASCII digit strings. Python's `int` also accepts surrounding whitespace, a sign, underscores and other Unicode digits. A name built by the card never contains these.
- OppMessages.EncodeHold: the hold power is an exact real, and `int(power * 16)` truncates that real. IEEE-754 rounding of the float product is not reproduced.
- `platform_settings` is modelled as None or a record with `recycle_factor`. A `recycle_factor` of None and one of 0 are both written 0, since both are falsy. A settings dictionary without that key (KeyError) is not modelled.
- Python's dynamic typing is not modelled. Arguments of other types, such as a non-integer `duration` or address, cannot be expressed.
- The card's `state` attribute is set to 0 and otherwise unused; it is kept as a field.
- Concurrency is not modelled: each call runs to completion before the next starts.
- The tests (GottliebTrough, Dmd), the switch-platform interface and `trigger_player` are not part of this model. They are outside opp_coil.py.
