/** Solenoid numbers. An OPP solenoid is named "<chain serial>-<card>-<index>";
    the card builds that string with `str` and the driver takes it apart again with
    `split("-")` and `int`. This module gives the decimal rendering and parsing,
    Python's `str.split` for one separator, and proves when the index read back is
    the one the card wrote. */
module Numbering {
  import opened OppTypes

  predicate IsDigit(c: char) {
    '0' <= c <= '9'
  }

  predicate AllDigits(s: string) {
    forall i :: 0 <= i < |s| ==> IsDigit(s[i])
  }

  function DigitChar(d: nat): (c: char)
    requires d < 10
    ensures IsDigit(c) && c as int - '0' as int == d
  {
    (d + '0' as int) as char
  }

  /** `str(n)` for a non-negative integer. */
  function NatToString(n: nat): (s: string)
    ensures |s| >= 1 && AllDigits(s)
  {
    if n < 10 then [DigitChar(n)] else NatToString(n / 10) + [DigitChar(n % 10)]
  }

  /** `str(n)` for any integer. */
  function IntToString(n: int): (s: string)
    ensures |s| >= 1 && (s[0] == '-' <==> n < 0)
    ensures n < 0 ==> |s| >= 2
    ensures AllDigits(if n < 0 then s[1..] else s)
  {
    if n < 0 then "-" + NatToString(-n) else NatToString(n)
  }

  /** The value of a string of decimal digits. */
  function DigitsValue(s: string): nat
    requires AllDigits(s)
  {
    if |s| == 0 then 0 else 10 * DigitsValue(s[..|s| - 1]) + (s[|s| - 1] as int - '0' as int)
  }

  /** `int(s)` for the strings this model accepts: a non-empty run of decimal digits. */
  function ParseDecimal(s: string): (r: Option<nat>)
    ensures r.Some? <==> |s| >= 1 && AllDigits(s)
  {
    if |s| >= 1 && AllDigits(s) then Some(DigitsValue(s)) else None
  }

  lemma {:induction false} DigitsOfNatToString(n: nat)
    ensures DigitsValue(NatToString(n)) == n
  {
    if n >= 10 {
      var s := NatToString(n);
      assert s[..|s| - 1] == NatToString(n / 10);
      DigitsOfNatToString(n / 10);
    }
  }

  /** Reading back what `str` wrote gives the same number. */
  lemma ParseNatToString(n: nat)
    ensures ParseDecimal(NatToString(n)) == Some(n)
  {
    DigitsOfNatToString(n);
  }

  /** `s.split(sep)`: the pieces between separators, empty pieces included. */
  function Split(s: string, sep: char): (parts: seq<string>)
    ensures |parts| >= 1
  {
    if |s| == 0 then [""]
    else
      var init := Split(s[..|s| - 1], sep);
      if s[|s| - 1] == sep then init + [""]
      else init[..|init| - 1] + [init[|init| - 1] + [s[|s| - 1]]]
  }

  /** A string without the separator is one piece. */
  lemma {:induction false} SplitNoSeparator(s: string, sep: char)
    requires sep !in s
    ensures Split(s, sep) == [s]
  {
    if |s| > 0 {
      assert s[|s| - 1] in s;
      SplitNoSeparator(s[..|s| - 1], sep);
      assert s[..|s| - 1] + [s[|s| - 1]] == s;
    }
  }

  /** The pieces after one more character: a separator starts a new empty piece,
      any other character extends the last piece. */
  function AppendChar(parts: seq<string>, c: char, sep: char): seq<string>
    requires |parts| >= 1
  {
    if c == sep then parts + [""] else parts[..|parts| - 1] + [parts[|parts| - 1] + [c]]
  }

  /** One unfolding of Split at the last character. */
  lemma SplitStep(t: string, c: char, sep: char)
    ensures Split(t + [c], sep) == AppendChar(Split(t, sep), c, sep)
  {
    var s := t + [c];
    assert s[..|s| - 1] == t;
    assert s[|s| - 1] == c;
  }

  lemma AppendCharConcat(a: seq<string>, b: seq<string>, c: char, sep: char)
    requires |b| >= 1
    ensures AppendChar(a + b, c, sep) == a + AppendChar(b, c, sep)
  {
    var ab := a + b;
    if c == sep {
      assert (a + b) + [""] == a + (b + [""]);
    } else {
      assert ab[..|ab| - 1] == a + b[..|b| - 1];
      assert ab[|ab| - 1] == b[|b| - 1];
    }
  }

  /** Splitting at one separator splits the pieces on either side independently. */
  lemma {:induction false} SplitJoin(x: string, y: string, sep: char)
    ensures Split(x + [sep] + y, sep) == Split(x, sep) + Split(y, sep)
  {
    if |y| == 0 {
      assert x + [sep] + y == x + [sep];
      SplitStep(x, sep, sep);
      assert Split(y, sep) == [""];
    } else {
      var y', c := y[..|y| - 1], y[|y| - 1];
      assert y == y' + [c];
      assert x + [sep] + y == (x + [sep] + y') + [c];
      SplitJoin(x, y', sep);
      SplitStep(x + [sep] + y', c, sep);
      SplitStep(y', c, sep);
      AppendCharConcat(Split(x, sep), Split(y', sep), c, sep);
    }
  }

  /** `sep.join(parts)`: the pieces with one separator between neighbours. */
  function Join(parts: seq<string>, sep: char): string
    requires |parts| >= 1
  {
    if |parts| == 1 then parts[0] else Join(parts[..|parts| - 1], sep) + [sep] + parts[|parts| - 1]
  }

  /** Splitting loses nothing: no piece contains the separator, and joining the
      pieces with it gives the string back. */
  lemma {:induction false} JoinSplit(s: string, sep: char)
    ensures Join(Split(s, sep), sep) == s
    ensures forall i :: 0 <= i < |Split(s, sep)| ==> sep !in Split(s, sep)[i]
  {
    if |s| > 0 {
      var t, c := s[..|s| - 1], s[|s| - 1];
      assert s == t + [c];
      JoinSplit(t, sep);
      SplitStep(t, c, sep);
      var parts := Split(t, sep);
      var n := |parts|;
      if c == sep {
        assert (parts + [""])[..n] == parts;
      } else {
        var next := parts[..n - 1] + [parts[n - 1] + [c]];
        if n > 1 {
          assert next[..n - 1] == parts[..n - 1];
        }
        forall i | 0 <= i < |next|
          ensures sep !in next[i]
        {
          if i < n - 1 {
            assert next[i] == parts[i];
          }
        }
      }
    }
  }

  /** The name the card gives to solenoid `index`: `chain_serial + '-' + card + '-' + str(index)`. */
  function SolenoidNumber(chainSerial: string, card: int, index: nat): (name: string)
    ensures |name| > |chainSerial| + |NatToString(index)|
    ensures name[..|chainSerial|] == chainSerial
    ensures name[|name| - |NatToString(index)| - 1..] == "-" + NatToString(index)
  {
    chainSerial + "-" + IntToString(card) + "-" + NatToString(index)
  }

  /** `_, _, solenoid = number.split("-")`: exactly three pieces, of which the third is kept. */
  function SolenoidField(number: string): Result<string> {
    var parts := Split(number, '-');
    if |parts| == 3 then Ok(parts[2]) else Err(MalformedNumber)
  }

  /** When the unpacking succeeds, the name is three dash-free pieces joined by
      dashes, and the field is the third. */
  lemma SolenoidFieldShape(number: string)
    requires SolenoidField(number).Ok?
    ensures '-' !in SolenoidField(number).value
    ensures exists a, b :: '-' !in a && '-' !in b && number == a + "-" + b + "-" + SolenoidField(number).value
  {
    var parts := Split(number, '-');
    JoinSplit(number, '-');
    assert Join(parts[..2], '-') == Join(parts[..1], '-') + "-" + parts[1] by {
      assert parts[..2][..1] == parts[..1];
    }
    assert number == parts[0] + "-" + parts[1] + "-" + parts[2];
    assert '-' !in parts[0] && '-' !in parts[1];
  }

  /** The converse: a name made of three dash-free pieces unpacks to the third. */
  lemma SolenoidFieldOfPieces(a: string, b: string, f: string)
    requires '-' !in a && '-' !in b && '-' !in f
    ensures SolenoidField(a + "-" + b + "-" + f) == Ok(f)
  {
    assert a + "-" + b + "-" + f == (a + ['-'] + b) + ['-'] + f;
    SplitJoin(a + ['-'] + b, f, '-');
    SplitJoin(a, b, '-');
    SplitNoSeparator(a, '-');
    SplitNoSeparator(b, '-');
    SplitNoSeparator(f, '-');
  }

  /** `int(solenoid)` after the split: the index of the solenoid on its card. */
  function SolenoidIndex(number: string): (r: Result<nat>)
    ensures r.Err? ==> r.error == MalformedNumber
    ensures r.Ok? <==> SolenoidField(number).Ok? && |SolenoidField(number).value| >= 1 && AllDigits(SolenoidField(number).value)
  {
    match SolenoidField(number)
    case Err(e) => Err(e)
    case Ok(field) =>
      match ParseDecimal(field)
      case None => Err(MalformedNumber)
      case Some(i) => Ok(i)
  }

  lemma NoDashInNatToString(n: nat)
    ensures '-' !in NatToString(n)
  {
    var s := NatToString(n);
    assert forall k :: 0 <= k < |s| ==> s[k] != '-';
  }

  /** The pieces of a solenoid number: those of the chain serial and the card, then the index. */
  lemma SplitSolenoidNumber(chainSerial: string, card: int, index: nat)
    ensures Split(SolenoidNumber(chainSerial, card, index), '-') ==
            Split(chainSerial, '-') + Split(IntToString(card), '-') + [NatToString(index)]
  {
    var c := IntToString(card);
    var d := NatToString(index);
    assert SolenoidNumber(chainSerial, card, index) == (chainSerial + ['-'] + c) + ['-'] + d;
    SplitJoin(chainSerial + ['-'] + c, d, '-');
    SplitJoin(chainSerial, c, '-');
    NoDashInNatToString(index);
    SplitNoSeparator(d, '-');
  }

  /** When the chain serial has no dash and the card number is not negative, the
      driver reads back exactly the index the card wrote into the name. */
  lemma SolenoidIndexRoundTrip(chainSerial: string, card: int, index: nat)
    requires '-' !in chainSerial && card >= 0
    ensures SolenoidIndex(SolenoidNumber(chainSerial, card, index)) == Ok(index)
  {
    SplitSolenoidNumber(chainSerial, card, index);
    SplitNoSeparator(chainSerial, '-');
    NoDashInNatToString(card);
    SplitNoSeparator(IntToString(card), '-');
    ParseNatToString(index);
  }

  /** A negative card number puts a second dash into the name, so the name splits
      into at least four pieces whatever the chain serial, and the three-way
      unpacking in the driver then raises. */
  lemma NegativeCardIsMalformed(chainSerial: string, card: int, index: nat)
    requires card < 0
    ensures SolenoidIndex(SolenoidNumber(chainSerial, card, index)) == Err(MalformedNumber)
  {
    var m := NatToString(-card);
    assert |Split(IntToString(card), '-')| == 2 by {
      assert IntToString(card) == [] + ['-'] + m;
      SplitJoin([], m, '-');
      NoDashInNatToString(-card);
      SplitNoSeparator(m, '-');
    }
    SplitSolenoidNumber(chainSerial, card, index);
    assert |Split(SolenoidNumber(chainSerial, card, index), '-')| >= 4;
  }

  /** A dash inside the chain serial adds a piece of its own, so the name splits
      into at least four pieces and the three-way unpacking in the driver raises. */
  lemma DashedChainSerialIsMalformed(chainSerial: string, card: int, index: nat)
    requires '-' in chainSerial
    ensures SolenoidIndex(SolenoidNumber(chainSerial, card, index)) == Err(MalformedNumber)
  {
    var k :| 0 <= k < |chainSerial| && chainSerial[k] == '-';
    var x, y := chainSerial[..k], chainSerial[k + 1..];
    assert chainSerial == x + ['-'] + y;
    SplitJoin(x, y, '-');
    SplitSolenoidNumber(chainSerial, card, index);
    assert |Split(SolenoidNumber(chainSerial, card, index), '-')| >= 4;
  }

  /** The driver reads back the index a card wrote into a name exactly when the
      chain serial has no dash and the card number is not negative. */
  lemma SolenoidIndexOfName(chainSerial: string, card: int, index: nat)
    ensures SolenoidIndex(SolenoidNumber(chainSerial, card, index)) == Ok(index) <==>
            '-' !in chainSerial && card >= 0
  {
    if '-' in chainSerial {
      DashedChainSerialIsMalformed(chainSerial, card, index);
    } else if card < 0 {
      NegativeCardIsMalformed(chainSerial, card, index);
    } else {
      SolenoidIndexRoundTrip(chainSerial, card, index);
    }
  }

  /** Different indices on one card always get different names, whatever the
      chain serial and the card number look like. */
  lemma SolenoidNumberInjective(chainSerial: string, card: int, i: nat, j: nat)
    requires SolenoidNumber(chainSerial, card, i) == SolenoidNumber(chainSerial, card, j)
    ensures i == j
  {
    SplitSolenoidNumber(chainSerial, card, i);
    SplitSolenoidNumber(chainSerial, card, j);
    var parts := Split(SolenoidNumber(chainSerial, card, i), '-');
    assert NatToString(i) == parts[|parts| - 1] == NatToString(j);
    ParseNatToString(i);
    ParseNatToString(j);
  }
}
