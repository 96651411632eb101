/** The integer field's range over every mix of keys, Backspace and paste. */
module NumIntRange {
  import opened Basics
  import opened Digits
  import opened Decimals
  import opened NumericInput

  /** Nothing yet, a lone minus, or an integer of the range. */
  predicate InRange(v: string, config: Config) {
    || v == "" || v == "-"
    || (ParseDecimal(v).Some? && ParseDecimal(v).value.scale == 0
        && config.min <= ParseDecimal(v).value.coef <= config.max)
  }

  function IntValue(v: string): int
    requires AllDigits(Body(v))
  {
    if StartsWithMinus(v) then 0 - ReadNat(Body(v)) else ReadNat(Body(v))
  }

  lemma IntegerDenotes(v: string, config: Config)
    requires config.kind == NumInt && InLanguage(v, config)
    ensures AllDigits(Body(v))
    ensures v != "" && v != "-" ==> ParseDecimal(v) == Some(Dec(IntValue(v), 0))
  {
    var body := Body(v);
    assert body[..|body|] == body && body + [] == body;
    if body != [] {
      assert Unsigned(v) == body by {
        if !StartsWithMinus(v) {
          assert IsDigit(v[0]);
        }
      }
      ParseParts(body, body, []);
    }
  }

  /** The range test of a keystroke and of a paste, for field values. */
  lemma RangeTests(v: string, config: Config)
    requires config.kind == NumInt && InLanguage(v, config) && v != "" && v != "-"
    ensures WithinIntRange(v, config.min, config.max) <==> InRange(v, config)
    ensures IsOutside(v, config) <==> !InRange(v, config)
  {
    IntegerDenotes(v, config);
    assert Pow10(0) == 1;
    assert Body(".") == "." && !IsDigit('.');
  }

  lemma ChoppedValue(v: string)
    requires v != [] && AllDigits(Body(v)) && Body(v) != []
    ensures var w := v[..|v| - 1];
            && AllDigits(Body(w)) && StartsWithMinus(w) == StartsWithMinus(v)
            && 0 <= ReadNat(Body(w)) <= ReadNat(Body(v))
  {
    var w := v[..|v| - 1];
    ReadLast(Body(v));
    if StartsWithMinus(v) {
      assert Body(w) == Body(v)[..|Body(v)| - 1];
    } else {
      assert v == Body(v) && IsDigit(v[0]);
    }
  }

  lemma BackspaceStaysInRange(v: string, config: Config)
    requires config.kind == NumInt && InLanguage(v, config) && InRange(v, config) && v != []
    requires config.min <= 0 <= config.max
    ensures InRange(v[..|v| - 1], config)
  {
    BackspaceStaysInLanguage(v, config);
    IntegerDenotes(v, config);
    IntegerDenotes(v[..|v| - 1], config);
    if Body(v) != [] {
      ChoppedValue(v);
    }
  }

  /** A keystroke that lengthens an integer field has passed the range check. */
  lemma AcceptedKeyIsInRange(v: string, key: string, config: Config)
    requires config.kind == NumInt && key != "Backspace"
    ensures var next := ApplyKey(v, key, config).value;
            next == v || next == "" || next == "-" || WithinIntRange(next, config.min, config.max)
  {
  }

  lemma KeyStaysInRange(v: string, key: string, config: Config)
    requires config.kind == NumInt && InLanguage(v, config) && InRange(v, config)
    requires config.min <= 0 <= config.max || key != "Backspace"
    ensures InRange(ApplyKey(v, key, config).value, config)
  {
    if key == "Backspace" {
      if v != [] {
        BackspaceStaysInRange(v, config);
      }
    } else {
      var next := ApplyKey(v, key, config).value;
      AcceptedKeyIsInRange(v, key, config);
      if next != v && next != "" && next != "-" {
        KeyStaysInLanguage(v, key, config);
        RangeTests(next, config);
      }
    }
  }

  lemma PasteStaysInRange(text: string, config: Config)
    requires config.kind == NumInt
    ensures InRange(PasteResult(text, config).0, config)
  {
    var v := PasteResult(text, config).0;
    PasteLandsInLanguage(text, config);
    if v != "" && v != "-" {
      RangeTests(v, config);
    }
  }

  lemma {:induction false} TypingStaysInRange(v: string, inputs: seq<Input>, config: Config)
    requires config.kind == NumInt && config.min <= 0 <= config.max
    requires InLanguage(v, config) && InRange(v, config)
    ensures InRange(Type(v, inputs, config), config)
    decreases |inputs|
  {
    if inputs != [] {
      TypingStaysInLanguage(v, [inputs[0]], config);
      assert Type(v, [inputs[0]], config) == Step(v, inputs[0], config) by {
        assert [inputs[0]][1..] == [];
      }
      match inputs[0] {
        case Key(key) => KeyStaysInRange(v, key, config);
        case Paste(text) => PasteStaysInRange(text, config);
      }
      TypingStaysInRange(Step(v, inputs[0], config), inputs[1..], config);
    }
  }

  /** An empty range lets nothing but a minus in. */
  lemma {:induction false} EmptyRangeStaysEmpty(v: string, inputs: seq<Input>, config: Config)
    requires config.kind == NumInt && config.min > config.max && (v == "" || v == "-")
    ensures Type(v, inputs, config) == "" || Type(v, inputs, config) == "-"
    decreases |inputs|
  {
    if inputs != [] {
      var next := Step(v, inputs[0], config);
      assert InLanguage(v, config) && InRange(v, config);
      match inputs[0] {
        case Key(key) => KeyStaysInLanguage(v, key, config);
          if key != "Backspace" {
            KeyStaysInRange(v, key, config);
          }
        case Paste(text) => PasteStaysInRange(text, config);
      }
      assert next == "" || next == "-";
      EmptyRangeStaysEmpty(next, inputs[1..], config);
    }
  }

  function Backspaces(n: nat): seq<Input> {
    seq(n, _ => Key("Backspace"))
  }

  lemma {:induction false} BackspacesChop(v: string, n: nat, config: Config)
    requires n <= |v|
    ensures Type(v, Backspaces(n), config) == v[..|v| - n]
    decreases n
  {
    if n == 0 {
      assert v[..|v|] == v;
    } else {
      assert Backspaces(n)[1..] == Backspaces(n - 1);
      BackspacesChop(v[..|v| - 1], n - 1, config);
    }
  }

  /** A number written with a leading zero. */
  function Padded(negative: bool, bound: nat): string {
    (if negative then "-0" else "0") + PrintNat(bound)
  }

  lemma PaddedDenotes(negative: bool, bound: nat, config: Config)
    requires config.kind == NumInt
    ensures var v := Padded(negative, bound);
            InLanguage(v, config) && ParseDecimal(v) == Some(Dec(if negative then 0 - bound else bound, 0))
  {
    var v, digits := Padded(negative, bound), "0" + PrintNat(bound);
    PaddedBody(negative, PrintNat(bound));
    WholeIsBody(digits, config);
    PaddedReads(bound);
    IntegerDenotes(v, config);
  }

  lemma PaddedBody(negative: bool, digits: string)
    ensures Body((if negative then "-0" else "0") + digits) == "0" + digits
  {
    assert "-0" + digits == "-" + ("0" + digits);
    assert ("0" + digits)[0] == '0';
  }

  lemma PaddedReads(bound: nat)
    ensures AllDigits("0" + PrintNat(bound)) && ReadNat("0" + PrintNat(bound)) == bound
  {
    ReadConcat("0", PrintNat(bound));
    ReadPrintNat(bound);
    assert ReadNat("0") == 0;
  }

  lemma LoneZero(negative: bool, config: Config)
    requires config.kind == NumInt
    ensures var v := if negative then "-0" else "0"; ParseDecimal(v) == Some(Dec(0, 0))
  {
    var v := if negative then "-0" else "0";
    assert Body(v) == "0";
    WholeIsBody("0", config);
    assert ReadNat("0") == 0;
    IntegerDenotes(v, config);
  }

  /** Paste a bound with a leading zero and backspace down to the zero. */
  lemma LeadingZeroEscapes(config: Config) returns (inputs: seq<Input>)
    requires config.kind == NumInt && config.min <= config.max && !(config.min <= 0 <= config.max)
    ensures !InRange(Type("", inputs, config), config)
  {
    var negative := config.max < 0;
    var bound := if negative then -config.max else config.min;
    var v := Padded(negative, bound);
    inputs := [Paste(v)] + Backspaces(|PrintNat(bound)|);
    PaddedPastes(negative, bound, config);
    PasteThenChop(v, |PrintNat(bound)|, config);
    assert v[..|v| - |PrintNat(bound)|] == if negative then "-0" else "0";
    LoneZero(negative, config);
  }

  lemma PaddedPastes(negative: bool, bound: nat, config: Config)
    requires config.kind == NumInt && config.min <= (if negative then 0 - bound else bound) <= config.max
    ensures PasteResult(Padded(negative, bound), config).0 == Padded(negative, bound)
  {
    PaddedDenotes(negative, bound, config);
    RangeTests(Padded(negative, bound), config);
    FieldValuePastesAsIs(Padded(negative, bound), config);
  }

  lemma PasteThenChop(v: string, n: nat, config: Config)
    requires n <= |v| && PasteResult(v, config).0 == v
    ensures Type("", [Paste(v)] + Backspaces(n), config) == v[..|v| - n]
  {
    assert ([Paste(v)] + Backspaces(n))[1..] == Backspaces(n);
    BackspacesChop(v, n, config);
  }

  /** The exact condition on the configuration: every reachable value is "", "-" or an integer of
      the range if and only if the range contains 0 or is empty. */
  lemma ReachableValuesInRangeIff(config: Config)
    requires config.kind == NumInt
    ensures (forall inputs :: InRange(Type("", inputs, config), config))
            <==> (config.min <= 0 <= config.max || config.min > config.max)
  {
    if config.min <= 0 <= config.max {
      forall inputs
        ensures InRange(Type("", inputs, config), config)
      {
        TypingStaysInRange("", inputs, config);
      }
    } else if config.min > config.max {
      forall inputs
        ensures InRange(Type("", inputs, config), config)
      {
        EmptyRangeStaysEmpty("", inputs, config);
      }
    } else {
      var inputs := LeadingZeroEscapes(config);
    }
  }
}
