/** What the numeric keypad lets in: which values can be typed, key by key. */
module Typing {
  import opened Digits
  import opened NumericInput
  import opened NumIntRange

  predicate IsKeypadKey(key: string) {
    |key| == 1 && (IsDigit(key[0]) || key[0] == '.' || key[0] == '-')
  }

  /** Clear and Delete empty the field, Backspace takes the last character, other keys than digits, dot
      and minus do nothing. Those are rejected exactly when the field stays as it is; otherwise they
      lengthen it by their character, and Backspace takes that back. */
  lemma KeyOutcome(v: string, key: string, config: Config)
    ensures var r := ApplyKey(v, key, config);
            && (key == "Clear" || key == "Delete" ==> r == KeyAttempt("", false))
            && (key == "Backspace" ==>
                  !r.rejected && (v == "" ==> r.value == "") && (v != "" ==> v == r.value + [v[|v| - 1]]))
            && (IsKeypadKey(key) ==> (r.rejected <==> r.value == v) && (!r.rejected ==> r.value == v + key)
                                     && (!r.rejected ==> ApplyKey(r.value, "Backspace", config).value == v))
            && (!IsKeypadKey(key) && key != "Clear" && key != "Delete" && key != "Backspace" ==>
                  r == KeyAttempt(v, false))
  {
    if IsKeypadKey(key) {
      assert key == [key[0]];
      assert (v + key)[..|v|] == v;
    }
  }

  /** The field value longer by a keypad key is one the field can hold by typing. */
  predicate MayFollow(v: string, key: string, config: Config) {
    && InLanguage(v + key, config)
    && (key == "." ==> Body(v) != "")
    && (config.kind == NumInt ==> InRange(v + key, config))
  }

  lemma MinusFollows(v: string, config: Config)
    requires InLanguage(v, config)
    ensures InLanguage(v + "-", config) <==> v == ""
  {
    if v == "" {
      assert v + "-" == "-";
      ShortIsInLanguage("-", config);
    } else {
      var body := Body(v);
      var longer := body + "-";
      MinusShiftsDot(v);
      assert Body(v + "-") == longer;
      FirstDotIs(longer, if FirstDot(body) < |body| then FirstDot(body) else |longer|);
      if FirstDot(body) < |body| {
        assert longer[FirstDot(body) + 1..][|body| - FirstDot(body) - 1] == '-';
      } else {
        assert longer[..|longer|][|body|] == '-';
      }
    }
  }

  lemma DotFollows(v: string, config: Config)
    requires InLanguage(v, config)
    ensures InLanguage(v + ".", config) && Body(v) != "" <==>
            AllowsDot(config) && !HasDecimal(v) && v != "" && v != "-"
  {
    var body := Body(v);
    var longer := body + ".";
    MinusShiftsDot(v);
    if v != "" {
      assert Body(v + ".") == longer;
      if FirstDot(body) < |body| {
        FirstDotIs(longer, FirstDot(body));
        assert longer[FirstDot(body) + 1..][|body| - FirstDot(body) - 1] == '.';
        assert v[FirstDot(v)] == '.';
      } else {
        FirstDotIs(longer, |body|);
        assert HasDecimal(v) <==> FirstDot(v) < |v|;
        if AllowsDot(config) {
          AppendWhole(body, '.', config);
        }
      }
    }
  }

  lemma DigitFollows(v: string, c: char, config: Config)
    requires InLanguage(v, config) && IsDigit(c)
    ensures InLanguage(v + [c], config) <==> (HasDecimal(v) ==> DecimalCount(v) < config.precision)
  {
    var body := Body(v);
    MinusShiftsDot(v);
    if HasDecimal(v) ==> DecimalCount(v) < config.precision {
      AppendStaysInLanguage(v, c, config);
    } else {
      assert Body(v + [c]) == body + [c];
      FirstDotIs(body + [c], FirstDot(body));
    }
  }

  /** A digit, dot or minus is accepted if and only if the longer value is one of the field's language and,
      for integers, of its range, and a dot has something in front of it. */
  lemma KeyIsAcceptedIff(v: string, key: string, config: Config)
    requires InLanguage(v, config) && IsKeypadKey(key)
    ensures ApplyKey(v, key, config) ==
            if MayFollow(v, key, config) then KeyAttempt(v + key, false) else KeyAttempt(v, true)
  {
    assert key == [key[0]];
    if key == "-" {
      MinusFollows(v, config);
    } else if key == "." {
      DotFollows(v, config);
    } else {
      DigitFollows(v, key[0], config);
      if InLanguage(v + key, config) && config.kind == NumInt {
        RangeTests(v + key, config);
      }
    }
  }

  // ---- which values can be typed ----

  /** Typing the characters of `v` one by one from an empty field enters each of them. */
  predicate IsEntered(v: string, config: Config)
    decreases |v|
  {
    v == "" ||
    var u, c := v[..|v| - 1], v[|v| - 1];
    IsEntered(u, config) && ApplyKey(u, [c], config) == KeyAttempt(v, false)
  }

  /** A field value that does not begin with its dot; an integer that is of the range as soon as, and as
      long as, it has a digit. */
  predicate Typeable(v: string, config: Config) {
    && InLanguage(v, config) && (Body(v) != "" ==> Body(v)[0] != '.')
    && (config.kind == NumInt ==> PrefixesInRange(v, config))
  }

  predicate PrefixesInRange(v: string, config: Config)
    decreases |v|
  {
    InRange(v, config) && (v == "" || PrefixesInRange(v[..|v| - 1], config))
  }

  lemma LeadingDotStep(v: string)
    requires v != ""
    ensures var u, c := v[..|v| - 1], v[|v| - 1];
            (Body(v) != "" ==> Body(v)[0] != '.')
            <==> (Body(u) != "" ==> Body(u)[0] != '.') && ([c] == "." ==> Body(u) != "")
  {
    var u := v[..|v| - 1];
    if u != "" {
      assert u[0] == v[0] && Body(u) == Body(v)[..|Body(v)| - 1];
    }
  }

  lemma TypeableStep(v: string, config: Config)
    requires v != ""
    ensures var u, c := v[..|v| - 1], v[|v| - 1];
            Typeable(v, config) <==> Typeable(u, config) && IsKeypadKey([c]) && MayFollow(u, [c], config)
  {
    assert v == v[..|v| - 1] + [v[|v| - 1]];
    if InLanguage(v, config) {
      BackspaceStaysInLanguage(v, config);
      LastIsKeypadKey(v, config);
      LeadingDotStep(v);
    }
  }

  lemma LastIsKeypadKey(v: string, config: Config)
    requires InLanguage(v, config) && v != ""
    ensures IsKeypadKey([v[|v| - 1]])
  {
    var body := Body(v);
    var dot := FirstDot(body);
    if body != "" {
      if dot == |body| {
        assert body[..dot][|body| - 1] == v[|v| - 1];
      } else if dot < |body| - 1 {
        assert body[dot + 1..][|body| - dot - 2] == v[|v| - 1];
      }
    }
  }

  /** Exactly the values that can be typed: the keypad enters every character of a value, one by one and
      rejecting none, if and only if it is a field value that does not begin with its dot and, for
      integers, stays in range from the first digit on. */
  lemma {:induction false} TypeableIff(v: string, config: Config)
    ensures IsEntered(v, config) <==> Typeable(v, config)
    decreases |v|
  {
    if v == "" {
      ShortIsInLanguage("", config);
    } else {
      var u, c := v[..|v| - 1], v[|v| - 1];
      TypeableIff(u, config);
      TypeableStep(v, config);
      assert v == u + [c];
      KeyOutcome(u, [c], config);
      if Typeable(u, config) && IsKeypadKey([c]) {
        KeyIsAcceptedIff(u, [c], config);
      }
    }
  }

  function Keys(v: string): seq<Input> {
    seq(|v|, k requires 0 <= k < |v| => Key([v[k]]))
  }

  lemma {:induction false} TypeConcat(v: string, xs: seq<Input>, ys: seq<Input>, config: Config)
    ensures Type(v, xs + ys, config) == Type(Type(v, xs, config), ys, config)
    decreases |xs|
  {
    if xs == [] {
      assert xs + ys == ys;
    } else {
      assert (xs + ys)[1..] == xs[1..] + ys;
      TypeConcat(Step(v, xs[0], config), xs[1..], ys, config);
    }
  }

  lemma TypeOne(v: string, key: string, config: Config)
    ensures Type(v, [Key(key)], config) == ApplyKey(v, key, config).value
  {
    assert [Key(key)][1..] == [];
  }

  lemma KeysSplit(v: string)
    requires v != ""
    ensures Keys(v) == Keys(v[..|v| - 1]) + [Key([v[|v| - 1]])]
  {
  }

  lemma {:induction false} EnteredIsTyped(v: string, config: Config)
    requires IsEntered(v, config)
    ensures Type("", Keys(v), config) == v
    decreases |v|
  {
    if v != "" {
      var u, c := v[..|v| - 1], v[|v| - 1];
      EnteredIsTyped(u, config);
      KeysSplit(v);
      TypeConcat("", Keys(u), [Key([c])], config);
      TypeOne(u, [c], config);
    }
  }

  /** Typing such a value, character by character, leaves exactly it in the field. */
  lemma TypingEntersTheValue(v: string, config: Config)
    requires Typeable(v, config)
    ensures Type("", Keys(v), config) == v
  {
    TypeableIff(v, config);
    EnteredIsTyped(v, config);
  }
}
