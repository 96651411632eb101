/** The NUM-INT / NUM-DEC keypad: one keystroke, one paste, and everything a sequence of them
    can leave in the input field. */
module NumericInput {
  import opened Basics
  import opened Digits
  import opened Decimals

  datatype Kind = NumInt | NumDec

  datatype Config = Config(kind: Kind, precision: nat, min: int, max: int)

  datatype KeyAttempt = KeyAttempt(value: string, rejected: bool)

  predicate HasDecimal(value: string) {
    '.' in value
  }

  function DecimalCount(value: string): nat {
    var dot := FirstDot(value);
    if dot == |value| then 0 else |value| - dot - 1
  }

  predicate StartsWithMinus(value: string) {
    value != [] && value[0] == '-'
  }

  /** Number(value) compared with the range; a text that is no number is outside. */
  predicate WithinIntRange(value: string, min: int, max: int) {
    if value == "" || value == "-" || value == "." then true
    else match ParseDecimal(value)
      case None => false
      case Some(d) => min * Pow10(d.scale) <= d.coef <= max * Pow10(d.scale)
  }

  predicate AllowsDot(config: Config) {
    config.kind == NumDec && config.precision != 0
  }

  function ApplyKey(current: string, key: string, config: Config): KeyAttempt {
    if key == "Backspace" then KeyAttempt(if current == [] then [] else current[..|current| - 1], false)
    else if key == "Clear" || key == "Delete" then KeyAttempt("", false)
    else if key == "-" then
      if |current| > 0 || StartsWithMinus(current) then KeyAttempt(current, true) else KeyAttempt("-", false)
    else if key == "." then
      if !AllowsDot(config) || HasDecimal(current) || current == "" || current == "-" then KeyAttempt(current, true)
      else KeyAttempt(current + ".", false)
    else if |key| == 1 && IsDigit(key[0]) then
      if HasDecimal(current) && DecimalCount(current) >= config.precision then KeyAttempt(current, true)
      else if config.kind == NumInt && !WithinIntRange(current + key, config.min, config.max) then
        KeyAttempt(current, true)
      else KeyAttempt(current + key, false)
    else KeyAttempt(current, false)
  }

  // ---- paste ----

  function Keep(s: string, p: char -> bool): (r: string)
    ensures |r| <= |s| && forall c :: c in r <==> c in s && p(c)
    ensures |r| == |s| ==> r == s
    decreases |s|
  {
    if s == [] then []
    else if p(s[0]) then [s[0]] + Keep(s[1..], p)
    else Keep(s[1..], p)
  }

  lemma {:induction false} KeepAll(s: string, p: char -> bool)
    requires forall c :: c in s ==> p(c)
    ensures Keep(s, p) == s
    decreases |s|
  {
    if s != [] {
      assert s[0] in s;
      KeepAll(s[1..], p);
    }
  }

  lemma {:induction false} KeepConcat(a: string, b: string, p: char -> bool)
    ensures Keep(a + b, p) == Keep(a, p) + Keep(b, p)
    decreases |a|
  {
    if a == "" {
      assert a + b == b;
    } else {
      assert (a + b)[1..] == a[1..] + b;
      KeepConcat(a[1..], b, p);
    }
  }

  /** A minus comes before every digit and dot. */
  predicate OpensWithMinus(text: string) {
    var first := IndexOf(text, '-');
    first < |text| && forall c :: c in text[..first] ==> !IsNumericChar(c)
  }

  /** Keep filters: each character stays where it is or goes, by the test alone. */
  lemma KeepFilters(a: string, c: char, b: string, p: char -> bool)
    ensures Keep(a + [c] + b, p) == Keep(a, p) + (if p(c) then [c] else []) + Keep(b, p)
  {
    KeepConcat(a + [c], b, p);
    KeepConcat(a, [c], p);
    assert [c][1..] == [];
  }

  predicate IsNumericChar(c: char) {
    IsDigit(c) || c == '.' || c == '-'
  }

  predicate NotMinus(c: char) {
    c != '-'
  }

  predicate NotDot(c: char) {
    c != '.'
  }

  function KeepFirstDot(body: string): string {
    var dot := FirstDot(body);
    if dot == |body| then body else body[..dot + 1] + Keep(body[dot + 1..], NotDot)
  }

  /** Cut the fraction down to what the field allows. */
  function Truncate(body: string, config: Config): (string, bool) {
    var dot := FirstDot(body);
    if dot == |body| then (body, false)
    else if !AllowsDot(config) then (body[..dot], true)
    else if |body| - dot - 1 > config.precision then (body[..dot + 1 + config.precision], true)
    else (body, false)
  }

  function PasteResult(pasted: string, config: Config): (string, bool) {
    var raw := Keep(pasted, IsNumericChar);
    var (body, cut) := Truncate(KeepFirstDot(Keep(raw, NotMinus)), config);
    var value := (if StartsWithMinus(raw) then "-" else "") + body;
    if config.kind == NumInt && value != "" && value != "-" && IsOutside(value, config) then ("", true)
    else (value, |raw| != |pasted| || cut)
  }

  /** A number, but not one of the range. */
  predicate IsOutside(value: string, config: Config) {
    match ParseDecimal(value)
    case None => false
    case Some(d) => d.coef < config.min * Pow10(d.scale) || d.coef > config.max * Pow10(d.scale)
  }

  lemma CutFraction(body: string, dot: nat, precision: nat)
    requires dot < |body| && body[dot] == '.' && precision <= |body| - dot - 1
    ensures body[..dot + 1 + precision] == body[..dot] + "." + body[dot + 1..][..precision]
  {
  }

  method TruncateFraction(text: string, config: Config) returns (body: string, dropped: bool)
    ensures (body, dropped) == Truncate(text, config)
  {
    body, dropped := text, false;
    if config.kind == NumInt || config.precision == 0 {
      if HasDecimal(body) {
        body := body[..FirstDot(body)];
        dropped := true;
      }
    } else if HasDecimal(body) {
      var dot := FirstDot(body);
      var intPart, fracPart := body[..dot], body[dot + 1..];
      if |fracPart| > config.precision {
        CutFraction(body, dot, config.precision);
        body := intPart + "." + fracPart[..config.precision];
        dropped := true;
      }
    }
  }

  method ApplyPaste(pasted: string, config: Config) returns (value: string, truncated: bool)
    ensures (value, truncated) == PasteResult(pasted, config)
  {
    var raw := Keep(pasted, IsNumericChar);
    var dropped := |raw| != |pasted|;
    var negative := StartsWithMinus(raw);
    var body := Keep(raw, NotMinus);
    var firstDot := FirstDot(body);
    if firstDot != |body| {
      body := body[..firstDot + 1] + Keep(body[firstDot + 1..], NotDot);
    }
    assert body == KeepFirstDot(Keep(raw, NotMinus));
    var cut: bool;
    body, cut := TruncateFraction(body, config);
    dropped := dropped || cut;
    value := (if negative then "-" else "") + body;
    if config.kind == NumInt && value != "" && value != "-" {
      if IsOutside(value, config) {
        return "", true;
      }
    }
    truncated := dropped;
  }

  function CanonicaliseForDisplay(raw: Option<string>, precision: int): Option<string> {
    match raw
    case None => None
    case Some(text) =>
      if text == "" || text == "-" || text == "." then None
      else match RoundHalfToEven(text, precision)
        case Ok(out) => Some(out)
        case Err(_) => None
  }

  // ---- the language of the field ----

  function Body(v: string): string {
    if StartsWithMinus(v) then v[1..] else v
  }

  /** Digits, and where the field allows it a dot and at most `precision` digits. */
  predicate IsBody(body: string, config: Config) {
    var dot := FirstDot(body);
    && AllDigits(body[..dot])
    && (dot < |body| ==> AllowsDot(config) && AllDigits(body[dot + 1..]) && |body| - dot - 1 <= config.precision)
  }

  predicate InLanguage(v: string, config: Config) {
    IsBody(Body(v), config)
  }

  datatype Input = Key(key: string) | Paste(text: string)

  function Step(v: string, input: Input, config: Config): string {
    match input
    case Key(key) => ApplyKey(v, key, config).value
    case Paste(text) => PasteResult(text, config).0
  }

  function Type(v: string, inputs: seq<Input>, config: Config): string
    decreases |inputs|
  {
    if inputs == [] then v else Type(Step(v, inputs[0], config), inputs[1..], config)
  }

  lemma WholeIsBody(whole: string, config: Config)
    requires AllDigits(whole)
    ensures IsBody(whole, config) && FirstDot(whole) == |whole|
  {
    FirstDotIs(whole, |whole|);
    assert whole[..|whole|] == whole;
  }

  lemma DottedIsBody(whole: string, frac: string, config: Config)
    requires AllDigits(whole) && AllDigits(frac) && AllowsDot(config) && |frac| <= config.precision
    ensures IsBody(whole + "." + frac, config) && FirstDot(whole + "." + frac) == |whole|
  {
    var body := whole + "." + frac;
    FirstDotIs(body, |whole|);
    assert body[..|whole|] == whole && body[|whole| + 1..] == frac;
  }

  /** A text with a dot, taken apart at the first one. */
  lemma SplitAtDot(body: string, dot: nat)
    requires dot < |body| && body[dot] == '.'
    ensures body == body[..dot] + "." + body[dot + 1..]
  {
  }

  lemma AppendFraction(body: string, c: char, config: Config)
    requires IsBody(body, config) && IsDigit(c)
    requires FirstDot(body) < |body| && |body| - FirstDot(body) - 1 < config.precision
    ensures IsBody(body + [c], config)
  {
    var whole, frac := body[..FirstDot(body)], body[FirstDot(body) + 1..];
    SplitAtDot(body, FirstDot(body));
    DottedIsBody(whole, frac + [c], config);
    AppendBehindDot(whole, frac, c);
  }

  lemma AppendBehindDot(whole: string, frac: string, c: char)
    ensures whole + "." + frac + [c] == whole + "." + (frac + [c])
  {
  }

  lemma AppendWhole(body: string, c: char, config: Config)
    requires IsBody(body, config) && FirstDot(body) == |body|
    requires IsDigit(c) || (c == '.' && AllowsDot(config))
    ensures IsBody(body + [c], config)
  {
    assert body[..|body|] == body;
    if c == '.' {
      DottedIsBody(body, "", config);
      assert body + [c] == body + "." + "";
    } else {
      WholeIsBody(body + [c], config);
    }
  }

  lemma ChopBody(body: string, config: Config)
    requires IsBody(body, config) && body != []
    ensures IsBody(body[..|body| - 1], config)
  {
    var dot, shorter := FirstDot(body), body[..|body| - 1];
    if dot < |shorter| {
      SplitAtDot(body, dot);
      DottedIsBody(body[..dot], body[dot + 1..|body| - 1], config);
      assert shorter == body[..dot] + "." + body[dot + 1..|body| - 1];
    } else {
      assert forall i :: 0 <= i < |shorter| ==> shorter[i] == body[..dot][i];
      WholeIsBody(shorter, config);
    }
  }

  lemma MinusShiftsDot(v: string)
    ensures StartsWithMinus(v) ==> FirstDot(v) == 1 + FirstDot(Body(v))
  {
  }

  lemma BackspaceStaysInLanguage(v: string, config: Config)
    requires InLanguage(v, config) && v != []
    ensures InLanguage(v[..|v| - 1], config)
  {
    var body, next := Body(v), v[..|v| - 1];
    if body != [] {
      ChopBody(body, config);
      if StartsWithMinus(v) {
        assert Body(next) == body[..|body| - 1];
      } else {
        assert next == [] || next[0] == v[0];
      }
    } else {
      assert next == "";
    }
  }

  lemma AppendStaysInLanguage(v: string, c: char, config: Config)
    requires InLanguage(v, config)
    requires || (IsDigit(c) && (HasDecimal(v) ==> DecimalCount(v) < config.precision))
             || (c == '.' && AllowsDot(config) && !HasDecimal(v) && v != "")
    ensures InLanguage(v + [c], config)
  {
    var body := Body(v);
    MinusShiftsDot(v);
    assert Body(v + [c]) == body + [c];
    if FirstDot(body) < |body| {
      AppendFraction(body, c, config);
    } else {
      AppendWhole(body, c, config);
    }
  }

  /** What a key other than an erasing one can do: nothing, a first minus, or one more character. */
  lemma KeyEffect(v: string, key: string, config: Config)
    requires key != "Backspace" && key != "Clear" && key != "Delete"
    ensures var next := ApplyKey(v, key, config).value;
            || next == v || next == "-"
            || (key == "." && AllowsDot(config) && !HasDecimal(v) && v != "" && next == v + ".")
            || (|key| == 1 && IsDigit(key[0]) && (HasDecimal(v) ==> DecimalCount(v) < config.precision)
                 && next == v + key)
  {
  }

  lemma KeyStaysInLanguage(v: string, key: string, config: Config)
    requires InLanguage(v, config)
    ensures InLanguage(ApplyKey(v, key, config).value, config)
  {
    if key == "Backspace" {
      if v != [] {
        BackspaceStaysInLanguage(v, config);
      }
    } else if key == "Clear" || key == "Delete" {
      ShortIsInLanguage("", config);
    } else {
      KeyEffect(v, key, config);
      ShortIsInLanguage("-", config);
      var next := ApplyKey(v, key, config).value;
      if next != v && next != "-" {
        assert |key| == 1 && key == [key[0]];
        AppendStaysInLanguage(v, key[0], config);
      }
    }
  }

  lemma ShortIsInLanguage(v: string, config: Config)
    requires v == "" || v == "-"
    ensures InLanguage(v, config)
  {
    assert Body(v) == "";
    WholeIsBody("", config);
  }

  lemma DigitsOnly(s: string)
    requires forall c :: c in s ==> IsDigit(c)
    ensures AllDigits(s)
  {
    assert forall i :: 0 <= i < |s| ==> s[i] in s;
  }

  lemma SplitIsClean(s: string)
    requires forall c :: c in s ==> IsDigit(c) || c == '.'
    ensures var dot := FirstDot(s); AllDigits(s[..dot]) && (dot < |s| ==> AllDigits(Keep(s[dot + 1..], NotDot)))
  {
    var dot := FirstDot(s);
    forall i | 0 <= i < dot
      ensures IsDigit(s[..dot][i])
    {
      assert s[i] in s && s[i] != '.';
    }
    if dot < |s| {
      var frac := Keep(s[dot + 1..], NotDot);
      forall c | c in frac
        ensures IsDigit(c)
      {
        assert c in s[dot + 1..] && c in s && NotDot(c);
      }
      DigitsOnly(frac);
    }
  }

  lemma FirstDotSplits(s: string)
    ensures var dot := FirstDot(s);
            KeepFirstDot(s) == if dot < |s| then s[..dot] + "." + Keep(s[dot + 1..], NotDot) else s[..dot]
  {
  }

  /** What is left of a paste before the sign is put back. */
  lemma CleanedIsBody(s: string, config: Config)
    requires forall c :: c in s ==> IsDigit(c) || c == '.'
    ensures IsBody(Truncate(KeepFirstDot(s), config).0, config)
  {
    var dot := FirstDot(s);
    SplitIsClean(s);
    FirstDotSplits(s);
    if dot < |s| {
      TruncatedIsBody(s[..dot], Keep(s[dot + 1..], NotDot), config);
    } else {
      WholeIsBody(s[..dot], config);
    }
  }

  lemma TruncatedIsBody(whole: string, frac: string, config: Config)
    requires AllDigits(whole) && AllDigits(frac)
    ensures IsBody(Truncate(whole + "." + frac, config).0, config)
  {
    var kept := whole + "." + frac;
    FirstDotIs(kept, |whole|);
    if !AllowsDot(config) {
      WholeIsBody(whole, config);
      assert kept[..|whole|] == whole;
    } else {
      var size := Min(|frac|, config.precision);
      DottedIsBody(whole, frac[..size], config);
      assert kept[..|whole| + 1 + size] == whole + "." + frac[..size];
      assert kept[..|kept|] == kept;
    }
  }

  lemma BodyTakesMinus(body: string, config: Config)
    requires IsBody(body, config)
    ensures InLanguage("-" + body, config) && InLanguage("" + body, config)
  {
    assert Body("-" + body) == body;
    if FirstDot(body) > 0 {
      assert body[..FirstDot(body)][0] == body[0];
    }
    assert !StartsWithMinus(body);
    assert Body("" + body) == body;
  }

  lemma StrippedIsNumeric(text: string)
    ensures forall c :: c in Keep(Keep(text, IsNumericChar), NotMinus) ==> IsDigit(c) || c == '.'
  {
  }

  lemma PasteLandsInLanguage(text: string, config: Config)
    ensures InLanguage(PasteResult(text, config).0, config)
  {
    var stripped := Keep(Keep(text, IsNumericChar), NotMinus);
    StrippedIsNumeric(text);
    CleanedIsBody(stripped, config);
    BodyTakesMinus(Truncate(KeepFirstDot(stripped), config).0, config);
    ShortIsInLanguage("", config);
  }

  /** Whatever is typed and pasted, in any order, the field holds an optional minus, digits, and
      where allowed a dot with at most `precision` digits behind it. */
  lemma {:induction false} TypingStaysInLanguage(v: string, inputs: seq<Input>, config: Config)
    requires InLanguage(v, config)
    ensures InLanguage(Type(v, inputs, config), config)
    decreases |inputs|
  {
    if inputs != [] {
      match inputs[0] {
        case Key(key) => KeyStaysInLanguage(v, key, config);
        case Paste(text) => PasteLandsInLanguage(text, config);
      }
      TypingStaysInLanguage(Step(v, inputs[0], config), inputs[1..], config);
    }
  }

  /** A field value denotes a number when it holds a digit, of no more decimals than allowed. */
  lemma LanguageDenotes(v: string, config: Config)
    requires InLanguage(v, config)
    ensures ParseDecimal(v).Some? <==> exists i :: 0 <= i < |v| && IsDigit(v[i])
    ensures ParseDecimal(v).Some? ==> ParseDecimal(v).value.scale <= config.precision
  {
    var body := Body(v);
    var dot := FirstDot(body);
    assert Unsigned(v) == body by {
      if v != [] && !StartsWithMinus(v) && dot > 0 {
        assert body[..dot][0] == v[0];
      }
    }
    if dot > 0 {
      assert IsDigit(body[..dot][0]) && v[if StartsWithMinus(v) then 1 else 0] == body[0];
    }
    if dot + 1 < |body| {
      assert IsDigit(body[dot + 1..][0]) && v[dot + 1 + if StartsWithMinus(v) then 1 else 0] == body[dot + 1];
    }
  }

  ghost predicate SameValue(a: Dec, b: Dec) {
    AtMost(a, b) && AtMost(b, a)
  }

  /** Normalising `v` at `p` decimals succeeds and keeps its value. */
  ghost predicate SurvivesNormalising(v: string, p: nat) {
    && ParseDecimal(v).Some?
    && NormalizeNumDec(v, p).Ok?
    && ParseDecimal(NormalizeNumDec(v, p).value).Some?
    && SameValue(ParseDecimal(NormalizeNumDec(v, p).value).value, ParseDecimal(v).value)
  }

  lemma ShortValueSurvives(v: string, p: nat)
    requires ParseDecimal(v).Some? && ParseDecimal(v).value.scale <= p
    ensures SurvivesNormalising(v, p)
  {
    var d := ParseDecimal(v).value;
    NormalizeIsCanonical(v, p);
    ParseCanonical(Rounded(d, p), p);
    ShortFractionsAreExact(d, p);
  }

  lemma SignsAndDotsAreNoNumbers(text: string)
    requires text == "" || text == "-" || text == "."
    ensures ParseDecimal(text) == None
  {
    if text == "." {
      assert Unsigned(text) == text && FirstDot(text) == 0;
    } else {
      assert Unsigned(text) == "";
    }
  }

  /** The display shows the number rounded half to even, printed canonically, of whatever text is one. */
  lemma DisplayShowsRounded(raw: Option<string>, precision: int)
    ensures CanonicaliseForDisplay(raw, precision) ==
            if raw.None? || precision < 0 || ParseDecimal(raw.value).None? then None
            else Some(Canonical(Rounded(ParseDecimal(raw.value).value, precision), precision))
  {
    if raw.Some? {
      if raw.value == "" || raw.value == "-" || raw.value == "." {
        SignsAndDotsAreNoNumbers(raw.value);
      } else {
        NormalizeIsCanonical(raw.value, precision);
      }
    }
  }

  /** No mark is lost to rounding: whatever number the keypad can produce, normalising it at the
      field's precision keeps its value, and the display shows it exactly when there is one. */
  lemma TypedValueSurvivesNormalising(inputs: seq<Input>, config: Config)
    ensures var v := Type("", inputs, config);
            && (ParseDecimal(v).Some? ==> SurvivesNormalising(v, config.precision))
            && (CanonicaliseForDisplay(Some(v), config.precision).Some? <==> exists i :: 0 <= i < |v| && IsDigit(v[i]))
  {
    var v := Type("", inputs, config);
    ShortIsInLanguage("", config);
    TypingStaysInLanguage("", inputs, config);
    LanguageDenotes(v, config);
    DisplayShowsRounded(Some(v), config.precision);
    if ParseDecimal(v).Some? {
      ShortValueSurvives(v, config.precision);
    }
  }

  lemma ShortFractionsAreExact(d: Dec, p: nat)
    requires d.scale <= p
    ensures SameValue(Dec(Rounded(d, p), p), d)
  {
    var unit, s := Pow10(p - d.scale), Pow10(d.scale);
    Pow10Sum(p - d.scale, d.scale);
    assert Rounded(d, p) == d.coef * unit;
    ExactlyScaled(d.coef, unit, s);
  }

  // ---- pasting twice ----

  lemma BodyIsClean(body: string, config: Config)
    requires IsBody(body, config)
    ensures forall c :: c in body ==> IsDigit(c) || c == '.'
    ensures KeepFirstDot(body) == body && Truncate(body, config) == (body, false)
  {
    var dot := FirstDot(body);
    forall c | c in body
      ensures IsDigit(c) || c == '.'
    {
      var i :| 0 <= i < |body| && body[i] == c;
      if i < dot {
        assert body[..dot][i] == c;
      } else if i > dot {
        assert body[dot + 1..][i - dot - 1] == c;
      }
    }
    if dot < |body| {
      KeepAll(body[dot + 1..], NotDot);
      assert body == body[..dot + 1] + body[dot + 1..];
    }
  }

  /** A field value is pasted as it is, unless it lies outside the integer range. */
  lemma FieldValuePastesAsIs(v: string, config: Config)
    requires InLanguage(v, config)
    ensures PasteResult(v, config) ==
            if config.kind == NumInt && v != "" && v != "-" && IsOutside(v, config) then ("", true) else (v, false)
  {
    BodyIsClean(Body(v), config);
    assert v == (if StartsWithMinus(v) then "-" else "") + Body(v);
    KeepAll(v, IsNumericChar);
    DropMinus(v);
  }

  /** Pasting what a paste produced changes nothing and reports nothing dropped. */
  lemma PasteIdempotent(text: string, config: Config)
    ensures var v := PasteResult(text, config).0; PasteResult(v, config) == (v, false)
  {
    PasteLandsInLanguage(text, config);
    FieldValuePastesAsIs(PasteResult(text, config).0, config);
  }

  lemma DropMinus(v: string)
    requires forall c :: c in Body(v) ==> IsDigit(c) || c == '.'
    ensures Keep(v, NotMinus) == Body(v)
  {
    KeepAll(Body(v), NotMinus);
  }
}
