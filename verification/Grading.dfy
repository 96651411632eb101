/** Deciding whether one stored answer is correct. */
module Grading {
  import opened Basics
  import opened Digits
  import opened Decimals
  import opened Snapshots
  import NumericInput
  import NumIntRange

  datatype AnswerType =
    McqSc | McqMc | NumInt | NumDec | MatCol | McqPassage | NumDigit | MatList | McqAr | Fill

  /** The authored answer; absent fields are None. */
  datatype Key = Key(options: Option<seq<string>>, value: Option<string>, precision: Option<int>)

  datatype Problem = Problem(answerType: AnswerType, key: Key, hintLevels: set<int>, fingerprint: string)

  const DEFAULT_PRECISION := 2

  function OrElse<T>(o: Option<T>, default: T): T {
    if o.Some? then o.value else default
  }

  function DigitPrefix(s: string): (p: string)
    ensures AllDigits(p) && p <= s && (|p| < |s| ==> !IsDigit(s[|p|]))
    decreases |s|
  {
    if s == [] || !IsDigit(s[0]) then [] else [s[0]] + DigitPrefix(s[1..])
  }

  /** parseInt in base 10 for texts without leading blanks: a sign and the leading digits. */
  function ParseInt(s: string): Option<int> {
    var prefix := DigitPrefix(Unsigned(s));
    if prefix == [] then None
    else Some(if IsNegative(s) then 0 - ReadNat(prefix) else ReadNat(prefix))
  }

  function CorrectChoices(key: Key): set<Choice> {
    set o | o in OrElse(key.options, []) :: Letter(o)
  }

  function GotChoices(answer: Payload): set<Choice> {
    set c | c in OrElse(answer.selected, [])
  }

  predicate IsChoice(t: AnswerType) {
    t == McqSc || t == McqMc || t == McqPassage || t == McqAr
  }

  function GradeAnswer(problem: Problem, answer: Option<Payload>): bool {
    match answer
    case None => false
    case Some(student) =>
      match problem.answerType
      case McqSc | McqMc | McqPassage | McqAr =>
        var correct, got := CorrectChoices(problem.key), GotChoices(student);
        |correct| == |got| && forall c :: c in correct ==> c in got
      case NumInt | NumDigit =>
        var want, got := ParseInt(OrElse(problem.key.value, "")), ParseInt(OrElse(student.value, ""));
        want.Some? && got.Some? && want.value == got.value
      case NumDec =>
        ByteEqualNormalized(OrElse(problem.key.value, ""), OrElse(student.value, ""),
                            OrElse(problem.key.precision, DEFAULT_PRECISION)) == Ok(true)
      case MatCol | MatList | Fill => false
  }

  lemma SubsetOfSameSize<T>(a: set<T>, b: set<T>)
    requires a <= b && |a| == |b|
    ensures a == b
  {
    if !(b <= a) {
      var x :| x in b && x !in a;
      assert a <= b - {x};
      SubsetIsSmaller(a, b - {x});
    }
  }

  lemma {:induction false} SubsetIsSmaller<T>(a: set<T>, b: set<T>)
    requires a <= b
    ensures |a| <= |b|
    decreases a
  {
    if a != {} {
      var x :| x in a;
      SubsetIsSmaller(a - {x}, b - {x});
    }
  }

  /** Equal size and one inclusion amount to equality of the chosen and the correct options: an option is
      chosen if and only if it is one of the correct letters. */
  lemma ChoicesGradeBySetEquality(problem: Problem, student: Payload)
    requires IsChoice(problem.answerType)
    ensures GradeAnswer(problem, Some(student)) <==>
            forall c :: c in OrElse(student.selected, []) <==> c.Letter? && c.text in OrElse(problem.key.options, [])
  {
    var correct, got := CorrectChoices(problem.key), GotChoices(student);
    if GradeAnswer(problem, Some(student)) {
      SubsetOfSameSize(correct, got);
    }
    assert forall c :: (c in OrElse(student.selected, []) <==> c in got)
                       && (c.Letter? && c.text in OrElse(problem.key.options, []) <==> c in correct);
    assert GradeAnswer(problem, Some(student)) <==> correct == got;
  }

  /** Decimal answers are graded by equality of the rounded numbers, at two decimals when the key names no
      precision; texts that are no number, and a negative precision, are graded wrong. */
  lemma DecimalsGradeByRounding(problem: Problem, student: Payload)
    requires problem.answerType == NumDec
    ensures var want, got := ParseDecimal(OrElse(problem.key.value, "")), ParseDecimal(OrElse(student.value, ""));
            var p := if problem.key.precision.Some? then problem.key.precision.value else 2;
            GradeAnswer(problem, Some(student)) <==>
              p >= 0 && want.Some? && got.Some? && Rounded(want.value, p) == Rounded(got.value, p)
  {
    ByteEqualIsEqualRounding(OrElse(problem.key.value, ""), OrElse(student.value, ""),
                             OrElse(problem.key.precision, DEFAULT_PRECISION));
  }

  /** The text starts with the integer n: behind an optional sign, at least one digit, and the digits
      up to the first other character are n. */
  ghost predicate StartsWithInteger(s: string, n: int) {
    exists sign, digits, rest :: IntegerText(s, sign, digits, rest, n)
  }

  predicate IntegerText(s: string, sign: string, digits: string, rest: string, n: int) {
    && s == sign + digits + rest
    && (sign == "" || sign == "+" || sign == "-")
    && digits != "" && AllDigits(digits) && (rest == "" || !IsDigit(rest[0]))
    && n == if sign == "-" then 0 - ReadNat(digits) else ReadNat(digits)
  }

  lemma {:induction false} DigitPrefixOf(digits: string, rest: string)
    requires AllDigits(digits) && (rest == "" || !IsDigit(rest[0]))
    ensures DigitPrefix(digits + rest) == digits
    decreases |digits|
  {
    if digits == "" {
      assert digits + rest == rest;
    } else {
      assert (digits + rest)[1..] == digits[1..] + rest;
      DigitPrefixOf(digits[1..], rest);
    }
  }

  lemma IntegerTextIsParsed(s: string, sign: string, digits: string, rest: string, n: int)
    requires IntegerText(s, sign, digits, rest, n)
    ensures ParseInt(s) == Some(n)
  {
    assert s[|sign|..] == digits + rest;
    assert Unsigned(s) == digits + rest;
    DigitPrefixOf(digits, rest);
  }

  lemma SignIsSplitOff(s: string) returns (sign: string)
    ensures s == sign + Unsigned(s) && (sign == "" || sign == "+" || sign == "-") && (sign == "-" <==> IsNegative(s))
  {
    sign := if s != "" && (s[0] == '-' || s[0] == '+') then [s[0]] else "";
  }

  lemma ParsedIsIntegerText(s: string, n: int)
    requires ParseInt(s) == Some(n)
    ensures StartsWithInteger(s, n)
  {
    var body := Unsigned(s);
    var digits := DigitPrefix(body);
    var rest := body[|digits|..];
    var sign := SignIsSplitOff(s);
    JoinText(s, sign, body, digits, rest);
    assert IntegerText(s, sign, digits, rest, n);
  }

  lemma JoinText(s: string, sign: string, body: string, digits: string, rest: string)
    requires s == sign + body && digits <= body && rest == body[|digits|..]
    ensures s == sign + digits + rest
  {
    assert body == digits + rest;
  }

  /** parseInt reads exactly the integer a text starts with, and fails exactly where there is none. */
  lemma ParseIntReadsLeadingInteger(s: string, n: int)
    ensures ParseInt(s) == Some(n) <==> StartsWithInteger(s, n)
  {
    if ParseInt(s) == Some(n) {
      ParsedIsIntegerText(s, n);
    } else if StartsWithInteger(s, n) {
      var sign, digits, rest :| IntegerText(s, sign, digits, rest, n);
      IntegerTextIsParsed(s, sign, digits, rest, n);
    }
  }

  /** The two texts start with the same integer. */
  ghost predicate SameInteger(want: string, got: string) {
    exists n :: StartsWithInteger(want, n) && StartsWithInteger(got, n)
  }

  /** What is correct, for every problem and whatever is stored: a missing answer never is, nor is any
      answer to a matching or fill-in question. */
  lemma CorrectExactlyWhen(problem: Problem, answer: Option<Payload>)
    ensures GradeAnswer(problem, answer) <==>
            && answer.Some?
            && match problem.answerType
               case McqSc | McqMc | McqPassage | McqAr =>
                 forall c :: c in OrElse(answer.value.selected, [])
                             <==> c.Letter? && c.text in OrElse(problem.key.options, [])
               case NumInt | NumDigit =>
                 SameInteger(OrElse(problem.key.value, ""), OrElse(answer.value.value, ""))
               case NumDec =>
                 var want := ParseDecimal(OrElse(problem.key.value, ""));
                 var got := ParseDecimal(OrElse(answer.value.value, ""));
                 var p := if problem.key.precision.Some? then problem.key.precision.value else 2;
                 p >= 0 && want.Some? && got.Some? && Rounded(want.value, p) == Rounded(got.value, p)
               case MatCol | MatList | Fill => false
  {
    if answer.Some? {
      match problem.answerType
      case McqSc | McqMc | McqPassage | McqAr => ChoicesGradeBySetEquality(problem, answer.value);
      case NumInt | NumDigit => IntegersGradeByLeadingInteger(problem, answer.value);
      case NumDec => DecimalsGradeByRounding(problem, answer.value);
      case MatCol | MatList | Fill =>
    }
  }

  lemma IntegersGradeByLeadingInteger(problem: Problem, student: Payload)
    requires problem.answerType == NumInt || problem.answerType == NumDigit
    ensures GradeAnswer(problem, Some(student)) <==>
            SameInteger(OrElse(problem.key.value, ""), OrElse(student.value, ""))
  {
    var want, got := OrElse(problem.key.value, ""), OrElse(student.value, "");
    forall n
      ensures ParseInt(want) == Some(n) <==> StartsWithInteger(want, n)
      ensures ParseInt(got) == Some(n) <==> StartsWithInteger(got, n)
    {
      ParseIntReadsLeadingInteger(want, n);
      ParseIntReadsLeadingInteger(got, n);
    }
  }

  lemma {:induction false} DigitPrefixOfDigits(s: string)
    requires AllDigits(s)
    ensures DigitPrefix(s) == s
    decreases |s|
  {
    if s != [] {
      DigitPrefixOfDigits(s[1..]);
    }
  }

  lemma FieldValueParses(v: string, config: NumericInput.Config)
    requires config.kind == NumericInput.NumInt && NumericInput.InLanguage(v, config) && v != "" && v != "-"
    ensures AllDigits(NumericInput.Body(v)) && ParseInt(v) == Some(NumIntRange.IntValue(v))
  {
    NumIntRange.IntegerDenotes(v, config);
    var body := NumericInput.Body(v);
    assert Unsigned(v) == body by {
      if !NumericInput.StartsWithMinus(v) {
        assert IsDigit(v[0]);
      }
    }
    DigitPrefixOfDigits(body);
  }

  /** Integer answers typed on the keypad are graded by value: leading zeros do not matter, and an
      empty field or a lone minus is wrong, as is a payload without a value. */
  lemma IntegersGradeByValue(problem: Problem, student: Payload, w: string, config: NumericInput.Config)
    requires problem.answerType == NumInt || problem.answerType == NumDigit
    requires problem.key.value == Some(w) && config.kind == NumericInput.NumInt
    requires NumericInput.InLanguage(OrElse(student.value, ""), config)
    requires NumericInput.InLanguage(w, config) && w != "" && w != "-"
    ensures var v := OrElse(student.value, "");
            && AllDigits(NumericInput.Body(v)) && AllDigits(NumericInput.Body(w))
            && (GradeAnswer(problem, Some(student)) <==>
                v != "" && v != "-" && NumIntRange.IntValue(v) == NumIntRange.IntValue(w))
  {
    var v := OrElse(student.value, "");
    FieldValueParses(w, config);
    NumIntRange.IntegerDenotes(v, config);
    if v != "" && v != "-" {
      FieldValueParses(v, config);
    } else {
      assert ParseInt("") == None && ParseInt("-") == None;
    }
  }

  // ---- what the client actually sends ----

  /** The answer payloads of the runtime's types. */
  datatype ClientAnswer =
    | SingleChoice(option: Option<int>)
    | MultiChoice(options: seq<int>)
    | Number(text: Option<string>)
    | Columns

  /** The part of a client payload grading can see: `selected_option` is not `selected_options`. */
  function AsPayload(a: ClientAnswer): Payload {
    match a
    case SingleChoice(_) => Payload(None, None)
    case MultiChoice(options) => Payload(Some(seq(|options|, i requires 0 <= i < |options| => Index(options[i]))), None)
    case Number(text) => Payload(None, text)
    case Columns => Payload(None, None)
  }

  /** The client names options by number, single choices under another field, while the bank names
      them by letter: no client payload matches a choice key that has a correct option, and against
      a key without one only an empty selection counts as correct. */
  lemma ClientChoicesNeverMatchLetters(problem: Problem, a: ClientAnswer)
    requires IsChoice(problem.answerType)
    ensures GradeAnswer(problem, Some(AsPayload(a))) <==>
            OrElse(problem.key.options, []) == [] && (a.MultiChoice? ==> a.options == [])
  {
    var correct, got := CorrectChoices(problem.key), GotChoices(AsPayload(a));
    ChoicesGradeBySetEquality(problem, AsPayload(a));
    if OrElse(problem.key.options, []) != [] {
      assert Letter(OrElse(problem.key.options, [])[0]) in correct;
      assert forall c :: c in got ==> c.Index?;
    } else if a.MultiChoice? && a.options != [] {
      assert OrElse(AsPayload(a).selected, [])[0] in got;
    }
  }

  /** What the numeric field sends: its value, or nothing when it is empty. */
  function FieldAnswer(v: string): ClientAnswer {
    Number(if v == "" then None else Some(v))
  }

  lemma SameRoundedValue(d: Dec, n: int, m: int, p: nat)
    requires NumericInput.SameValue(Dec(m, p), d)
    ensures NumericInput.SameValue(Dec(n, p), d) <==> n == m
  {
    ScaleStrict(n, m, Pow10(d.scale));
  }

  /** From the keypad to the grade. Whatever is typed and pasted into a decimal field that has the precision
      of its key, the answer sent is correct if and only if the field shows a number equal to the key rounded
      to that precision: nothing the field lets in is lost or changed by rounding. */
  lemma TypedDecimalIsCorrectIff(problem: Problem, inputs: seq<NumericInput.Input>, config: NumericInput.Config)
    requires problem.answerType == NumDec && ParseDecimal(OrElse(problem.key.value, "")).Some?
    requires config.precision == if problem.key.precision.Some? then problem.key.precision.value else 2
    ensures var v := NumericInput.Type("", inputs, config);
            var want, shown := ParseDecimal(OrElse(problem.key.value, "")).value, ParseDecimal(v);
            GradeAnswer(problem, Some(AsPayload(FieldAnswer(v)))) <==>
              shown.Some? && NumericInput.SameValue(Dec(Rounded(want, config.precision), config.precision), shown.value)
  {
    var v, p := NumericInput.Type("", inputs, config), config.precision;
    var student := AsPayload(FieldAnswer(v));
    assert OrElse(student.value, "") == v;
    DecimalsGradeByRounding(problem, student);
    NumericInput.ShortIsInLanguage("", config);
    NumericInput.TypingStaysInLanguage("", inputs, config);
    NumericInput.LanguageDenotes(v, config);
    if ParseDecimal(v).Some? {
      var d := ParseDecimal(v).value;
      NumericInput.ShortFractionsAreExact(d, p);
      SameRoundedValue(d, Rounded(ParseDecimal(OrElse(problem.key.value, "")).value, p), Rounded(d, p), p);
    }
  }
}
