/** What a paste leaves of any text: its digits, in order, cut at the precision of the field. */
module Pasting {
  import opened Basics
  import opened Digits
  import opened Decimals
  import opened NumericInput
  import opened NumIntRange

  /** The paste before its dots are looked at. */
  function Stripped(text: string): string {
    Keep(Keep(text, IsNumericChar), NotMinus)
  }

  lemma RawOpensWithMinus(text: string)
    ensures StartsWithMinus(Keep(text, IsNumericChar)) <==> OpensWithMinus(text)
  {
    var first := IndexOf(text, '-');
    var pre := text[..first];
    if first < |text| {
      var tail := text[first..];
      assert text == pre + tail;
      KeepConcat(pre, tail, IsNumericChar);
      if Keep(pre, IsNumericChar) != "" {
        assert Keep(pre, IsNumericChar)[0] in pre;
      } else {
        assert forall c :: c in pre && IsNumericChar(c) ==> c in Keep(pre, IsNumericChar);
      }
    } else if Keep(text, IsNumericChar) != "" {
      assert Keep(text, IsNumericChar)[0] in text;
    }
  }

  lemma {:induction false} StrippedWithoutDots(text: string)
    ensures Keep(Stripped(text), NotDot) == Keep(text, IsDigit)
    ensures '.' !in text ==> Stripped(text) == Keep(text, IsDigit)
    decreases |text|
  {
    if text != "" {
      var c, rest := text[0], text[1..];
      StrippedWithoutDots(rest);
      assert text == [c] + rest;
      KeepConcat([c], rest, IsNumericChar);
      KeepConcat(Keep([c], IsNumericChar), Keep(rest, IsNumericChar), NotMinus);
      KeepConcat(Stripped([c]), Stripped(rest), NotDot);
      assert [c][1..] == "";
    }
  }

  /** The digits before the first dot, and those behind it. */
  function WholePart(text: string): (digits: string)
    ensures AllDigits(digits)
  {
    var digits := Keep(text[..FirstDot(text)], IsDigit);
    DigitsOnly(digits);
    digits
  }

  function FracPart(text: string): (digits: string)
    ensures AllDigits(digits)
  {
    var digits := if FirstDot(text) < |text| then Keep(text[FirstDot(text) + 1..], IsDigit) else "";
    DigitsOnly(digits);
    digits
  }

  lemma FirstDotIsKept(whole: string, rest: string)
    requires AllDigits(whole)
    ensures KeepFirstDot(whole + "." + rest) == whole + "." + Keep(rest, NotDot) && KeepFirstDot(whole) == whole
  {
    var body := whole + "." + rest;
    FirstDotIs(body, |whole|);
    FirstDotIs(whole, |whole|);
    assert body[|whole| + 1..] == rest && body[..|whole| + 1] == whole + ".";
  }

  lemma CleanedParts(text: string)
    ensures KeepFirstDot(Stripped(text)) ==
            if FirstDot(text) < |text| then WholePart(text) + "." + FracPart(text) else WholePart(text)
  {
    var dot := FirstDot(text);
    var pre := text[..dot];
    StrippedWithoutDots(pre);
    if dot < |text| {
      var post := text[dot + 1..];
      SplitAtDot(text, dot);
      StrippedAtDot(pre, post);
      StrippedWithoutDots(post);
      FirstDotIsKept(WholePart(text), Stripped(post));
    } else {
      assert pre == text;
      FirstDotIsKept(WholePart(text), "");
    }
  }

  lemma StrippedAtDot(pre: string, post: string)
    ensures Stripped(pre + "." + post) == Stripped(pre) + "." + Stripped(post)
  {
    KeepConcat(pre + ".", post, IsNumericChar);
    KeepConcat(pre, ".", IsNumericChar);
    KeepConcat(Keep(pre, IsNumericChar) + ".", Keep(post, IsNumericChar), NotMinus);
    KeepConcat(Keep(pre, IsNumericChar), ".", NotMinus);
    assert "."[1..] == "";
  }

  lemma TruncatedParts(whole: string, frac: string, config: Config)
    requires AllDigits(whole)
    ensures Truncate(whole, config) == (whole, false)
    ensures Truncate(whole + "." + frac, config) ==
            if !AllowsDot(config) then (whole, true)
            else if |frac| > config.precision then (whole + "." + frac[..config.precision], true)
            else (whole + "." + frac, false)
  {
    var body := whole + "." + frac;
    FirstDotIs(whole, |whole|);
    FirstDotIs(body, |whole|);
    assert body[..|whole|] == whole && body[|whole| + 1..] == frac;
    if |frac| > config.precision {
      CutFraction(body, |whole|, config.precision);
    }
  }

  /** The digits before the first dot and, where the field has decimals, the first of those behind it. */
  function CutBody(whole: string, frac: string, dotted: bool, config: Config): string {
    whole + if dotted && AllowsDot(config) then "." + frac[..Min(|frac|, config.precision)] else ""
  }

  function CutText(text: string, negative: bool, config: Config): string {
    (if negative then "-" else "") + CutBody(WholePart(text), FracPart(text), FirstDot(text) < |text|, config)
  }

  /** Something that is no digit, dot or minus was dropped, or digits behind the dot, or the dot. */
  ghost predicate IsCut(text: string, config: Config) {
    || (exists i :: 0 <= i < |text| && !IsNumericChar(text[i]))
    || (FirstDot(text) < |text| && (AllowsDot(config) ==> |FracPart(text)| > config.precision))
  }

  function SignedValue(negative: bool, digits: string): int
    requires AllDigits(digits)
  {
    if negative then 0 - ReadNat(digits) else ReadNat(digits)
  }

  /** An integer outside the range of its field. */
  predicate IsRefused(whole: string, negative: bool, config: Config)
    requires AllDigits(whole)
  {
    config.kind == NumInt && whole != "" && !(config.min <= SignedValue(negative, whole) <= config.max)
  }

  lemma RawIsWhole(text: string)
    ensures |Keep(text, IsNumericChar)| == |text| <==> !exists i :: 0 <= i < |text| && !IsNumericChar(text[i])
  {
    var raw := Keep(text, IsNumericChar);
    if |raw| == |text| {
      assert forall i :: 0 <= i < |text| ==> text[i] in raw;
    } else if forall c :: c in text ==> IsNumericChar(c) {
      KeepAll(text, IsNumericChar);
    } else {
      var c :| c in text && !IsNumericChar(c);
      var i :| 0 <= i < |text| && text[i] == c;
    }
  }

  lemma RefusedIsOutside(whole: string, negative: bool, config: Config)
    requires config.kind == NumInt && AllDigits(whole) && whole != ""
    ensures var v := (if negative then "-" else "") + whole;
            v != "" && v != "-" && (IsOutside(v, config) <==> IsRefused(whole, negative, config))
  {
    var v := (if negative then "-" else "") + whole;
    SignedInteger(negative, whole);
    WholeIsBody(whole, config);
    IntegerDenotes(v, config);
    RangeTests(v, config);
  }

  lemma SignedInteger(negative: bool, whole: string)
    requires AllDigits(whole) && whole != ""
    ensures var v := (if negative then "-" else "") + whole;
            Body(v) == whole && StartsWithMinus(v) == negative && v != "" && v != "-"
  {
    assert IsDigit(whole[0]);
    assert "" + whole == whole;
  }

  /** Pasting any text, in terms of its digits alone: the field gets the sign that comes first, the digits
      before the first dot and the first `precision` of those behind it, in order; an integer outside
      the range empties it. A loss is reported exactly of a character that is no digit, dot or minus, of a
      dot or decimals the field does not take, and of such an integer. */
  lemma PasteKeepsDigits(text: string, config: Config)
    ensures var negative := OpensWithMinus(text);
            PasteResult(text, config) ==
            if IsRefused(WholePart(text), negative, config) then ("", true)
            else (CutText(text, negative, config), IsCut(text, config))
  {
    PasteIsCutText(text, config);
    if config.kind == NumInt {
      CutTextIsRefused(text, OpensWithMinus(text), config);
    }
  }

  /** The paste up to its range test. */
  lemma PasteIsCutText(text: string, config: Config)
    ensures var v := CutText(text, OpensWithMinus(text), config);
            PasteResult(text, config) ==
            if config.kind == NumInt && v != "" && v != "-" && IsOutside(v, config) then ("", true)
            else (v, IsCut(text, config))
  {
    RawOpensWithMinus(text);
    RawIsWhole(text);
    TruncatedText(text, OpensWithMinus(text), config);
  }

  lemma CutTextIsRefused(text: string, negative: bool, config: Config)
    requires config.kind == NumInt
    ensures var v := CutText(text, negative, config);
            (v != "" && v != "-" && IsOutside(v, config)) <==> IsRefused(WholePart(text), negative, config)
  {
    var whole, v := WholePart(text), CutText(text, negative, config);
    assert v == (if negative then "-" else "") + whole by {
      assert whole + "" == whole;
    }
    if whole != "" {
      RefusedIsOutside(whole, negative, config);
    }
  }

  lemma TruncatedBody(whole: string, frac: string, dotted: bool, config: Config)
    requires AllDigits(whole)
    ensures Truncate(if dotted then whole + "." + frac else whole, config) ==
            (CutBody(whole, frac, dotted, config), dotted && (AllowsDot(config) ==> |frac| > config.precision))
  {
    TruncatedParts(whole, frac, config);
    if dotted && AllowsDot(config) {
      var kept := frac[..Min(|frac|, config.precision)];
      assert whole + "." + kept == whole + ("." + kept);
      assert |frac| <= config.precision ==> kept == frac;
    } else {
      assert whole + "" == whole;
    }
  }

  lemma TruncatedText(text: string, negative: bool, config: Config)
    ensures var (body, cut) := Truncate(KeepFirstDot(Stripped(text)), config);
            && (if negative then "-" else "") + body == CutText(text, negative, config)
            && (cut <==> FirstDot(text) < |text| && (AllowsDot(config) ==> |FracPart(text)| > config.precision))
  {
    CleanedParts(text);
    TruncatedBody(WholePart(text), FracPart(text), FirstDot(text) < |text|, config);
  }

  // ---- decimals ----

  /** `r` is `d` with at most p decimals: cut toward zero, by less than one unit of the last of them. */
  ghost predicate CutsTowardZero(d: Dec, r: Dec, p: nat) {
    && r.scale == Min(d.scale, p)
    && var unit := Pow10(d.scale - r.scale);
       var rest := Abs(d.coef) - Abs(r.coef) * unit;
       && 0 <= rest < unit
       && (d.coef >= 0 ==> r.coef >= 0) && (d.coef <= 0 ==> r.coef <= 0)
  }

  ghost predicate ValueIsCut(text: string, cut: string, p: nat) {
    && ParseDecimal(text).Some? && ParseDecimal(cut).Some?
    && CutsTowardZero(ParseDecimal(text).value, ParseDecimal(cut).value, p)
  }

  /** The text of a decimal. */
  function DecimalText(negative: bool, whole: string, frac: string): string {
    (if negative then "-" else "") + whole + "." + frac
  }

  lemma DotOfDecimal(negative: bool, whole: string, frac: string)
    requires AllDigits(whole)
    ensures var text, sign := DecimalText(negative, whole, frac), if negative then "-" else "";
            && FirstDot(text) == |sign| + |whole| < |text|
            && text[..|sign| + |whole|] == sign + whole && text[|sign| + |whole| + 1..] == frac
  {
    var sign := if negative then "-" else "";
    FirstDotIs(DecimalText(negative, whole, frac), |sign| + |whole|);
  }

  lemma SignIsNoDigit(negative: bool, whole: string)
    requires AllDigits(whole)
    ensures Keep((if negative then "-" else "") + whole, IsDigit) == whole
  {
    KeepAll(whole, IsDigit);
    if negative {
      assert ("-" + whole)[1..] == whole;
    } else {
      assert "" + whole == whole;
    }
  }

  lemma PartsOfDecimal(negative: bool, whole: string, frac: string)
    requires AllDigits(whole) && AllDigits(frac)
    ensures var text := DecimalText(negative, whole, frac);
            FirstDot(text) < |text| && WholePart(text) == whole && FracPart(text) == frac
  {
    DotOfDecimal(negative, whole, frac);
    SignIsNoDigit(negative, whole);
    KeepAll(frac, IsDigit);
  }

  lemma SignOfDecimal(negative: bool, whole: string, frac: string)
    requires AllDigits(whole) && AllDigits(frac)
    ensures var text := DecimalText(negative, whole, frac);
            (OpensWithMinus(text) <==> negative) && forall i :: 0 <= i < |text| ==> IsNumericChar(text[i])
  {
    var text := DecimalText(negative, whole, frac);
    if negative {
      assert text[0] == '-' && text[..IndexOf(text, '-')] == "";
    } else {
      assert text == whole + "." + frac;
    }
  }

  lemma MagnitudeOfParts(whole: string, frac: string)
    requires AllDigits(whole) && AllDigits(frac) && whole + frac != ""
    ensures AllDigits(whole + frac) && ParseMagnitude(whole + "." + frac) == Some((ReadNat(whole + frac), |frac|))
  {
    var body := whole + "." + frac;
    FirstDotIs(body, |whole|);
    assert body[..|whole|] == whole && body[|whole| + 1..] == frac;
  }

  lemma UnsignedDecimal(negative: bool, whole: string, frac: string)
    requires AllDigits(whole)
    ensures var text := DecimalText(negative, whole, frac);
            Unsigned(text) == whole + "." + frac && IsNegative(text) == negative
  {
    var body := whole + "." + frac;
    if negative {
      assert DecimalText(negative, whole, frac) == "-" + body;
    } else {
      assert DecimalText(negative, whole, frac) == body;
      assert body[0] == if whole == "" then '.' else whole[0];
    }
  }

  lemma DecimalDenotes(negative: bool, whole: string, frac: string)
    requires AllDigits(whole) && AllDigits(frac) && whole + frac != ""
    ensures AllDigits(whole + frac)
    ensures ParseDecimal(DecimalText(negative, whole, frac)) == Some(Dec(SignedValue(negative, whole + frac), |frac|))
  {
    UnsignedDecimal(negative, whole, frac);
    ParsedAs(DecimalText(negative, whole, frac), negative, whole, frac);
  }

  lemma ParsedAs(text: string, negative: bool, whole: string, frac: string)
    requires AllDigits(whole) && AllDigits(frac) && whole + frac != ""
    requires Unsigned(text) == whole + "." + frac && IsNegative(text) == negative
    ensures AllDigits(whole + frac)
    ensures ParseDecimal(text) == Some(Dec(SignedValue(negative, whole + frac), |frac|))
  {
    MagnitudeOfParts(whole, frac);
  }

  lemma CutValue(negative: bool, digits: string, rest: string, scale: nat, p: nat)
    requires AllDigits(digits) && AllDigits(rest) && AllDigits(digits + rest)
    requires scale >= |rest| && scale - |rest| == Min(scale, p)
    ensures CutsTowardZero(Dec(SignedValue(negative, digits + rest), scale),
                           Dec(SignedValue(negative, digits), scale - |rest|), p)
  {
    CutDigits(digits, rest);
  }

  /** A decimal pasted into a decimal field arrives with its sign and its first `precision` decimals: the
      value is cut toward zero, by less than a unit of the last decimal, and a loss of digits is reported. */
  lemma PasteCutsTowardZero(negative: bool, whole: string, frac: string, config: Config)
    requires AllDigits(whole) && AllDigits(frac) && whole + frac != "" && AllowsDot(config)
    ensures var text, kept := DecimalText(negative, whole, frac), frac[..Min(|frac|, config.precision)];
            var value := DecimalText(negative, whole, kept);
            && PasteResult(text, config) == (value, |frac| > config.precision)
            && ValueIsCut(text, value, config.precision)
  {
    DecimalPastes(negative, whole, frac, config);
    NotEmptyAfterCut(whole, frac, config);
    DecimalIsCut(negative, whole, frac, Min(|frac|, config.precision), config.precision);
  }

  lemma DecimalIsCut(negative: bool, whole: string, frac: string, size: nat, p: nat)
    requires AllDigits(whole) && AllDigits(frac) && size == Min(|frac|, p) && whole + frac[..size] != ""
    ensures ValueIsCut(DecimalText(negative, whole, frac), DecimalText(negative, whole, frac[..size]), p)
  {
    var kept, rest := frac[..size], frac[size..];
    assert whole + frac == (whole + kept) + rest;
    DecimalDenotes(negative, whole, frac);
    DecimalDenotes(negative, whole, kept);
    CutValue(negative, whole + kept, rest, |frac|, p);
  }

  lemma NotEmptyAfterCut(whole: string, frac: string, config: Config)
    requires whole + frac != "" && AllowsDot(config)
    ensures whole + frac[..Min(|frac|, config.precision)] != ""
  {
    if whole == "" {
      assert frac != "";
    }
  }

  lemma JoinParts(sign: string, whole: string, frac: string)
    ensures sign + (whole + ("." + frac)) == sign + whole + "." + frac
  {
  }

  lemma CutTextOfDecimal(negative: bool, whole: string, frac: string, config: Config)
    requires AllDigits(whole) && AllDigits(frac) && AllowsDot(config)
    ensures CutText(DecimalText(negative, whole, frac), negative, config)
            == DecimalText(negative, whole, frac[..Min(|frac|, config.precision)])
  {
    PartsOfDecimal(negative, whole, frac);
    JoinParts(if negative then "-" else "", whole, frac[..Min(|frac|, config.precision)]);
  }

  lemma DecimalPastes(negative: bool, whole: string, frac: string, config: Config)
    requires AllDigits(whole) && AllDigits(frac) && AllowsDot(config)
    ensures PasteResult(DecimalText(negative, whole, frac), config)
            == (DecimalText(negative, whole, frac[..Min(|frac|, config.precision)]), |frac| > config.precision)
  {
    var text := DecimalText(negative, whole, frac);
    PasteKeepsDigits(text, config);
    SignOfDecimal(negative, whole, frac);
    PartsOfDecimal(negative, whole, frac);
    CutTextOfDecimal(negative, whole, frac, config);
  }

  lemma CutDigits(kept: string, rest: string)
    requires AllDigits(kept) && AllDigits(rest)
    ensures AllDigits(kept + rest)
    ensures 0 <= ReadNat(kept + rest) - ReadNat(kept) * Pow10(|rest|) < Pow10(|rest|)
  {
    ReadConcat(kept, rest);
    ReadBound(rest);
  }
}
