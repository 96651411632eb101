/** Signed figure tokens: payload printer and parser, signing, verification under the current or
    the previous secret, and the grace window. MAC and key derivation are arbitrary functions. */
module FigureToken {
  import opened Basics
  import opened Digits
  import opened Base64Url

  /** `pepperSet` tells whether the process-level pepper is configured; `derive` mixes it with a
      session secret and `hmac(key, message)` is the MAC. */
  datatype Crypto = Crypto(pepperSet: bool, derive: Bytes -> Bytes, hmac: (Bytes, Bytes) -> Bytes)

  /** A digest is never empty. */
  ghost predicate HasDigests(crypto: Crypto) {
    forall key, message :: crypto.hmac(key, message) != []
  }

  datatype SignError = PepperMissing | SlotOutOfRange | FigureOutOfRange

  datatype Reason = Malformed | MacMismatch | SlotMismatch | FigureMismatch | SlotOutOfBounds

  datatype Verified = Accepted(slot: nat, figure: nat) | Rejected(reason: Reason)

  const MAX_SLOT := 1000
  const MAX_FIGURE := 100
  const SECRET_GRACE_MS := 300000

  function Ascii(s: string): Bytes
    requires forall i :: 0 <= i < |s| ==> s[i] as int < 128
  {
    seq(|s|, i requires 0 <= i < |s| => s[i] as int)
  }

  /** A byte as the character the payload pattern sees; no byte above 127 is a digit or a bar. */
  function Chars(b: Bytes): string {
    seq(|b|, i requires 0 <= i < |b| => b[i] as char)
  }

  function PayloadText(slot: nat, figure: nat): string {
    PrintNat(slot) + "|" + PrintNat(figure)
  }

  function MakePayload(slot: int, figure: int): Result<Bytes, SignError> {
    if slot < 0 || slot > MAX_SLOT then Err(SlotOutOfRange)
    else if figure < 0 || figure > MAX_FIGURE then Err(FigureOutOfRange)
    else Ok(Ascii(PayloadText(slot, figure)))
  }

  /** Digits, a bar, digits, and nothing else. */
  function ParsePayload(payload: Bytes): Option<(nat, nat)> {
    var text := Chars(payload);
    var bar := IndexOf(text, '|');
    if bar == |text| then None
    else
      var slot, figure := text[..bar], text[bar + 1..];
      if slot == [] || figure == [] || !AllDigits(slot) || !AllDigits(figure) then None
      else Some((ReadNat(slot), ReadNat(figure)))
  }

  function Mac(crypto: Crypto, secret: Bytes, payload: Bytes): Bytes {
    crypto.hmac(crypto.derive(secret), payload)
  }

  function SignFigureToken(crypto: Crypto, secret: Bytes, slot: int, figure: int): Result<string, SignError> {
    if !crypto.pepperSet then Err(PepperMissing)
    else match MakePayload(slot, figure)
      case Err(e) => Err(e)
      case Ok(payload) => Ok(B64u(payload) + "." + B64u(Mac(crypto, secret, payload)))
  }

  predicate VerifyOne(crypto: Crypto, secret: Bytes, payload: Bytes, mac: Bytes) {
    crypto.pepperSet && Mac(crypto, secret, payload) == mac
  }

  predicate VerifyAny(crypto: Crypto, current: Bytes, previous: Option<Bytes>, payload: Bytes, mac: Bytes) {
    || VerifyOne(crypto, current, payload, mac)
    || (previous.Some? && previous.value != [] && VerifyOne(crypto, previous.value, payload, mac))
  }

  function VerifyFigureToken(
      crypto: Crypto, token: string, current: Bytes, previous: Option<Bytes>, slot: nat, figure: nat): Verified
  {
    var dot := FirstDot(token);
    if dot == 0 || dot >= |token| - 1 then Rejected(Malformed)
    else
      var payload, mac := B64uDecode(token[..dot]), B64uDecode(token[dot + 1..]);
      match ParsePayload(payload)
      case None => Rejected(Malformed)
      case Some(pair) =>
        if !VerifyAny(crypto, current, previous, payload, mac) then Rejected(MacMismatch)
        else if pair.0 != slot then Rejected(SlotMismatch)
        else if pair.1 != figure then Rejected(FigureMismatch)
        else Accepted(pair.0, pair.1)
  }

  /** The previous secret, while its grace window lasts. */
  function UsablePreviousSecret(previous: Option<Bytes>, rotatedAt: Option<int>, now: int): Option<Bytes> {
    if previous.None? || rotatedAt.None? || now - rotatedAt.value > SECRET_GRACE_MS then None else previous
  }

  /** The endpoint's own peek at the payload: the same decoding without the padding. */
  function Peek(head: string): Bytes {
    FromSextets(Sextets(Replace(Replace(head, '-', '+'), '_', '/')))
  }

  /** The token check of the figure endpoint: it reads the pair out of the token, verifies the
      token against that same pair, and bounds the slot by the session's question count. */
  function CheckFigureToken(
      crypto: Crypto, token: string, current: Bytes, previous: Option<Bytes>, rotatedAt: Option<int>, now: int,
      slots: nat): Verified
  {
    var dot := FirstDot(token);
    if dot == 0 || dot == |token| then Rejected(Malformed)
    else match ParsePayload(Peek(token[..dot]))
      case None => Rejected(Malformed)
      case Some(pair) =>
        var verdict := VerifyFigureToken(crypto, token, current, UsablePreviousSecret(previous, rotatedAt, now),
              pair.0, pair.1);
        if verdict.Accepted? && pair.0 >= slots then Rejected(SlotOutOfBounds) else verdict
  }

  // ---- payloads ----

  lemma ParsePrintedPayload(slot: nat, figure: nat)
    ensures forall i :: 0 <= i < |PayloadText(slot, figure)| ==> PayloadText(slot, figure)[i] as int < 128
    ensures ParsePayload(Ascii(PayloadText(slot, figure))) == Some((slot, figure))
  {
    var text, a, b := PayloadText(slot, figure), PrintNat(slot), PrintNat(figure);
    assert Chars(Ascii(text)) == text;
    IndexOfIs(text, '|', |a|);
    assert text[..|a|] == a && text[|a| + 1..] == b;
    ReadPrintNat(slot);
    ReadPrintNat(figure);
  }

  // ---- signed tokens ----

  function TokenPayload(slot: nat, figure: nat): Bytes {
    ParsePrintedPayload(slot, figure);
    Ascii(PayloadText(slot, figure))
  }

  predicate Signable(crypto: Crypto, slot: int, figure: int) {
    crypto.pepperSet && 0 <= slot <= MAX_SLOT && 0 <= figure <= MAX_FIGURE
  }

  lemma SignedParts(crypto: Crypto, secret: Bytes, slot: nat, figure: nat)
    requires HasDigests(crypto) && Signable(crypto, slot, figure)
    ensures SignFigureToken(crypto, secret, slot, figure).Ok?
    ensures var token, payload := SignFigureToken(crypto, secret, slot, figure).value, TokenPayload(slot, figure);
            var dot, mac := FirstDot(token), Mac(crypto, secret, payload);
            && 0 < dot < |token| - 1
            && token[..dot] == B64u(payload) && token[dot + 1..] == B64u(mac)
            && (forall i :: dot < i < |token| ==> token[i] != '.')
  {
    var payload := TokenPayload(slot, figure);
    var mac := Mac(crypto, secret, payload);
    var head, tail := B64u(payload), B64u(mac);
    EncodedCharacters(payload);
    EncodedCharacters(mac);
    var token := head + "." + tail;
    FirstDotIs(token, |head|);
    assert token[..|head|] == head && token[|head| + 1..] == tail;
  }

  /** Signing succeeds exactly for a configured pepper and in-range indices, and the token has one
      dot: before it the slot, a bar and the figure, behind it the MAC of that text under the derived key. */
  lemma SignedTokenShape(crypto: Crypto, secret: Bytes, slot: int, figure: int)
    requires HasDigests(crypto)
    ensures SignFigureToken(crypto, secret, slot, figure).Ok? <==>
            crypto.pepperSet && 0 <= slot <= 1000 && 0 <= figure <= 100
    ensures SignFigureToken(crypto, secret, slot, figure).Ok? ==>
              var token := SignFigureToken(crypto, secret, slot, figure).value;
              && 0 < FirstDot(token) < |token| - 1
              && (forall i :: 0 <= i < |token| && token[i] == '.' ==> i == FirstDot(token))
              && slot >= 0 && figure >= 0
              && var payload := B64uDecode(token[..FirstDot(token)]);
                 && Chars(payload) == PrintNat(slot) + "|" + PrintNat(figure)
                 && B64uDecode(token[FirstDot(token) + 1..]) == crypto.hmac(crypto.derive(secret), payload)
  {
    if Signable(crypto, slot, figure) {
      SignedParts(crypto, secret, slot, figure);
      DecodeUndoesEncode(TokenPayload(slot, figure));
      DecodeUndoesEncode(Mac(crypto, secret, TokenPayload(slot, figure)));
    }
  }

  /** Equal tokens name the same pair, whatever secrets they were signed under. */
  lemma TokensNameTheirPair(crypto: Crypto, s1: Bytes, s2: Bytes, slot: nat, figure: nat, slot': nat, figure': nat)
    requires HasDigests(crypto) && Signable(crypto, slot, figure) && Signable(crypto, slot', figure')
    ensures SignFigureToken(crypto, s1, slot, figure) == SignFigureToken(crypto, s2, slot', figure') ==>
              slot == slot' && figure == figure'
  {
    SignedParts(crypto, s1, slot, figure);
    SignedParts(crypto, s2, slot', figure');
    DecodeUndoesEncode(TokenPayload(slot, figure));
    DecodeUndoesEncode(TokenPayload(slot', figure'));
    ParsePrintedPayload(slot, figure);
    ParsePrintedPayload(slot', figure');
  }

  /** The verdict on any signed token, under any secrets and expectation. */
  lemma VerdictOnSigned(
      crypto: Crypto, secret: Bytes, slot: nat, figure: nat, current: Bytes, previous: Option<Bytes>, slot': nat,
      figure': nat)
    requires HasDigests(crypto) && Signable(crypto, slot, figure)
    ensures SignFigureToken(crypto, secret, slot, figure).Ok?
    ensures var token, payload := SignFigureToken(crypto, secret, slot, figure).value, TokenPayload(slot, figure);
            VerifyFigureToken(crypto, token, current, previous, slot', figure') ==
              if !VerifyAny(crypto, current, previous, payload, Mac(crypto, secret, payload)) then Rejected(MacMismatch)
              else if slot != slot' then Rejected(SlotMismatch)
              else if figure != figure' then Rejected(FigureMismatch)
              else Accepted(slot, figure)
  {
    SignedParts(crypto, secret, slot, figure);
    DecodeUndoesEncode(TokenPayload(slot, figure));
    DecodeUndoesEncode(Mac(crypto, secret, TokenPayload(slot, figure)));
    ParsePrintedPayload(slot, figure);
  }

  /** A token signed under the current secret, or under a non-empty previous one, is accepted. */
  lemma SignThenVerify(crypto: Crypto, secret: Bytes, slot: nat, figure: nat, current: Bytes, previous: Option<Bytes>)
    requires HasDigests(crypto) && Signable(crypto, slot, figure)
    requires secret == current || (previous == Some(secret) && secret != [])
    ensures SignFigureToken(crypto, secret, slot, figure).Ok?
    ensures VerifyFigureToken(crypto, SignFigureToken(crypto, secret, slot, figure).value, current, previous, slot,
              figure)
            == Accepted(slot, figure)
  {
    VerdictOnSigned(crypto, secret, slot, figure, current, previous, slot, figure);
  }

  /** Acceptance proves a MAC: the token carries one of the two secrets' MACs over a payload that
      reads as exactly the expected pair. */
  lemma AcceptanceIsAuthentic(
      crypto: Crypto, token: string, current: Bytes, previous: Option<Bytes>, slot: nat, figure: nat)
    ensures VerifyFigureToken(crypto, token, current, previous, slot, figure).Accepted? <==>
            var dot := FirstDot(token);
            && 0 < dot < |token| - 1
            && ParsePayload(B64uDecode(token[..dot])) == Some((slot, figure))
            && VerifyAny(crypto, current, previous, B64uDecode(token[..dot]), B64uDecode(token[dot + 1..]))
    ensures VerifyFigureToken(crypto, token, current, previous, slot, figure).Accepted? ==>
            VerifyFigureToken(crypto, token, current, previous, slot, figure) == Accepted(slot, figure)
  {
  }

  /** Both halves are what encoding prints, and the payload is the one the signer prints for the pair. */
  ghost predicate IsCanonical(token: string, slot: nat, figure: nat) {
    var dot := FirstDot(token);
    && 0 < dot < |token| - 1
    && token[..dot] == B64u(TokenPayload(slot, figure))
    && token[dot + 1..] == B64u(B64uDecode(token[dot + 1..]))
  }

  /** The token is one the signer issues for the pair, under the current or a usable previous secret. */
  ghost predicate IsIssued(
      crypto: Crypto, token: string, current: Bytes, previous: Option<Bytes>, slot: nat, figure: nat)
  {
    || SignFigureToken(crypto, current, slot, figure) == Ok(token)
    || (previous.Some? && previous.value != [] && SignFigureToken(crypto, previous.value, slot, figure) == Ok(token))
  }

  lemma MatchingMacIsIssued(crypto: Crypto, token: string, secret: Bytes, slot: nat, figure: nat)
    requires HasDigests(crypto) && Signable(crypto, slot, figure) && IsCanonical(token, slot, figure)
    ensures VerifyOne(crypto, secret, TokenPayload(slot, figure), B64uDecode(token[FirstDot(token) + 1..]))
            <==> SignFigureToken(crypto, secret, slot, figure) == Ok(token)
  {
    var dot, mac := FirstDot(token), Mac(crypto, secret, TokenPayload(slot, figure));
    SignedParts(crypto, secret, slot, figure);
    DecodeUndoesEncode(mac);
    if VerifyOne(crypto, secret, TokenPayload(slot, figure), B64uDecode(token[dot + 1..])) {
      assert token == token[..dot] + "." + token[dot + 1..];
    }
  }

  /** Of the canonical tokens exactly the issued ones are accepted: verification is the inverse of
      signing, for every secret pair and every expected pair. */
  lemma AcceptedIffIssued(
      crypto: Crypto, token: string, current: Bytes, previous: Option<Bytes>, slot: nat, figure: nat)
    requires HasDigests(crypto) && Signable(crypto, slot, figure)
    ensures IsCanonical(token, slot, figure) ==>
              (VerifyFigureToken(crypto, token, current, previous, slot, figure) == Accepted(slot, figure)
               <==> IsIssued(crypto, token, current, previous, slot, figure))
  {
    if IsCanonical(token, slot, figure) {
      AcceptanceIsAuthentic(crypto, token, current, previous, slot, figure);
      DecodeUndoesEncode(TokenPayload(slot, figure));
      ParsePrintedPayload(slot, figure);
      MatchingMacIsIssued(crypto, token, current, slot, figure);
      if previous.Some? {
        MatchingMacIsIssued(crypto, token, previous.value, slot, figure);
      }
    }
  }

  /** Every issued token is canonical, so all of them are covered. */
  lemma IssuedIsCanonical(crypto: Crypto, token: string, secret: Bytes, slot: nat, figure: nat)
    requires HasDigests(crypto) && Signable(crypto, slot, figure)
    ensures SignFigureToken(crypto, secret, slot, figure) == Ok(token) ==> IsCanonical(token, slot, figure)
  {
    SignedParts(crypto, secret, slot, figure);
    DecodeUndoesEncode(Mac(crypto, secret, TokenPayload(slot, figure)));
  }

  lemma {:induction false} PaddingIsSkipped(s: string, n: nat)
    ensures Sextets(s + Equals(n)) == Sextets(s)
    decreases |s| + n
  {
    var t := s + Equals(n);
    if s != [] {
      assert t[1..] == s[1..] + Equals(n);
      PaddingIsSkipped(s[1..], n);
    } else if n > 0 {
      assert t[1..] == s + Equals(n - 1);
      PaddingIsSkipped(s, n - 1);
    }
  }

  lemma PeekAgrees(head: string)
    ensures Peek(head) == B64uDecode(head)
  {
    var std := Replace(Replace(head, '-', '+'), '_', '/');
    PaddingIsSkipped(std, if |head| % 4 == 0 then 0 else 4 - |head| % 4);
    assert std + "" == std + Equals(0);
  }

  /** Because the endpoint verifies a token against the pair the token itself names, it never
      reports a mismatch; it accepts exactly the authentic in-bounds tokens. */
  lemma FigureCheckNeverMismatches(
      crypto: Crypto, token: string, current: Bytes, previous: Option<Bytes>, rotatedAt: Option<int>, now: int,
      slots: nat)
    ensures var r := CheckFigureToken(crypto, token, current, previous, rotatedAt, now, slots);
            && r != Rejected(SlotMismatch) && r != Rejected(FigureMismatch)
            && (r.Accepted? ==>
                  && r.slot < slots
                  && VerifyFigureToken(crypto, token, current, UsablePreviousSecret(previous, rotatedAt, now),
                       r.slot, r.figure) == r)
  {
    if FirstDot(token) < |token| {
      PeekAgrees(token[..FirstDot(token)]);
    }
  }

  /** The endpoint's verdict on a signed token. */
  lemma CheckOnSigned(
      crypto: Crypto, secret: Bytes, slot: nat, figure: nat,
      current: Bytes, previous: Option<Bytes>, rotatedAt: Option<int>, now: int, slots: nat)
    requires HasDigests(crypto) && Signable(crypto, slot, figure)
    ensures SignFigureToken(crypto, secret, slot, figure).Ok?
    ensures var token, payload := SignFigureToken(crypto, secret, slot, figure).value, TokenPayload(slot, figure);
            CheckFigureToken(crypto, token, current, previous, rotatedAt, now, slots) ==
              if !VerifyAny(crypto, current, UsablePreviousSecret(previous, rotatedAt, now), payload,
                    Mac(crypto, secret, payload))
              then Rejected(MacMismatch)
              else if slot >= slots then Rejected(SlotOutOfBounds)
              else Accepted(slot, figure)
  {
    SignedParts(crypto, secret, slot, figure);
    VerdictOnSigned(crypto, secret, slot, figure, current, UsablePreviousSecret(previous, rotatedAt, now), slot,
        figure);
    PeekAgrees(B64u(TokenPayload(slot, figure)));
    DecodeUndoesEncode(TokenPayload(slot, figure));
    ParsePrintedPayload(slot, figure);
  }

  // ---- every verdict ----

  /** The payload is the text of the pair: digits, a bar, digits. Leading zeros are let through. */
  predicate PairText(payload: Bytes, a: string, b: string, slot: nat, figure: nat) {
    && a != "" && b != "" && AllDigits(a) && AllDigits(b)
    && Chars(payload) == a + "|" + b && slot == ReadNat(a) && figure == ReadNat(b)
  }

  ghost predicate NamesPair(payload: Bytes, slot: nat, figure: nat) {
    exists a, b :: PairText(payload, a, b, slot, figure)
  }

  /** The parser reads exactly the pair a payload names, and fails where it names none. */
  lemma PayloadIsParsedIff(payload: Bytes, slot: nat, figure: nat)
    ensures ParsePayload(payload) == Some((slot, figure)) <==> NamesPair(payload, slot, figure)
  {
    var text := Chars(payload);
    forall a, b | PairText(payload, a, b, slot, figure)
      ensures ParsePayload(payload) == Some((slot, figure))
    {
      IndexOfIs(text, '|', |a|);
      assert text[..|a|] == a && text[|a| + 1..] == b;
    }
    if ParsePayload(payload) == Some((slot, figure)) {
      var bar := IndexOf(text, '|');
      assert text == text[..bar] + "|" + text[bar + 1..];
      assert PairText(payload, text[..bar], text[bar + 1..], slot, figure);
    }
  }

  /** The MAC is that of the payload under the current secret, or under a non-empty previous one. */
  predicate IsAuthentic(crypto: Crypto, current: Bytes, previous: Option<Bytes>, payload: Bytes, mac: Bytes) {
    crypto.pepperSet
    && (|| crypto.hmac(crypto.derive(current), payload) == mac
        || (previous.Some? && previous.value != [] && crypto.hmac(crypto.derive(previous.value), payload) == mac))
  }

  /** The token has text on both sides of its first dot. */
  predicate HasTwoParts(token: string) {
    0 < FirstDot(token) < |token| - 1
  }

  function PayloadOf(token: string): Bytes
    requires HasTwoParts(token)
  {
    B64uDecode(token[..FirstDot(token)])
  }

  function MacOf(token: string): Bytes
    requires HasTwoParts(token)
  {
    B64uDecode(token[FirstDot(token) + 1..])
  }

  /** The verdict on every token whatsoever, with its reason: malformed exactly if it does not have two parts or
      its payload names no pair; otherwise the MAC is looked at first, then the slot, then the figure. */
  lemma EveryVerdict(
      crypto: Crypto, token: string, current: Bytes, previous: Option<Bytes>, slot: nat, figure: nat)
    ensures var r := VerifyFigureToken(crypto, token, current, previous, slot, figure);
            && (r == Rejected(Malformed) <==>
                  !HasTwoParts(token) || forall s: nat, f: nat :: !NamesPair(PayloadOf(token), s, f))
            && forall s: nat, f: nat :: HasTwoParts(token) && NamesPair(PayloadOf(token), s, f) ==>
                 r == if !IsAuthentic(crypto, current, previous, PayloadOf(token), MacOf(token))
                      then Rejected(MacMismatch)
                      else if s != slot then Rejected(SlotMismatch)
                      else if f != figure then Rejected(FigureMismatch)
                      else Accepted(s, f)
  {
    if HasTwoParts(token) {
      var payload := PayloadOf(token);
      forall s: nat, f: nat
        ensures ParsePayload(payload) == Some((s, f)) <==> NamesPair(payload, s, f)
      {
        PayloadIsParsedIff(payload, s, f);
      }
      var parsed := ParsePayload(payload);
      assert parsed.Some? ==> NamesPair(payload, parsed.value.0, parsed.value.1);
    }
  }

  /** The endpoint's verdict on every token: malformed as before, then the MAC under the current secret or,
      for five minutes after the rotation, the previous one; then the bounds of the session. */
  lemma EveryCheckVerdict(
      crypto: Crypto, token: string, current: Bytes, previous: Option<Bytes>, rotatedAt: Option<int>, now: int,
      slots: nat)
    ensures var r := CheckFigureToken(crypto, token, current, previous, rotatedAt, now, slots);
            var usable := if rotatedAt.Some? && now - rotatedAt.value <= 300000 then previous else None;
            && (r == Rejected(Malformed) <==>
                  !HasTwoParts(token) || forall s: nat, f: nat :: !NamesPair(PayloadOf(token), s, f))
            && forall s: nat, f: nat :: HasTwoParts(token) && NamesPair(PayloadOf(token), s, f) ==>
                 r == if !IsAuthentic(crypto, current, usable, PayloadOf(token), MacOf(token))
                      then Rejected(MacMismatch)
                      else if s >= slots then Rejected(SlotOutOfBounds)
                      else Accepted(s, f)
  {
    var dot := FirstDot(token);
    if 0 < dot < |token| {
      PeekAgrees(token[..dot]);
      var parsed := ParsePayload(Peek(token[..dot]));
      if parsed.Some? {
        EveryVerdict(crypto, token, current, UsablePreviousSecret(previous, rotatedAt, now), parsed.value.0,
            parsed.value.1);
        PayloadIsParsedIff(B64uDecode(token[..dot]), parsed.value.0, parsed.value.1);
      } else if HasTwoParts(token) {
        forall s: nat, f: nat
          ensures !NamesPair(PayloadOf(token), s, f)
        {
          PayloadIsParsedIff(PayloadOf(token), s, f);
        }
      }
    }
  }

  /** Why signing fails: a missing pepper first, then the slot, then the figure. Without a pepper nothing is
      accepted either. */
  lemma SigningErrors(crypto: Crypto, secret: Bytes, slot: int, figure: int)
    ensures var r := SignFigureToken(crypto, secret, slot, figure);
            && (!crypto.pepperSet ==> r == Err(PepperMissing))
            && (crypto.pepperSet && !(0 <= slot <= 1000) ==> r == Err(SlotOutOfRange))
            && (crypto.pepperSet && 0 <= slot <= 1000 && !(0 <= figure <= 100) ==> r == Err(FigureOutOfRange))
    ensures !crypto.pepperSet ==> forall token, current, previous, s, f ::
              !VerifyFigureToken(crypto, token, current, previous, s, f).Accepted?
  {
  }
}
