/** base64url without padding (section 5 of RFC 4648), as two replacements around base64. */
module Base64Url {
  type byte = x: int | 0 <= x < 256 witness 0
  type Bytes = seq<byte>
  type sextet = x: int | 0 <= x < 64 witness 0

  function ToSextets(b: Bytes): seq<sextet>
    decreases |b|
  {
    if b == [] then []
    else if |b| == 1 then [b[0] / 4, b[0] % 4 * 16]
    else if |b| == 2 then [b[0] / 4, b[0] % 4 * 16 + b[1] / 16, b[1] % 16 * 4]
    else [b[0] / 4, b[0] % 4 * 16 + b[1] / 16, b[1] % 16 * 4 + b[2] / 64, b[2] % 64] + ToSextets(b[3..])
  }

  /** Left-over bits that do not fill a byte are dropped. */
  function FromSextets(v: seq<sextet>): Bytes
    decreases |v|
  {
    if |v| < 2 then []
    else
      var w: int, x: int := v[0], v[1];
      if |v| == 2 then [w * 4 + x / 16]
      else
        var y: int := v[2];
        if |v| == 3 then [w * 4 + x / 16, x % 16 * 16 + y / 4]
        else [w * 4 + x / 16, x % 16 * 16 + y / 4, y % 4 * 64 + v[3]] + FromSextets(v[4..])
  }

  lemma {:induction false} SextetsRoundTrip(b: Bytes)
    ensures FromSextets(ToSextets(b)) == b
    decreases |b|
  {
    if |b| >= 3 {
      SextetsRoundTrip(b[3..]);
      assert ToSextets(b)[4..] == ToSextets(b[3..]);
      assert b == [b[0], b[1], b[2]] + b[3..];
    }
  }

  function StdChar(v: sextet): char {
    if v < 26 then ('A' as int + v) as char
    else if v < 52 then ('a' as int + (v - 26)) as char
    else if v < 62 then ('0' as int + (v - 52)) as char
    else if v == 62 then '+' else '/'
  }

  predicate IsStdChar(c: char) {
    'A' <= c <= 'Z' || 'a' <= c <= 'z' || '0' <= c <= '9' || c == '+' || c == '/'
  }

  function StdValue(c: char): sextet
    requires IsStdChar(c)
  {
    if 'A' <= c <= 'Z' then c as int - 'A' as int
    else if 'a' <= c <= 'z' then c as int - 'a' as int + 26
    else if '0' <= c <= '9' then c as int - '0' as int + 52
    else if c == '+' then 62 else 63
  }

  function Text(v: seq<sextet>): (s: string)
    ensures |s| == |v|
  {
    seq(|v|, i requires 0 <= i < |v| => StdChar(v[i]))
  }

  function Equals(n: nat): (s: string)
    ensures |s| == n && forall i :: 0 <= i < n ==> s[i] == '='
  {
    seq(n, _ => '=')
  }

  function Base64(b: Bytes): string {
    Text(ToSextets(b)) + Equals((3 - |b| % 3) % 3)
  }

  function Replace(s: string, from: char, to: char): (r: string)
    ensures |r| == |s| && forall i :: 0 <= i < |s| ==> r[i] == if s[i] == from then to else s[i]
  {
    seq(|s|, i requires 0 <= i < |s| => if s[i] == from then to else s[i])
  }

  function StripEquals(s: string): string
    decreases |s|
  {
    if s != [] && s[|s| - 1] == '=' then StripEquals(s[..|s| - 1]) else s
  }

  function B64u(b: Bytes): string {
    StripEquals(Replace(Replace(Base64(b), '+', '-'), '/', '_'))
  }

  /** The sextets of a text; characters outside the alphabet are skipped. */
  function Sextets(s: string): seq<sextet>
    decreases |s|
  {
    if s == [] then []
    else (if IsStdChar(s[0]) then [StdValue(s[0])] else []) + Sextets(s[1..])
  }

  function B64uDecode(s: string): Bytes {
    var pad := if |s| % 4 == 0 then "" else Equals(4 - |s| % 4);
    FromSextets(Sextets(Replace(Replace(s, '-', '+'), '_', '/') + pad))
  }

  lemma {:induction false} StripsOnlyEquals(s: string, n: nat)
    requires s != [] ==> s[|s| - 1] != '='
    ensures StripEquals(s + Equals(n)) == s
    decreases n
  {
    if n == 0 {
      assert s + Equals(0) == s;
    } else {
      assert (s + Equals(n))[..|s| + n - 1] == s + Equals(n - 1);
      StripsOnlyEquals(s, n - 1);
    }
  }

  lemma {:induction false} SextetsOfText(v: seq<sextet>, n: nat)
    ensures Sextets(Text(v) + Equals(n)) == v
    decreases |v| + n
  {
    var s := Text(v) + Equals(n);
    if v != [] {
      assert s[1..] == Text(v[1..]) + Equals(n);
      SextetsOfText(v[1..], n);
    } else if n > 0 {
      assert s[1..] == Text(v) + Equals(n - 1);
      SextetsOfText(v, n - 1);
    }
  }

  function UrlText(v: seq<sextet>): string {
    Replace(Replace(Text(v), '+', '-'), '/', '_')
  }

  /** Encoding yields the url-safe characters of the sextets and nothing else. */
  lemma B64uIsUrlText(b: Bytes)
    ensures B64u(b) == UrlText(ToSextets(b))
  {
    var v, n := ToSextets(b), (3 - |b| % 3) % 3;
    assert Replace(Replace(Base64(b), '+', '-'), '/', '_') == UrlText(v) + Equals(n);
    StripsOnlyEquals(UrlText(v), n);
  }

  /** Decoding undoes encoding for every byte string. */
  lemma DecodeUndoesEncode(b: Bytes)
    ensures B64uDecode(B64u(b)) == b
  {
    var v, s := ToSextets(b), B64u(b);
    B64uIsUrlText(b);
    assert Replace(Replace(s, '-', '+'), '_', '/') == Text(v);
    SextetsOfText(v, if |s| % 4 == 0 then 0 else 4 - |s| % 4);
    assert Text(v) + "" == Text(v) + Equals(0);
    SextetsRoundTrip(b);
  }

  predicate IsUrlChar(c: char) {
    'A' <= c <= 'Z' || 'a' <= c <= 'z' || '0' <= c <= '9' || c == '-' || c == '_'
  }

  lemma EncodedCharacters(b: Bytes)
    ensures forall i :: 0 <= i < |B64u(b)| ==> IsUrlChar(B64u(b)[i])
    ensures b != [] ==> B64u(b) != []
  {
    B64uIsUrlText(b);
  }

  // ---- the encoding itself ----

  /** The value of a character in the url-safe alphabet (table 2 of RFC 4648). */
  function UrlValue(c: char): (v: sextet)
    requires IsUrlChar(c)
  {
    if c == '-' then 62
    else if c == '_' then 63
    else if c <= '9' then c as int - '0' as int + 52
    else if c <= 'Z' then c as int - 'A' as int
    else c as int - 'a' as int + 26
  }

  /** `acc` continued by bytes, most significant first. */
  function Bytewise(acc: int, b: Bytes): int
    decreases |b|
  {
    if b == [] then acc else Bytewise(acc * 256 + b[0], b[1..])
  }

  /** `acc` continued by sextets, most significant first. */
  function Sextetwise(acc: int, v: seq<sextet>): int
    decreases |v|
  {
    if v == [] then acc else Sextetwise(acc * 64 + v[0], v[1..])
  }

  function UrlValues(s: string): (v: seq<sextet>)
    requires forall i :: 0 <= i < |s| ==> IsUrlChar(s[i])
    ensures |v| == |s| && forall i :: 0 <= i < |s| ==> v[i] == UrlValue(s[i])
  {
    seq(|s|, i requires 0 <= i < |s| => UrlValue(s[i]))
  }

  lemma Bytewise3(acc: int, b: Bytes)
    requires |b| >= 3
    ensures Bytewise(acc, b) == Bytewise(((acc * 256 + b[0]) * 256 + b[1]) * 256 + b[2], b[3..])
  {
    var x := acc * 256 + b[0];
    var y := x * 256 + b[1];
    assert b[1..][1..] == b[2..] && b[2..][1..] == b[3..];
    assert Bytewise(y, b[2..]) == Bytewise(y * 256 + b[2], b[3..]);
    assert Bytewise(x, b[1..]) == Bytewise(y, b[2..]);
  }

  lemma Sextetwise2(acc: int, v: seq<sextet>)
    requires |v| >= 2
    ensures Sextetwise(acc, v) == Sextetwise((acc * 64 + v[0]) * 64 + v[1], v[2..])
  {
    var x := acc * 64 + v[0];
    assert v[1..][1..] == v[2..];
    assert Sextetwise(x, v[1..]) == Sextetwise(x * 64 + v[1], v[2..]);
  }

  lemma Sextetwise4(acc: int, v: seq<sextet>)
    requires |v| >= 4
    ensures Sextetwise(acc, v) == Sextetwise((((acc * 64 + v[0]) * 64 + v[1]) * 64 + v[2]) * 64 + v[3], v[4..])
  {
    Sextetwise2(acc, v);
    Sextetwise2((acc * 64 + v[0]) * 64 + v[1], v[2..]);
    assert v[2..][2..] == v[4..];
  }

  /** The bits that fill up the last sextet. */
  function Filler(n: nat): int {
    if n % 3 == 0 then 1 else if n % 3 == 1 then 16 else 4
  }

  lemma ThreeBytesFourSextets(acc: int, x: byte, y: byte, z: byte)
    ensures (((acc * 64 + x / 4) * 64 + (x % 4 * 16 + y / 16)) * 64 + (y % 16 * 4 + z / 64)) * 64 + z % 64
            == ((acc * 256 + x) * 256 + y) * 256 + z
  {
    assert x == x / 4 * 4 + x % 4 && y == y / 16 * 16 + y % 16 && z == z / 64 * 64 + z % 64;
  }

  lemma ShortTail(acc: int, b: Bytes)
    requires 1 <= |b| <= 2
    ensures Sextetwise(acc, ToSextets(b)) == Bytewise(acc, b) * Filler(|b|)
  {
    var v := ToSextets(b);
    var x: int := b[0];
    Sextetwise2(acc, v);
    assert x == x / 4 * 4 + x % 4;
    if |b| == 1 {
      assert v[2..] == [] && b[1..] == [];
    } else {
      var y: int := b[1];
      assert y == y / 16 * 16 + y % 16;
      assert v[2..] == [v[2]] && v[2..][1..] == [] && b[1..] == [b[1]] && b[1..][1..] == [];
      var front := (acc * 64 + v[0]) * 64 + v[1];
      assert Sextetwise(front, v[2..]) == front * 64 + v[2];
      assert Bytewise(acc * 256 + x, b[1..]) == (acc * 256 + x) * 256 + y;
    }
  }

  lemma {:induction false} SextetsSpellBytes(acc: int, b: Bytes)
    ensures Sextetwise(acc, ToSextets(b)) == Bytewise(acc, b) * Filler(|b|)
    decreases |b|
  {
    if |b| >= 3 {
      assert ToSextets(b)[4..] == ToSextets(b[3..]);
      Bytewise3(acc, b);
      Sextetwise4(acc, ToSextets(b));
      ThreeBytesFourSextets(acc, b[0], b[1], b[2]);
      SextetsSpellBytes(((acc * 256 + b[0]) * 256 + b[1]) * 256 + b[2], b[3..]);
    } else if b != [] {
      ShortTail(acc, b);
    }
  }

  lemma {:induction false} SextetCount(b: Bytes)
    ensures |ToSextets(b)| == (4 * |b| + 2) / 3
    decreases |b|
  {
    if |b| >= 3 {
      SextetCount(b[3..]);
    }
  }

  lemma UrlTextSpells(v: seq<sextet>)
    ensures forall i :: 0 <= i < |UrlText(v)| ==> IsUrlChar(UrlText(v)[i])
    ensures UrlValues(UrlText(v)) == v
  {
    forall i | 0 <= i < |v|
      ensures IsUrlChar(UrlText(v)[i]) && UrlValue(UrlText(v)[i]) == v[i]
    {
      var c := StdChar(v[i]);
      assert UrlText(v)[i] == if c == '+' then '-' else if c == '/' then '_' else c;
    }
  }

  /** What encoding prints: the bytes read as one number, written in base 64 with the url-safe alphabet, most
      significant digit first, filled up with zero bits to whole digits and with no padding. */
  lemma EncodingIsBase64(b: Bytes)
    ensures forall i :: 0 <= i < |B64u(b)| ==> IsUrlChar(B64u(b)[i])
    ensures |B64u(b)| == (4 * |b| + 2) / 3
    ensures Sextetwise(0, UrlValues(B64u(b))) ==
            Bytewise(0, b) * if |b| % 3 == 0 then 1 else if |b| % 3 == 1 then 16 else 4
  {
    B64uIsUrlText(b);
    UrlTextSpells(ToSextets(b));
    SextetsSpellBytes(0, b);
    SextetCount(b);
  }
}
