/**
 * Session identifiers: the standard Base64 encoding (section 4 of RFC 4648,
 * with `=` padding) of the UTF-8 bytes of a textual UUID (section 3 of
 * RFC 4122). The random UUID itself is an input of the model.
 */
module Base64 {
  import opened Wrappers

  type Byte = b: int | 0 <= b < 256
  type Sextet = v: int | 0 <= v < 64

  /** The 64 characters of the alphabet of section 4 of RFC 4648: `A`-`Z`, `a`-`z`, `0`-`9`, `+`, `/`. */
  predicate IsAlphabetChar(c: char)
  {
    'A' <= c <= 'Z' || 'a' <= c <= 'z' || '0' <= c <= '9' || c == '+' || c == '/'
  }

  function CharOf(v: Sextet): (c: char)
    ensures IsAlphabetChar(c)
  {
    if v < 26 then ('A' as int + v) as char
    else if v < 52 then ('a' as int + (v - 26)) as char
    else if v < 62 then ('0' as int + (v - 52)) as char
    else if v == 62 then '+'
    else '/'
  }

  function ValueOf(c: char): (v: Sextet)
    requires IsAlphabetChar(c)
    ensures CharOf(v) == c
  {
    if 'A' <= c <= 'Z' then c as int - 'A' as int
    else if 'a' <= c <= 'z' then c as int - 'a' as int + 26
    else if '0' <= c <= '9' then c as int - '0' as int + 52
    else if c == '+' then 62
    else 63
  }

  lemma ValueOfCharOf(v: Sextet)
    ensures ValueOf(CharOf(v)) == v
  {
  }

  /** Three bytes become four sextets, most significant bits first. */
  function EncodeGroup(b0: Byte, b1: Byte, b2: Byte): (r: string)
    ensures |r| == 4
    ensures IsAlphabetChar(r[0]) && IsAlphabetChar(r[1]) && IsAlphabetChar(r[2]) && IsAlphabetChar(r[3])
  {
    [CharOf(b0 / 4), CharOf((b0 % 4) * 16 + b1 / 16), CharOf((b1 % 16) * 4 + b2 / 64), CharOf(b2 % 64)]
  }

  /** Removing one group of three bytes removes one quadruple and keeps the remainder. */
  lemma GroupCountStep(n: nat)
    requires n >= 3
    ensures (n + 2) / 3 == (n - 1) / 3 + 1 && (n - 3) % 3 == n % 3
  {
  }

  /**
   * `Base64.getEncoder().encode(bs)`: every complete group of three bytes
   * gives four characters; a final group of one or two bytes is zero-filled
   * and padded with `==` or `=`.
   */
  function Encode(bs: seq<Byte>): (r: string)
    ensures |r| == 4 * ((|bs| + 2) / 3)
    ensures forall i | 0 <= i < |r| :: IsAlphabetChar(r[i]) || r[i] == '='
    ensures |bs| % 3 == 0 ==> forall i | 0 <= i < |r| :: IsAlphabetChar(r[i])
    ensures |bs| % 3 != 0 ==> r[|r| - 1] == '='
    decreases |bs|
  {
    if |bs| == 0 then []
    else if |bs| == 1 then
      [CharOf(bs[0] / 4), CharOf((bs[0] % 4) * 16), '=', '=']
    else if |bs| == 2 then
      [CharOf(bs[0] / 4), CharOf((bs[0] % 4) * 16 + bs[1] / 16), CharOf((bs[1] % 16) * 4), '=']
    else
      GroupCountStep(|bs|);
      EncodeGroup(bs[0], bs[1], bs[2]) + Encode(bs[3..])
  }

  /** Decodes one quadruple, which may end in one or two `=`. */
  function DecodeQuad(q: string): Option<seq<Byte>>
    requires |q| == 4
  {
    if !(IsAlphabetChar(q[0]) && IsAlphabetChar(q[1])) then None
    else
      var v0, v1 := ValueOf(q[0]), ValueOf(q[1]);
      var b0 := v0 * 4 + v1 / 16;
      if q[2] == '=' && q[3] == '=' then Some([b0])
      else if !IsAlphabetChar(q[2]) then None
      else
        var v2 := ValueOf(q[2]);
        var b1 := (v1 % 16) * 16 + v2 / 4;
        if q[3] == '=' then Some([b0, b1])
        else if !IsAlphabetChar(q[3]) then None
        else Some([b0, b1, (v2 % 4) * 64 + ValueOf(q[3])])
  }

  /** The inverse of Encode: padding may appear only in the last quadruple. */
  function Decode(s: string): Option<seq<Byte>>
    decreases |s|
  {
    if |s| == 0 then Some([])
    else if |s| < 4 then None
    else if |s| == 4 then DecodeQuad(s)
    else if !(IsAlphabetChar(s[0]) && IsAlphabetChar(s[1]) && IsAlphabetChar(s[2]) && IsAlphabetChar(s[3])) then None
    else match Decode(s[4..])
      case None => None
      case Some(rest) => match DecodeQuad(s[..4])
        case None => None
        case Some(group) => Some(group + rest)
  }

  lemma Shift16(q: int, r: int)
    requires 0 <= r < 16
    ensures (q * 16 + r) / 16 == q && (q * 16 + r) % 16 == r
  {
  }

  lemma Shift4(q: int, r: int)
    requires 0 <= r < 4
    ensures (q * 4 + r) / 4 == q && (q * 4 + r) % 4 == r
  {
  }

  lemma GroupRoundTrip(b0: Byte, b1: Byte, b2: Byte)
    ensures DecodeQuad(EncodeGroup(b0, b1, b2)) == Some([b0, b1, b2])
  {
    var v0, v1, v2, v3 := b0 / 4, (b0 % 4) * 16 + b1 / 16, (b1 % 16) * 4 + b2 / 64, b2 % 64;
    Shift16(b0 % 4, b1 / 16);
    Shift4(b1 % 16, b2 / 64);
    ValueOfCharOf(v0);
    ValueOfCharOf(v1);
    ValueOfCharOf(v2);
    ValueOfCharOf(v3);
    var q := EncodeGroup(b0, b1, b2);
    assert q == [CharOf(v0), CharOf(v1), CharOf(v2), CharOf(v3)];
  }

  lemma OneByteRoundTrip(b0: Byte)
    ensures Decode(Encode([b0])) == Some([b0])
  {
    Shift16(b0 % 4, 0);
    ValueOfCharOf(b0 / 4);
    ValueOfCharOf((b0 % 4) * 16);
    var q := Encode([b0]);
    assert q == [CharOf(b0 / 4), CharOf((b0 % 4) * 16), '=', '='];
    assert Decode(q) == DecodeQuad(q);
  }

  lemma TwoByteRoundTrip(b0: Byte, b1: Byte)
    ensures Decode(Encode([b0, b1])) == Some([b0, b1])
  {
    Shift16(b0 % 4, b1 / 16);
    Shift4(b1 % 16, 0);
    ValueOfCharOf(b0 / 4);
    ValueOfCharOf((b0 % 4) * 16 + b1 / 16);
    ValueOfCharOf((b1 % 16) * 4);
    var q := Encode([b0, b1]);
    assert q == [CharOf(b0 / 4), CharOf((b0 % 4) * 16 + b1 / 16), CharOf((b1 % 16) * 4), '='];
    assert Decode(q) == DecodeQuad(q);
  }

  /** An unpadded quadruple in front of a non-empty decodable tail decodes piecewise. */
  lemma DecodeCons(quad: string, tail: string, g: seq<Byte>, t: seq<Byte>)
    requires |quad| == 4 && |tail| > 0
    requires IsAlphabetChar(quad[0]) && IsAlphabetChar(quad[1]) && IsAlphabetChar(quad[2]) && IsAlphabetChar(quad[3])
    requires DecodeQuad(quad) == Some(g) && Decode(tail) == Some(t)
    ensures Decode(quad + tail) == Some(g + t)
  {
    var s := quad + tail;
    assert s[..4] == quad;
    assert s[4..] == tail;
  }

  /** One unfolding of `Encode` past a full group. */
  lemma EncodeUnfold(bs: seq<Byte>)
    requires |bs| >= 3
    ensures Encode(bs) == EncodeGroup(bs[0], bs[1], bs[2]) + Encode(bs[3..])
  {
  }

  /** Three bytes exactly: one unpadded quadruple. */
  lemma ThreeByteRoundTrip(b0: Byte, b1: Byte, b2: Byte)
    ensures Decode(Encode([b0, b1, b2])) == Some([b0, b1, b2])
  {
    var bs: seq<Byte> := [b0, b1, b2];
    var q := EncodeGroup(b0, b1, b2);
    EncodeUnfold(bs);
    assert bs[3..] == [];
    assert Encode(bs) == q;
    GroupRoundTrip(b0, b1, b2);
    DecodeSingle(q);
  }

  /** A single quadruple decodes as that quadruple. */
  lemma DecodeSingle(q: string)
    requires |q| == 4
    ensures Decode(q) == DecodeQuad(q)
  {
  }

  /** A byte string is its first three bytes followed by the rest. */
  lemma SplitGroup(bs: seq<Byte>)
    requires |bs| >= 3
    ensures [bs[0], bs[1], bs[2]] + bs[3..] == bs
  {
  }

  /** A full group in front of a non-empty tail that round-trips. */
  lemma GroupStep(bs: seq<Byte>)
    requires |bs| > 3
    requires Decode(Encode(bs[3..])) == Some(bs[3..])
    ensures Decode(Encode(bs)) == Some(bs)
  {
    var rest := bs[3..];
    EncodeUnfold(bs);
    GroupRoundTrip(bs[0], bs[1], bs[2]);
    DecodeCons(EncodeGroup(bs[0], bs[1], bs[2]), Encode(rest), [bs[0], bs[1], bs[2]], rest);
    SplitGroup(bs);
  }

  /** Encoding loses nothing: decoding it gives back the bytes. */
  lemma {:induction false} DecodeEncode(bs: seq<Byte>)
    ensures Decode(Encode(bs)) == Some(bs)
    decreases |bs|
  {
    if |bs| == 0 {
    } else if |bs| == 1 {
      assert bs == [bs[0]];
      OneByteRoundTrip(bs[0]);
    } else if |bs| == 2 {
      assert bs == [bs[0], bs[1]];
      TwoByteRoundTrip(bs[0], bs[1]);
    } else if |bs| == 3 {
      assert bs == [bs[0], bs[1], bs[2]];
      ThreeByteRoundTrip(bs[0], bs[1], bs[2]);
    } else {
      DecodeEncode(bs[3..]);
      GroupStep(bs);
    }
  }

  // Known answers from section 10 of RFC 4648. They fix the order of the
  // alphabet and the padding, which the round trip alone does not.

  lemma EncodeOneByteVector()
    ensures Encode([102]) == "Zg=="
  {
    assert CharOf(25) == 'Z' && CharOf(32) == 'g';
  }

  lemma EncodeTwoByteVector()
    ensures Encode([102, 111]) == "Zm8="
  {
    assert CharOf(25) == 'Z' && CharOf(38) == 'm' && CharOf(60) == '8';
  }

  /** The two groups of `foobar`. */
  lemma EncodeFooGroup()
    ensures EncodeGroup(102, 111, 111) == "Zm9v"
  {
    var v0, v1, v2, v3 := ValueOf('Z'), ValueOf('m'), ValueOf('9'), ValueOf('v');
    assert v0 == 25 && v1 == 38 && v2 == 61 && v3 == 47;
    assert 102 / 4 == 25 && (102 % 4) * 16 + 111 / 16 == 38 && (111 % 16) * 4 + 111 / 64 == 61 && 111 % 64 == 47;
    assert EncodeGroup(102, 111, 111) == [CharOf(v0), CharOf(v1), CharOf(v2), CharOf(v3)];
  }

  lemma EncodeBarGroup()
    ensures EncodeGroup(98, 97, 114) == "YmFy"
  {
    var v0, v1, v2, v3 := ValueOf('Y'), ValueOf('m'), ValueOf('F'), ValueOf('y');
    assert v0 == 24 && v1 == 38 && v2 == 5 && v3 == 50;
    assert 98 / 4 == 24 && (98 % 4) * 16 + 97 / 16 == 38 && (97 % 16) * 4 + 114 / 64 == 5 && 114 % 64 == 50;
    assert EncodeGroup(98, 97, 114) == [CharOf(v0), CharOf(v1), CharOf(v2), CharOf(v3)];
  }

  lemma EncodeSixByteVector()
    ensures Encode([102, 111, 111]) == "Zm9v"
    ensures Encode([102, 111, 111, 98, 97, 114]) == "Zm9vYmFy"
  {
    EncodeFooGroup();
    EncodeBarGroup();
    var foo: seq<Byte> := [102, 111, 111];
    var bar: seq<Byte> := [98, 97, 114];
    var foobar: seq<Byte> := [102, 111, 111, 98, 97, 114];
    EncodeUnfold(foo);
    EncodeUnfold(bar);
    EncodeUnfold(foobar);
    assert foo[3..] == [] && bar[3..] == [];
    assert foobar[3..] == bar;
  }

  /** Distinct byte strings have distinct encodings. */
  lemma EncodeInjective(a: seq<Byte>, b: seq<Byte>)
    requires Encode(a) == Encode(b)
    ensures a == b
  {
    DecodeEncode(a);
    DecodeEncode(b);
  }

  predicate IsLowerHex(c: char)
  {
    '0' <= c <= '9' || 'a' <= c <= 'f'
  }

  /**
   * The text `UUID.toString()` produces: 36 characters, groups of
   * 8-4-4-4-12 lower-case hex digits separated by `-`.
   */
  predicate IsUuidText(s: string)
  {
    |s| == 36 &&
    forall i | 0 <= i < 36 :: if i == 8 || i == 13 || i == 18 || i == 23 then s[i] == '-' else IsLowerHex(s[i])
  }

  /** UTF-8 bytes of an ASCII string: one byte per character, its code point. */
  function AsciiBytes(s: string): (bs: seq<Byte>)
    requires forall i | 0 <= i < |s| :: s[i] as int < 128
    ensures |bs| == |s|
    ensures forall i | 0 <= i < |s| :: bs[i] == s[i] as int
  {
    if s == [] then [] else [s[0] as int] + AsciiBytes(s[1..])
  }

  /** Every character of UUID text is ASCII. */
  lemma UuidIsAscii(s: string)
    requires IsUuidText(s)
    ensures forall i | 0 <= i < |s| :: s[i] as int < 128
  {
    forall i | 0 <= i < |s| ensures s[i] as int < 128 {
      if !(i == 8 || i == 13 || i == 18 || i == 23) {
        assert IsLowerHex(s[i]);
      }
    }
  }

  /** `generateSessionId()`, for the UUID the generator happened to draw. */
  function SessionIdOf(uuid: string): (id: string)
    requires IsUuidText(uuid)
    ensures |id| == 48
    ensures forall i | 0 <= i < |id| :: IsAlphabetChar(id[i])
  {
    UuidIsAscii(uuid);
    Encode(AsciiBytes(uuid))
  }

  /** Different UUIDs never give the same session id. */
  lemma SessionIdInjective(u1: string, u2: string)
    requires IsUuidText(u1) && IsUuidText(u2)
    requires SessionIdOf(u1) == SessionIdOf(u2)
    ensures u1 == u2
  {
    UuidIsAscii(u1);
    UuidIsAscii(u2);
    var b1, b2 := AsciiBytes(u1), AsciiBytes(u2);
    EncodeInjective(b1, b2);
    forall i | 0 <= i < 36 ensures u1[i] == u2[i] {
      assert b1[i] == b2[i];
    }
  }
}
