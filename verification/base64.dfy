/** Base64 as defined in section 4 of RFC 4648: the standard alphabet, groups of
    three bytes written as four characters, and '=' padding of a final short group.
    `Encode` is what `base64.b64encode(...).decode('utf-8')` yields; `Decode` is the
    strict (canonical) decoder that serves as its inverse. */
module Base64 {
  import opened Wrappers
  import opened Schemas

  /** The padding character. */
  const Pad: char := '='

  /** The character for a 6-bit value: A-Z, a-z, 0-9, '+', '/'. */
  function IndexToChar(i: nat): (c: char)
    requires i < 64
    ensures c as int < 128
  {
    if i < 26 then ('A' as int + i) as char
    else if i < 52 then ('a' as int + (i - 26)) as char
    else if i < 62 then ('0' as int + (i - 52)) as char
    else if i == 62 then '+'
    else '/'
  }

  /** The 6-bit value of an alphabet character, `None` for any other character. */
  function CharToIndex(c: char): (r: Option<nat>)
    ensures r.Some? ==> r.value < 64
  {
    if 'A' <= c <= 'Z' then Some(c as int - 'A' as int)
    else if 'a' <= c <= 'z' then Some(c as int - 'a' as int + 26)
    else if '0' <= c <= '9' then Some(c as int - '0' as int + 52)
    else if c == '+' then Some(62)
    else if c == '/' then Some(63)
    else None
  }

  predicate IsAlphabetChar(c: char) {
    CharToIndex(c).Some?
  }

  /** The two character maps are inverse bijections between [0, 64) and the alphabet. */
  lemma IndexCharInverse(i: nat)
    requires i < 64
    ensures CharToIndex(IndexToChar(i)) == Some(i)
  {
  }

  lemma CharIndexInverse(c: char)
    requires IsAlphabetChar(c)
    ensures IndexToChar(CharToIndex(c).value) == c
  {
  }

  function Sextet(c: char): nat
    requires IsAlphabetChar(c)
  {
    CharToIndex(c).value
  }

  /** Three bytes as four characters. */
  function EncodeGroup(b0: byte, b1: byte, b2: byte): string {
    [IndexToChar(b0 / 4), IndexToChar((b0 % 4) * 16 + b1 / 16),
     IndexToChar((b1 % 16) * 4 + b2 / 64), IndexToChar(b2 % 64)]
  }

  /** A final group of one byte: two characters and two pads. */
  function EncodeOne(b0: byte): string {
    [IndexToChar(b0 / 4), IndexToChar((b0 % 4) * 16), Pad, Pad]
  }

  /** A final group of two bytes: three characters and one pad. */
  function EncodeTwo(b0: byte, b1: byte): string {
    [IndexToChar(b0 / 4), IndexToChar((b0 % 4) * 16 + b1 / 16), IndexToChar((b1 % 16) * 4), Pad]
  }

  /** Base64 text of `data`: four characters per started group of three bytes. */
  function Encode(data: seq<byte>): (s: string)
    ensures |s| == 4 * ((|data| + 2) / 3)
    decreases |data|
  {
    if |data| == 0 then ""
    else if |data| == 1 then EncodeOne(data[0])
    else if |data| == 2 then EncodeTwo(data[0], data[1])
    else EncodeGroup(data[0], data[1], data[2]) + Encode(data[3..])
  }

  /** The four 6-bit values of three bytes, as `EncodeGroup` writes them. */
  function Unpack(b0: byte, b1: byte, b2: byte): seq<nat> {
    [b0 / 4, (b0 % 4) * 16 + b1 / 16, (b1 % 16) * 4 + b2 / 64, b2 % 64]
  }

  /** The three bytes four 6-bit values make up, as `DecodeGroup` reads them. */
  function Pack(c0: nat, c1: nat, c2: nat, c3: nat): seq<int> {
    [c0 * 4 + c1 / 16, (c1 % 16) * 16 + c2 / 4, (c2 % 4) * 64 + c3]
  }

  /** Quotient and remainder of `q * d + r` for the divisors the codec uses. */
  lemma DivMod4(q: nat, r: nat)
    requires r < 4
    ensures (q * 4 + r) / 4 == q && (q * 4 + r) % 4 == r
  {
  }

  lemma DivMod16(q: nat, r: nat)
    requires r < 16
    ensures (q * 16 + r) / 16 == q && (q * 16 + r) % 16 == r
  {
  }

  lemma DivMod64(q: nat, r: nat)
    requires r < 64
    ensures (q * 64 + r) / 64 == q && (q * 64 + r) % 64 == r
  {
  }

  /** Unpacking three bytes into sextets and packing them again restores the bytes. */
  lemma PackUnpack(b0: byte, b1: byte, b2: byte)
    ensures var c := Unpack(b0, b1, b2);
      c[0] < 64 && c[1] < 64 && c[2] < 64 && c[3] < 64 && Pack(c[0], c[1], c[2], c[3]) == [b0, b1, b2]
  {
    var q0, r0 := b0 / 4, b0 % 4;
    var h1, l1 := b1 / 16, b1 % 16;
    var h2, l2 := b2 / 64, b2 % 64;
    assert b0 == q0 * 4 + r0 && b1 == h1 * 16 + l1 && b2 == h2 * 64 + l2;
    var c := Unpack(b0, b1, b2);
    assert c[1] == r0 * 16 + h1 && c[2] == l1 * 4 + h2;
    DivMod16(r0, h1);
    DivMod4(l1, h2);
    var j := Pack(c[0], c[1], c[2], c[3]);
    assert j[0] == b0 && j[1] == b1 && j[2] == b2;
  }

  /** Packing four sextets into bytes and unpacking them again restores the sextets. */
  lemma UnpackPack(c0: nat, c1: nat, c2: nat, c3: nat)
    requires c0 < 64 && c1 < 64 && c2 < 64 && c3 < 64
    ensures var b := Pack(c0, c1, c2, c3);
      b[0] < 256 && b[1] < 256 && b[2] < 256 && Unpack(b[0], b[1], b[2]) == [c0, c1, c2, c3]
  {
    var h1, l1 := c1 / 16, c1 % 16;
    var h2, l2 := c2 / 4, c2 % 4;
    DivMod4(c0, h1);
    DivMod16(l1, h2);
    DivMod64(l2, c3);
  }

  /** Four alphabet characters as three bytes. */
  function DecodeGroup(q: string): Option<seq<byte>>
    requires |q| == 4
  {
    if IsAlphabetChar(q[0]) && IsAlphabetChar(q[1]) && IsAlphabetChar(q[2]) && IsAlphabetChar(q[3]) then
      var c0, c1, c2, c3 := Sextet(q[0]), Sextet(q[1]), Sextet(q[2]), Sextet(q[3]);
      UnpackPack(c0, c1, c2, c3);
      Some(Pack(c0, c1, c2, c3))
    else None
  }

  /** The last group, which may carry one or two pads; the bits a pad makes
      unused must be zero, so that every byte string has exactly one encoding. */
  function DecodeLast(q: string): Option<seq<byte>>
    requires |q| == 4
  {
    if q[2] == Pad && q[3] == Pad then
      if IsAlphabetChar(q[0]) && IsAlphabetChar(q[1]) && Sextet(q[1]) % 16 == 0 then
        Some([Sextet(q[0]) * 4 + Sextet(q[1]) / 16])
      else None
    else if q[3] == Pad then
      if IsAlphabetChar(q[0]) && IsAlphabetChar(q[1]) && IsAlphabetChar(q[2]) && Sextet(q[2]) % 4 == 0 then
        var c0, c1, c2 := Sextet(q[0]), Sextet(q[1]), Sextet(q[2]);
        Some([c0 * 4 + c1 / 16, (c1 % 16) * 16 + c2 / 4])
      else None
    else DecodeGroup(q)
  }

  /** Strict decoding: the length is a multiple of four, pads occur only in the last
      group, and anything else is rejected with `None`. */
  function Decode(s: string): Option<seq<byte>>
    decreases |s|
  {
    if |s| == 0 then Some([])
    else if |s| < 4 then None
    else if |s| == 4 then DecodeLast(s)
    else
      match DecodeGroup(s[..4])
      case None => None
      case Some(head) =>
        match Decode(s[4..])
        case None => None
        case Some(tail) => Some(head + tail)
  }

  /** A group of sextets written as characters reads back as those sextets. */
  lemma CharsRoundTrip(c: seq<nat>)
    requires |c| == 4 && c[0] < 64 && c[1] < 64 && c[2] < 64 && c[3] < 64
    ensures var q := [IndexToChar(c[0]), IndexToChar(c[1]), IndexToChar(c[2]), IndexToChar(c[3])];
      DecodeGroup(q) == Some(Pack(c[0], c[1], c[2], c[3]))
  {
    IndexCharInverse(c[0]);
    IndexCharInverse(c[1]);
    IndexCharInverse(c[2]);
    IndexCharInverse(c[3]);
  }

  lemma GroupRoundTrip(b0: byte, b1: byte, b2: byte)
    ensures DecodeGroup(EncodeGroup(b0, b1, b2)) == Some([b0, b1, b2])
  {
    var c := Unpack(b0, b1, b2);
    PackUnpack(b0, b1, b2);
    CharsRoundTrip(c);
    assert EncodeGroup(b0, b1, b2) == [IndexToChar(c[0]), IndexToChar(c[1]), IndexToChar(c[2]), IndexToChar(c[3])];
  }

  lemma OneRoundTrip(b0: byte)
    ensures DecodeLast(EncodeOne(b0)) == Some([b0])
  {
    IndexCharInverse(b0 / 4);
    IndexCharInverse((b0 % 4) * 16);
  }

  lemma TwoRoundTrip(b0: byte, b1: byte)
    ensures DecodeLast(EncodeTwo(b0, b1)) == Some([b0, b1])
  {
    IndexCharInverse(b0 / 4);
    IndexCharInverse((b0 % 4) * 16 + b1 / 16);
    IndexCharInverse((b1 % 16) * 4);
  }

  /** A byte string is its first three bytes followed by the rest. */
  lemma EncodeLonger(data: seq<byte>)
    requires |data| >= 3
    ensures Encode(data) == EncodeGroup(data[0], data[1], data[2]) + Encode(data[3..])
  {
  }

  /** Decoding the encoding of any byte string gives the byte string back. */
  lemma {:induction false} DecodeEncode(data: seq<byte>)
    ensures Decode(Encode(data)) == Some(data)
    decreases |data|
  {
    if |data| == 0 {
    } else if |data| == 1 {
      OneRoundTrip(data[0]);
      assert data == [data[0]];
    } else if |data| == 2 {
      TwoRoundTrip(data[0], data[1]);
      assert data == [data[0], data[1]];
    } else {
      var g := EncodeGroup(data[0], data[1], data[2]);
      var rest := Encode(data[3..]);
      GroupRoundTrip(data[0], data[1], data[2]);
      EncodeLonger(data);
      if |data| == 3 {
        assert g + rest == g;
        assert data == [data[0], data[1], data[2]];
      } else {
        DecodeEncode(data[3..]);
        DecodeLonger(g + rest);
        assert (g + rest)[..4] == g;
        assert (g + rest)[4..] == rest;
        assert [data[0], data[1], data[2]] + data[3..] == data;
      }
    }
  }

  /** A string longer than one group decodes as its first group followed by the rest. */
  lemma DecodeLonger(s: string)
    requires |s| > 4
    ensures Decode(s) == match DecodeGroup(s[..4])
      case None => None
      case Some(head) => match Decode(s[4..]) case None => None case Some(tail) => Some(head + tail)
  {
  }

  lemma GroupOfDecode(q: string)
    requires |q| == 4 && DecodeGroup(q).Some?
    ensures var d := DecodeGroup(q).value; |d| == 3 && EncodeGroup(d[0], d[1], d[2]) == q
  {
    var c0, c1, c2, c3 := Sextet(q[0]), Sextet(q[1]), Sextet(q[2]), Sextet(q[3]);
    UnpackPack(c0, c1, c2, c3);
    CharIndexInverse(q[0]);
    CharIndexInverse(q[1]);
    CharIndexInverse(q[2]);
    CharIndexInverse(q[3]);
    var d := DecodeGroup(q).value;
    assert d == Pack(c0, c1, c2, c3);
    assert Unpack(d[0], d[1], d[2]) == [c0, c1, c2, c3];
    assert EncodeGroup(d[0], d[1], d[2]) == [IndexToChar(c0), IndexToChar(c1), IndexToChar(c2), IndexToChar(c3)];
  }

  /** A one-byte final group read back from "xy==" re-encodes to "xy==". */
  lemma OneOfDecode(q: string)
    requires |q| == 4 && q[2] == Pad && q[3] == Pad && DecodeLast(q).Some?
    ensures var d := DecodeLast(q).value; |d| == 1 && EncodeOne(d[0]) == q
  {
    var c0, c1 := Sextet(q[0]), Sextet(q[1]);
    CharIndexInverse(q[0]);
    CharIndexInverse(q[1]);
    var b0 := c0 * 4 + c1 / 16;
    assert b0 / 4 == c0 && (b0 % 4) * 16 == c1;
  }

  /** A two-byte final group read back from "xyz=" re-encodes to "xyz=". */
  lemma TwoOfDecode(q: string)
    requires |q| == 4 && !(q[2] == Pad && q[3] == Pad) && q[3] == Pad && DecodeLast(q).Some?
    ensures var d := DecodeLast(q).value; |d| == 2 && EncodeTwo(d[0], d[1]) == q
  {
    var c0, c1, c2 := Sextet(q[0]), Sextet(q[1]), Sextet(q[2]);
    CharIndexInverse(q[0]);
    CharIndexInverse(q[1]);
    CharIndexInverse(q[2]);
    var b0, b1 := c0 * 4 + c1 / 16, (c1 % 16) * 16 + c2 / 4;
    assert b0 / 4 == c0 && b0 % 4 == c1 / 16;
    assert b1 / 16 == c1 % 16 && (b1 % 16) * 4 == c2;
  }

  lemma LastOfDecode(q: string)
    requires |q| == 4 && DecodeLast(q).Some?
    ensures var d := DecodeLast(q).value; 1 <= |d| <= 3 && Encode(d) == q
  {
    var d := DecodeLast(q).value;
    if q[2] == Pad && q[3] == Pad {
      OneOfDecode(q);
      assert Encode(d) == EncodeOne(d[0]);
    } else if q[3] == Pad {
      TwoOfDecode(q);
      assert Encode(d) == EncodeTwo(d[0], d[1]);
    } else {
      GroupOfDecode(q);
      EncodeLonger(d);
      assert Encode(d[3..]) == [];
    }
  }

  /** Every string the strict decoder accepts is the encoding of what it decodes to:
      together with `DecodeEncode`, `Encode` and `Decode` are mutually inverse. */
  lemma {:induction false} EncodeDecode(s: string)
    requires Decode(s).Some?
    ensures Encode(Decode(s).value) == s
    decreases |s|
  {
    if |s| == 0 {
    } else if |s| == 4 {
      LastOfDecode(s);
    } else {
      DecodeLonger(s);
      var head := DecodeGroup(s[..4]).value;
      var tail := Decode(s[4..]).value;
      GroupOfDecode(s[..4]);
      EncodeDecode(s[4..]);
      var d := head + tail;
      assert Decode(s).value == d;
      assert d[..3] == head && d[3..] == tail;
      assert |d| > 3 by {
        assert |s[4..]| >= 4;
        assert |Encode(tail)| == |s[4..]|;
      }
      EncodeLonger(d);
      assert s == s[..4] + s[4..];
    }
  }

  /** Every character of a full group is in the alphabet and ASCII. */
  lemma GroupAlphabet(b0: byte, b1: byte, b2: byte)
    ensures var g := EncodeGroup(b0, b1, b2);
      forall i :: 0 <= i < 4 ==> IsAlphabetChar(g[i]) && g[i] as int < 128
  {
    var c := Unpack(b0, b1, b2);
    PackUnpack(b0, b1, b2);
    IndexCharInverse(c[0]);
    IndexCharInverse(c[1]);
    IndexCharInverse(c[2]);
    IndexCharInverse(c[3]);
    assert EncodeGroup(b0, b1, b2) == [IndexToChar(c[0]), IndexToChar(c[1]), IndexToChar(c[2]), IndexToChar(c[3])];
  }

  /** A final short group: alphabet characters, then pads. */
  lemma ShortAlphabet(data: seq<byte>)
    requires 1 <= |data| <= 2
    ensures var s := Encode(data);
      && (forall i :: 0 <= i < |s| ==> IsAlphabetChar(s[i]) || s[i] == Pad)
      && (forall i :: 0 <= i < |s| && s[i] == Pad ==> i >= |s| - 2)
      && (forall i :: 0 <= i < |s| ==> s[i] as int < 128)
  {
    IndexCharInverse(data[0] / 4);
    if |data| == 1 {
      IndexCharInverse((data[0] % 4) * 16);
    } else {
      IndexCharInverse((data[0] % 4) * 16 + data[1] / 16);
      IndexCharInverse((data[1] % 16) * 4);
    }
  }

  /** Encoded text is drawn from the alphabet, with '=' only in the last two
      positions, and is therefore ASCII. */
  lemma {:induction false} EncodeAlphabet(data: seq<byte>)
    ensures var s := Encode(data);
      && (forall i :: 0 <= i < |s| ==> IsAlphabetChar(s[i]) || s[i] == Pad)
      && (forall i :: 0 <= i < |s| && s[i] == Pad ==> i >= |s| - 2)
      && (forall i :: 0 <= i < |s| ==> s[i] as int < 128)
    decreases |data|
  {
    if 1 <= |data| <= 2 {
      ShortAlphabet(data);
    } else if |data| >= 3 {
      var g := EncodeGroup(data[0], data[1], data[2]);
      var rest := Encode(data[3..]);
      GroupAlphabet(data[0], data[1], data[2]);
      EncodeAlphabet(data[3..]);
      EncodeLonger(data);
      assert forall i :: 4 <= i < |g + rest| ==> (g + rest)[i] == rest[i - 4];
    }
  }

  /** The bytes 00 01 encode to "AAE=". */
  lemma ExampleTwoBytes()
    ensures Encode([0, 1]) == "AAE="
  {
  }
}
