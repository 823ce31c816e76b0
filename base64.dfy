/** Unpadded standard base64: the alphabet of section 4 of RFC 4648, with the
    `=` padding omitted as section 3.2 allows, and canonical decoding in the
    sense of section 3.5 (the unused low bits of the last symbol must be
    zero). Plain text is a byte string of ASCII codes. */
module Base64 {
  import opened Wrappers
  import opened Bytes

  /** The 6-bit value of an alphabet symbol, or None for any other byte. */
  function SymbolValue(c: byte): (r: Option<nat>)
    ensures r.Some? ==> r.value < 64
  {
    if 65 <= c <= 90 then Some(c - 65)         // 'A'..'Z'
    else if 97 <= c <= 122 then Some(c - 71)   // 'a'..'z'
    else if 48 <= c <= 57 then Some(c + 4)     // '0'..'9'
    else if c == 43 then Some(62)              // '+'
    else if c == 47 then Some(63)              // '/'
    else None
  }

  /** The alphabet symbol of a 6-bit value. */
  function Symbol(v: nat): (c: byte)
    requires v < 64
  {
    if v < 26 then v + 65
    else if v < 52 then v + 71
    else if v < 62 then v - 4
    else if v == 62 then 43
    else 47
  }

  predicate IsSymbol(c: byte)
  {
    SymbolValue(c).Some?
  }

  lemma SymbolRoundTrip(v: nat)
    requires v < 64
    ensures SymbolValue(Symbol(v)) == Some(v)
  {
  }

  lemma ValueRoundTrip(c: byte)
    requires IsSymbol(c)
    ensures Symbol(SymbolValue(c).value) == c
  {
  }

  /** One byte as two symbols; the low four bits of the second are zero. */
  function EncodeOne(b0: byte): seq<byte>
  {
    [Symbol(b0 / 4), Symbol(b0 % 4 * 16)]
  }

  /** Two bytes as three symbols; the low two bits of the third are zero. */
  function EncodeTwo(b0: byte, b1: byte): seq<byte>
  {
    [Symbol(b0 / 4), Symbol(b0 % 4 * 16 + b1 / 16), Symbol(b1 % 16 * 4)]
  }

  /** Three bytes (24 bits) as four symbols of six bits each. */
  function EncodeThree(b0: byte, b1: byte, b2: byte): seq<byte>
  {
    [Symbol(b0 / 4), Symbol(b0 % 4 * 16 + b1 / 16), Symbol(b1 % 16 * 4 + b2 / 64), Symbol(b2 % 64)]
  }

  /** Encoding: each group of three bytes becomes four symbols; a final group
      of one byte becomes two symbols and of two bytes three, with no padding. */
  function Encode(b: seq<byte>): (s: seq<byte>)
    ensures |s| == |b| / 3 * 4 + (if |b| % 3 == 0 then 0 else |b| % 3 + 1)
    decreases |b|
  {
    if |b| == 0 then []
    else if |b| == 1 then EncodeOne(b[0])
    else if |b| == 2 then EncodeTwo(b[0], b[1])
    else EncodeThree(b[0], b[1], b[2]) + Encode(b[3..])
  }

  /** A final group of two symbols, canonical only if its unused bits are zero. */
  function DecodeTwo(c0: byte, c1: byte): Option<seq<byte>>
  {
    if IsSymbol(c0) && IsSymbol(c1) then
      var v0, v1 := SymbolValue(c0).value, SymbolValue(c1).value;
      if v1 % 16 == 0 then Some([v0 * 4 + v1 / 16]) else None
    else None
  }

  /** A final group of three symbols, canonical only if its unused bits are zero. */
  function DecodeThree(c0: byte, c1: byte, c2: byte): Option<seq<byte>>
  {
    if IsSymbol(c0) && IsSymbol(c1) && IsSymbol(c2) then
      var v0, v1, v2 := SymbolValue(c0).value, SymbolValue(c1).value, SymbolValue(c2).value;
      if v2 % 4 == 0 then Some([v0 * 4 + v1 / 16, v1 % 16 * 16 + v2 / 4]) else None
    else None
  }

  /** A full group of four symbols. */
  function DecodeFour(c0: byte, c1: byte, c2: byte, c3: byte): Option<seq<byte>>
  {
    if IsSymbol(c0) && IsSymbol(c1) && IsSymbol(c2) && IsSymbol(c3) then
      var v0, v1, v2, v3 := SymbolValue(c0).value, SymbolValue(c1).value, SymbolValue(c2).value, SymbolValue(c3).value;
      Some([v0 * 4 + v1 / 16, v1 % 16 * 16 + v2 / 4, v2 % 4 * 64 + v3])
    else None
  }

  /** Decoding: None for a byte outside the alphabet (including `=`), for a
      length of 1 modulo 4, and for a last symbol whose unused bits are not zero. */
  function Decode(s: seq<byte>): (r: Option<seq<byte>>)
    ensures |s| % 4 == 1 ==> r.None?
    ensures r.Some? ==> |r.value| == |s| / 4 * 3 + (if |s| % 4 == 0 then 0 else |s| % 4 - 1)
    decreases |s|
  {
    if |s| == 0 then Some([])
    else if |s| == 1 then None
    else if |s| == 2 then DecodeTwo(s[0], s[1])
    else if |s| == 3 then DecodeThree(s[0], s[1], s[2])
    else
      match (DecodeFour(s[0], s[1], s[2], s[3]), Decode(s[4..]))
      case (Some(group), Some(rest)) => Some(group + rest)
      case _ => None
  }

  /** Byte arithmetic behind one group: splitting bytes into 6-bit values
      and joining them back. */
  lemma SplitJoin(hi: nat, lo: nat, k: nat)
    requires k == 4 || k == 16 || k == 64
    requires lo < k
    ensures (hi * k + lo) / k == hi && (hi * k + lo) % k == lo
  {
    if k == 4 {
      assert (hi * 4 + lo) / 4 == hi;
    } else if k == 16 {
      assert (hi * 16 + lo) / 16 == hi;
    } else {
      assert (hi * 64 + lo) / 64 == hi;
    }
  }

  lemma DecodeEncodeOne(b0: byte)
    ensures DecodeTwo(EncodeOne(b0)[0], EncodeOne(b0)[1]) == Some([b0])
  {
    SymbolRoundTrip(b0 / 4);
    SymbolRoundTrip(b0 % 4 * 16);
    SplitJoin(b0 % 4, 0, 16);
  }

  lemma DecodeEncodeTwo(b0: byte, b1: byte)
    ensures var s := EncodeTwo(b0, b1); DecodeThree(s[0], s[1], s[2]) == Some([b0, b1])
  {
    var v0, v1, v2 := b0 / 4, b0 % 4 * 16 + b1 / 16, b1 % 16 * 4;
    SymbolRoundTrip(v0);
    SymbolRoundTrip(v1);
    SymbolRoundTrip(v2);
    SplitJoin(b0 % 4, b1 / 16, 16);
    SplitJoin(b1 % 16, 0, 4);
  }

  lemma DecodeEncodeThree(b0: byte, b1: byte, b2: byte)
    ensures var s := EncodeThree(b0, b1, b2); DecodeFour(s[0], s[1], s[2], s[3]) == Some([b0, b1, b2])
  {
    var v0, v1, v2, v3 := b0 / 4, b0 % 4 * 16 + b1 / 16, b1 % 16 * 4 + b2 / 64, b2 % 64;
    SymbolRoundTrip(v0);
    SymbolRoundTrip(v1);
    SymbolRoundTrip(v2);
    SymbolRoundTrip(v3);
    SplitJoin(b0 % 4, b1 / 16, 16);
    SplitJoin(b1 % 16, b2 / 64, 4);
  }

  lemma DecodeEncodeOneByte(b: seq<byte>)
    requires |b| == 1
    ensures Decode(Encode(b)) == Some(b)
  {
    var s := EncodeOne(b[0]);
    assert Encode(b) == s;
    assert Decode(s) == Some([b[0]]) by {
      DecodeEncodeOne(b[0]);
    }
    assert b == [b[0]];
  }

  lemma DecodeEncodeTwoBytes(b: seq<byte>)
    requires |b| == 2
    ensures Decode(Encode(b)) == Some(b)
  {
    var s := EncodeTwo(b[0], b[1]);
    assert Encode(b) == s;
    assert Decode(s) == Some([b[0], b[1]]) by {
      DecodeEncodeTwo(b[0], b[1]);
    }
    assert b == [b[0], b[1]];
  }

  /** Decoding a full group followed by more text. */
  lemma DecodeGroupThen(group: seq<byte>, rest: seq<byte>)
    requires |group| == 4
    ensures Decode(group + rest) ==
      match (DecodeFour(group[0], group[1], group[2], group[3]), Decode(rest))
      case (Some(g), Some(r)) => Some(g + r)
      case _ => None
  {
    var s := group + rest;
    assert s[4..] == rest;
    assert s[0] == group[0] && s[1] == group[1] && s[2] == group[2] && s[3] == group[3];
  }

  /** Decoding inverts encoding. */
  lemma {:induction false} DecodeEncode(b: seq<byte>)
    ensures Decode(Encode(b)) == Some(b)
    decreases |b|
  {
    if |b| == 1 {
      DecodeEncodeOneByte(b);
    } else if |b| == 2 {
      DecodeEncodeTwoBytes(b);
    } else if |b| >= 3 {
      var group := EncodeThree(b[0], b[1], b[2]);
      assert Encode(b) == group + Encode(b[3..]);
      DecodeEncodeThree(b[0], b[1], b[2]);
      DecodeEncode(b[3..]);
      DecodeGroupThen(group, Encode(b[3..]));
      assert b == [b[0], b[1], b[2]] + b[3..];
    }
  }

  lemma EncodeDecodeTwo(c0: byte, c1: byte)
    requires DecodeTwo(c0, c1).Some?
    ensures var b := DecodeTwo(c0, c1).value; |b| == 1 && EncodeOne(b[0]) == [c0, c1]
  {
    var v0, v1 := SymbolValue(c0).value, SymbolValue(c1).value;
    ValueRoundTrip(c0);
    ValueRoundTrip(c1);
    SplitJoin(v0, v1 / 16, 4);
    var b0 := v0 * 4 + v1 / 16;
    assert b0 / 4 == v0 && b0 % 4 * 16 == v1;
  }

  lemma EncodeDecodeThree(c0: byte, c1: byte, c2: byte)
    requires DecodeThree(c0, c1, c2).Some?
    ensures var b := DecodeThree(c0, c1, c2).value; |b| == 2 && EncodeTwo(b[0], b[1]) == [c0, c1, c2]
  {
    var v0, v1, v2 := SymbolValue(c0).value, SymbolValue(c1).value, SymbolValue(c2).value;
    ValueRoundTrip(c0);
    ValueRoundTrip(c1);
    ValueRoundTrip(c2);
    SplitJoin(v0, v1 / 16, 4);
    SplitJoin(v1 % 16, v2 / 4, 16);
    var b0, b1 := v0 * 4 + v1 / 16, v1 % 16 * 16 + v2 / 4;
    assert b0 / 4 == v0 && b0 % 4 * 16 + b1 / 16 == v1 && b1 % 16 * 4 == v2;
  }

  lemma EncodeDecodeFour(c0: byte, c1: byte, c2: byte, c3: byte)
    requires DecodeFour(c0, c1, c2, c3).Some?
    ensures var b := DecodeFour(c0, c1, c2, c3).value; |b| == 3 && EncodeThree(b[0], b[1], b[2]) == [c0, c1, c2, c3]
  {
    var v0, v1, v2, v3 := SymbolValue(c0).value, SymbolValue(c1).value, SymbolValue(c2).value, SymbolValue(c3).value;
    var b0: int, b1: int, b2: int := v0 * 4 + v1 / 16, v1 % 16 * 16 + v2 / 4, v2 % 4 * 64 + v3;
    assert b0 / 4 == v0 && b0 % 4 == v1 / 16 by { SplitJoin(v0, v1 / 16, 4); }
    assert b1 / 16 == v1 % 16 && b1 % 16 == v2 / 4 by { SplitJoin(v1 % 16, v2 / 4, 16); }
    assert b2 / 64 == v2 % 4 && b2 % 64 == v3 by { SplitJoin(v2 % 4, v3, 64); }
    assert Symbol(b0 / 4) == c0 by { ValueRoundTrip(c0); }
    assert Symbol(b0 % 4 * 16 + b1 / 16) == c1 by { ValueRoundTrip(c1); }
    assert Symbol(b1 % 16 * 4 + b2 / 64) == c2 by { ValueRoundTrip(c2); }
    assert Symbol(b2 % 64) == c3 by { ValueRoundTrip(c3); }
    assert DecodeFour(c0, c1, c2, c3).value == [b0, b1, b2];
    assert EncodeThree(b0, b1, b2) == [c0, c1, c2, c3];
  }

  /** The decoder accepts only canonical encodings: whatever it decodes, the
      encoder gives back exactly. */
  lemma {:induction false} EncodeDecode(s: seq<byte>)
    requires Decode(s).Some?
    ensures Encode(Decode(s).value) == s
    decreases |s|
  {
    var b := Decode(s).value;
    if |s| == 2 {
      EncodeDecodeTwo(s[0], s[1]);
    } else if |s| == 3 {
      EncodeDecodeThree(s[0], s[1], s[2]);
    } else if |s| >= 4 {
      var group := DecodeFour(s[0], s[1], s[2], s[3]).value;
      var rest := Decode(s[4..]).value;
      EncodeDecodeFour(s[0], s[1], s[2], s[3]);
      EncodeDecode(s[4..]);
      assert b == group + rest;
      assert b[3..] == rest;
      assert s == [s[0], s[1], s[2], s[3]] + s[4..];
    }
  }

  /** An encoding consists of alphabet symbols only. */
  lemma {:induction false} EncodeSymbols(b: seq<byte>)
    ensures forall i :: 0 <= i < |Encode(b)| ==> IsSymbol(Encode(b)[i])
    decreases |b|
  {
    if |b| >= 3 {
      EncodeSymbols(b[3..]);
      var s := Encode(b);
      assert s == EncodeThree(b[0], b[1], b[2]) + Encode(b[3..]);
      forall i | 4 <= i < |s| ensures IsSymbol(s[i]) {
        assert s[i] == Encode(b[3..])[i - 4];
      }
    }
  }

  /** No encoding contains the separator `-` or a line break. */
  lemma EncodeHasNoSeparator(b: seq<byte>)
    ensures DASH !in Encode(b) && NEWLINE !in Encode(b)
  {
    EncodeSymbols(b);
  }
}
