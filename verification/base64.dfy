/**
  The base 64 encoding of section 4 of RFC 4648, as produced by Node's
  `Buffer.toString('base64')`: every three octets become four characters of
  the 64-character alphabet, and a final group of one or two octets is
  padded with `=`. `Decode` is the strict inverse (canonical padding bits,
  no whitespace); it exists to state what `Encode` preserves.
 */
module Base64 {
  import opened Common

  const Pad: char := '='

  /** The character of Table 1 of RFC 4648 for the 6-bit value `v`. */
  function Sextet(v: int): (c: char)
    requires 0 <= v < 64
    ensures IsAlphabetChar(c) && c != Pad
  {
    if v < 26 then ('A' as int + v) as char
    else if v < 52 then ('a' as int + (v - 26)) as char
    else if v < 62 then ('0' as int + (v - 52)) as char
    else if v == 62 then '+'
    else '/'
  }

  predicate IsAlphabetChar(c: char) {
    ('A' <= c <= 'Z') || ('a' <= c <= 'z') || ('0' <= c <= '9') || c == '+' || c == '/'
  }

  /** The 6-bit value of an alphabet character; None for any other character. */
  function ValueOf(c: char): (r: Option<int>)
    ensures r.Some? <==> IsAlphabetChar(c)
    ensures r.Some? ==> 0 <= r.value < 64 && Sextet(r.value) == c
  {
    if 'A' <= c <= 'Z' then Some(c as int - 'A' as int)
    else if 'a' <= c <= 'z' then Some(c as int - 'a' as int + 26)
    else if '0' <= c <= '9' then Some(c as int - '0' as int + 52)
    else if c == '+' then Some(62)
    else if c == '/' then Some(63)
    else None
  }

  lemma ValueOfSextet(v: int)
    requires 0 <= v < 64
    ensures ValueOf(Sextet(v)) == Some(v)
  {
  }

  /** Four characters for three octets. */
  function Quantum(b0: byte, b1: byte, b2: byte): string {
    [Sextet(b0 / 4), Sextet((b0 % 4) * 16 + b1 / 16), Sextet((b1 % 16) * 4 + b2 / 64), Sextet(b2 % 64)]
  }

  /** Every character of an encoding is an alphabet character or padding. */
  predicate IsEncodingChar(c: char) {
    IsAlphabetChar(c) || c == Pad
  }

  function Encode(bs: seq<byte>): (s: string)
    ensures |s| == 4 * ((|bs| + 2) / 3)
    ensures forall i :: 0 <= i < |s| ==> IsEncodingChar(s[i])
    ensures forall i :: 0 <= i < |s| && s[i] == Pad ==> |s| - 2 <= i
    decreases |bs|
  {
    if |bs| == 0 then []
    else if |bs| == 1 then [Sextet(bs[0] / 4), Sextet((bs[0] % 4) * 16), Pad, Pad]
    else if |bs| == 2 then [Sextet(bs[0] / 4), Sextet((bs[0] % 4) * 16 + bs[1] / 16), Sextet((bs[1] % 16) * 4), Pad]
    else
      assert (|bs| + 2) / 3 == 1 + (|bs| - 1) / 3;
      Quantum(bs[0], bs[1], bs[2]) + Encode(bs[3..])
  }

  /** Three octets from four alphabet values. */
  function Octets(v0: int, v1: int, v2: int, v3: int): seq<byte>
    requires 0 <= v0 < 64 && 0 <= v1 < 64 && 0 <= v2 < 64 && 0 <= v3 < 64
  {
    [v0 * 4 + v1 / 16, (v1 % 16) * 16 + v2 / 4, (v2 % 4) * 64 + v3]
  }

  /** Four alphabet characters at the head of `s`, as three octets. */
  function DecodeQuantum(s: string): (r: Option<seq<byte>>)
    requires |s| >= 4
    ensures r.Some? <==> IsAlphabetChar(s[0]) && IsAlphabetChar(s[1]) && IsAlphabetChar(s[2]) && IsAlphabetChar(s[3])
  {
    var c0, c1, c2, c3 := ValueOf(s[0]), ValueOf(s[1]), ValueOf(s[2]), ValueOf(s[3]);
    if c0.Some? && c1.Some? && c2.Some? && c3.Some? then Some(Octets(c0.value, c1.value, c2.value, c3.value))
    else None
  }

  /** The last four characters of an encoding: a full quantum, or one or two
      octets followed by padding whose unused bits must be zero. */
  function DecodeFinal(s: string): (r: Option<seq<byte>>)
    requires |s| == 4
    ensures r.Some? ==> 1 <= |r.value| <= 3
  {
    var c0, c1, c2, c3 := ValueOf(s[0]), ValueOf(s[1]), ValueOf(s[2]), ValueOf(s[3]);
    if c0.None? || c1.None? then None
    else if c2.Some? && c3.Some? then Some(Octets(c0.value, c1.value, c2.value, c3.value))
    else if c2.Some? && s[3] == Pad && c2.value % 4 == 0 then Some(Octets(c0.value, c1.value, c2.value, 0)[..2])
    else if s[2] == Pad && s[3] == Pad && c1.value % 16 == 0 then Some(Octets(c0.value, c1.value, 0, 0)[..1])
    else None
  }

  function Decode(s: string): (r: Option<seq<byte>>)
    decreases |s|
  {
    if |s| == 0 then Some([])
    else if |s| < 4 then None
    else if |s| == 4 then DecodeFinal(s)
    else if DecodeQuantum(s).None? then None
    else
      match Decode(s[4..])
      case Some(rest) => Some(DecodeQuantum(s).value + rest)
      case None => None
  }

  /** The arithmetic of one quantum: splitting three octets into four
      sextets and joining them again gives the octets back. */
  lemma QuantumArithmetic(b0: byte, b1: byte, b2: byte)
    ensures Octets(b0 / 4, (b0 % 4) * 16 + b1 / 16, (b1 % 16) * 4 + b2 / 64, b2 % 64) == [b0, b1, b2]
  {
    var v1 := (b0 % 4) * 16 + b1 / 16;
    var v2 := (b1 % 16) * 4 + b2 / 64;
    assert v1 / 16 == b0 % 4 && v1 % 16 == b1 / 16;
    assert v2 / 4 == b1 % 16 && v2 % 4 == b2 / 64;
  }

  /** Joining four sextets into octets and splitting them again gives the
      sextets back. */
  lemma SextetArithmetic(v0: int, v1: int, v2: int, v3: int)
    requires 0 <= v0 < 64 && 0 <= v1 < 64 && 0 <= v2 < 64 && 0 <= v3 < 64
    ensures var o := Octets(v0, v1, v2, v3);
            o[0] / 4 == v0 && (o[0] % 4) * 16 + o[1] / 16 == v1
            && (o[1] % 16) * 4 + o[2] / 64 == v2 && o[2] % 64 == v3
  {
    var o := Octets(v0, v1, v2, v3);
    assert o[0] / 4 == v0 && o[0] % 4 == v1 / 16;
    assert o[1] / 16 == v1 % 16 && o[1] % 16 == v2 / 4;
    assert o[2] / 64 == v2 % 4 && o[2] % 64 == v3;
  }

  lemma QuantumDecodes(b0: byte, b1: byte, b2: byte)
    ensures var q := Quantum(b0, b1, b2);
            ValueOf(q[0]).Some? && ValueOf(q[1]).Some? && ValueOf(q[2]).Some? && ValueOf(q[3]).Some?
            && Octets(ValueOf(q[0]).value, ValueOf(q[1]).value, ValueOf(q[2]).value, ValueOf(q[3]).value) == [b0, b1, b2]
  {
    var q := Quantum(b0, b1, b2);
    ValueOfSextet(b0 / 4);
    ValueOfSextet((b0 % 4) * 16 + b1 / 16);
    ValueOfSextet((b1 % 16) * 4 + b2 / 64);
    ValueOfSextet(b2 % 64);
    QuantumArithmetic(b0, b1, b2);
  }

  /** A single octet: two sextets and two pads, decoded back. */
  lemma DecodeEncodeOne(b0: byte)
    ensures Decode(Encode([b0])) == Some([b0])
  {
    var s := Encode([b0]);
    var v0, v1 := b0 / 4, (b0 % 4) * 16;
    assert s == [Sextet(v0), Sextet(v1), Pad, Pad];
    ValueOfSextet(v0);
    ValueOfSextet(v1);
    assert ValueOf(s[2]).None? && ValueOf(s[3]).None?;
    assert DecodeFinal(s) == Some(Octets(v0, v1, 0, 0)[..1]);
    assert Octets(v0, v1, 0, 0)[..1] == [b0];
    assert Decode(s) == DecodeFinal(s);
  }

  /** Two octets: three sextets and one pad, decoded back. */
  lemma DecodeEncodeTwo(b0: byte, b1: byte)
    ensures Decode(Encode([b0, b1])) == Some([b0, b1])
  {
    var s := Encode([b0, b1]);
    var v0, v1, v2 := b0 / 4, (b0 % 4) * 16 + b1 / 16, (b1 % 16) * 4;
    assert s == [Sextet(v0), Sextet(v1), Sextet(v2), Pad];
    ValueOfSextet(v0);
    ValueOfSextet(v1);
    ValueOfSextet(v2);
    assert ValueOf(s[3]).None?;
    assert DecodeFinal(s) == Some(Octets(v0, v1, v2, 0)[..2]);
    QuantumArithmetic(b0, b1, 0);
    assert Octets(v0, v1, v2, 0)[..2] == [b0, b1];
    assert Decode(s) == DecodeFinal(s);
  }

  /** A full quantum in front of a non-empty rest: the decoder emits its
      three octets, then whatever the rest decodes to. */
  lemma DecodeQuantumThenRest(b0: byte, b1: byte, b2: byte, rest: string)
    requires |rest| > 0
    ensures Decode(Quantum(b0, b1, b2) + rest) ==
            match Decode(rest)
            case Some(tail) => Some([b0, b1, b2] + tail)
            case None => None
  {
    var q := Quantum(b0, b1, b2);
    var s := q + rest;
    QuantumDecodes(b0, b1, b2);
    assert s[..4] == q && s[4..] == rest;
    assert s[0] == q[0] && s[1] == q[1] && s[2] == q[2] && s[3] == q[3];
  }

  lemma SplitFirstThree<T>(xs: seq<T>)
    requires |xs| >= 3
    ensures xs == [xs[0], xs[1], xs[2]] + xs[3..]
  {
    assert xs[..3] == [xs[0], xs[1], xs[2]];
    assert xs == xs[..3] + xs[3..];
  }

  /** Decoding an encoding gives back exactly the original octets. */
  lemma {:induction false} DecodeEncode(bs: seq<byte>)
    ensures Decode(Encode(bs)) == Some(bs)
    decreases |bs|
  {
    if |bs| == 0 {
    } else if |bs| == 1 {
      assert bs == [bs[0]];
      DecodeEncodeOne(bs[0]);
    } else if |bs| == 2 {
      assert bs == [bs[0], bs[1]];
      DecodeEncodeTwo(bs[0], bs[1]);
    } else if |bs| == 3 {
      assert bs == [bs[0], bs[1], bs[2]];
      assert Encode(bs) == Quantum(bs[0], bs[1], bs[2]);
      QuantumDecodes(bs[0], bs[1], bs[2]);
    } else {
      var tail := bs[3..];
      assert Encode(bs) == Quantum(bs[0], bs[1], bs[2]) + Encode(tail);
      DecodeEncode(tail);
      DecodeQuantumThenRest(bs[0], bs[1], bs[2], Encode(tail));
      SplitFirstThree(bs);
    }
  }

  /** Encoding is injective: different octet strings never share a payload. */
  lemma EncodeInjective(a: seq<byte>, b: seq<byte>)
    requires Encode(a) == Encode(b)
    ensures a == b
  {
    DecodeEncode(a);
    DecodeEncode(b);
  }

  /** The final quantum: whatever `DecodeFinal` accepts re-encodes to the
      same four characters. */
  lemma EncodeDecodeFinal(s: string)
    requires |s| == 4 && DecodeFinal(s).Some?
    ensures Encode(DecodeFinal(s).value) == s
  {
    if ValueOf(s[2]).Some? && ValueOf(s[3]).Some? {
      EncodeFinalFull(s);
    } else if ValueOf(s[2]).Some? {
      EncodeFinalTwo(s);
    } else {
      EncodeFinalOne(s);
    }
  }

  lemma EncodeFinalFull(s: string)
    requires |s| == 4
    requires ValueOf(s[0]).Some? && ValueOf(s[1]).Some? && ValueOf(s[2]).Some? && ValueOf(s[3]).Some?
    ensures Encode(DecodeFinal(s).value) == s
  {
    var v0, v1, v2, v3 := ValueOf(s[0]).value, ValueOf(s[1]).value, ValueOf(s[2]).value, ValueOf(s[3]).value;
    var o := Octets(v0, v1, v2, v3);
    assert DecodeFinal(s) == Some(o);
    SextetArithmetic(v0, v1, v2, v3);
    assert Encode(o) == Quantum(o[0], o[1], o[2]) + Encode(o[3..]);
    assert Quantum(o[0], o[1], o[2]) == s;
  }

  lemma EncodeFinalTwo(s: string)
    requires |s| == 4 && DecodeFinal(s).Some?
    requires ValueOf(s[2]).Some? && ValueOf(s[3]).None?
    ensures Encode(DecodeFinal(s).value) == s
  {
    var v0, v1, v2 := ValueOf(s[0]).value, ValueOf(s[1]).value, ValueOf(s[2]).value;
    var o := Octets(v0, v1, v2, 0)[..2];
    assert s[3] == Pad && v2 % 4 == 0;
    assert DecodeFinal(s) == Some(o);
    SextetArithmetic(v0, v1, v2, 0);
    assert Encode(o) == [Sextet(o[0] / 4), Sextet((o[0] % 4) * 16 + o[1] / 16), Sextet((o[1] % 16) * 4), Pad];
  }

  lemma EncodeFinalOne(s: string)
    requires |s| == 4 && DecodeFinal(s).Some?
    requires ValueOf(s[2]).None?
    ensures Encode(DecodeFinal(s).value) == s
  {
    var v0, v1 := ValueOf(s[0]).value, ValueOf(s[1]).value;
    var o := Octets(v0, v1, 0, 0)[..1];
    assert s[2] == Pad && s[3] == Pad && v1 % 16 == 0;
    assert DecodeFinal(s) == Some(o);
    SextetArithmetic(v0, v1, 0, 0);
    assert Encode(o) == [Sextet(o[0] / 4), Sextet((o[0] % 4) * 16), Pad, Pad];
  }

  /** Encoding a quantum-aligned prefix: three octets then the rest. */
  lemma EncodeThreeThenRest(b0: byte, b1: byte, b2: byte, rest: seq<byte>)
    ensures Encode([b0, b1, b2] + rest) == Quantum(b0, b1, b2) + Encode(rest)
  {
    var bs := [b0, b1, b2] + rest;
    assert bs[3..] == rest;
  }

  /** Four alphabet characters re-encode to themselves through `Octets`. */
  lemma QuantumOfOctets(s: string)
    requires |s| >= 4
    requires ValueOf(s[0]).Some? && ValueOf(s[1]).Some? && ValueOf(s[2]).Some? && ValueOf(s[3]).Some?
    ensures var o := Octets(ValueOf(s[0]).value, ValueOf(s[1]).value, ValueOf(s[2]).value, ValueOf(s[3]).value);
            Quantum(o[0], o[1], o[2]) == s[..4]
  {
    SextetArithmetic(ValueOf(s[0]).value, ValueOf(s[1]).value, ValueOf(s[2]).value, ValueOf(s[3]).value);
  }

  /** A string the strict decoder accepts is exactly the encoding of what it
      decodes to: the decoder and the encoder are inverse on their images. */
  lemma {:induction false} EncodeDecode(s: string)
    requires Decode(s).Some?
    ensures Encode(Decode(s).value) == s
    decreases |s|
  {
    if |s| == 0 {
    } else if |s| == 4 {
      EncodeDecodeFinal(s);
    } else {
      var v0, v1, v2, v3 := ValueOf(s[0]).value, ValueOf(s[1]).value, ValueOf(s[2]).value, ValueOf(s[3]).value;
      var rest := Decode(s[4..]).value;
      var o := Octets(v0, v1, v2, v3);
      assert Decode(s).value == [o[0], o[1], o[2]] + rest;
      EncodeDecode(s[4..]);
      QuantumOfOctets(s);
      EncodeThreeThenRest(o[0], o[1], o[2], rest);
      assert s == s[..4] + s[4..];
    }
  }
}
