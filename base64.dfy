/** Go's `base64.StdEncoding`: the standard alphabet with `=` padding of
    section 4 of RFC 4648. `DecodeString` skips carriage returns and line
    feeds, demands whole four-character quanta with padding only at the very
    end, and (not being the strict variant) ignores the unused low bits of
    the last character before the padding. */
module Base64 {
  import opened AuthTypes
  import GoStrings

  newtype byte = x: int | 0 <= x < 256

  type Sextet = v: nat | v < 64

  const Pad: char := '='

  /** The character of a six-bit value in the alphabet of Table 1 of RFC 4648. */
  function CharOf(v: Sextet): char {
    if v < 26 then ('A' as int + v) as char
    else if v < 52 then ('a' as int + (v - 26)) as char
    else if v < 62 then ('0' as int + (v - 52)) as char
    else if v == 62 then '+'
    else '/'
  }

  /** The six-bit value of an alphabet character; `None` for any other. */
  function ValueOf(c: char): (r: Option<Sextet>)
    ensures r.Some? ==> CharOf(r.value) == c
    ensures r.None? ==> forall v: Sextet :: CharOf(v) != c
  {
    if 'A' <= c <= 'Z' then Some(c as int - 'A' as int)
    else if 'a' <= c <= 'z' then Some(c as int - 'a' as int + 26)
    else if '0' <= c <= '9' then Some(c as int - '0' as int + 52)
    else if c == '+' then Some(62)
    else if c == '/' then Some(63)
    else None
  }

  /** Every alphabet character reads back as the value it encodes. */
  lemma ValueOfCharOf(v: Sextet)
    ensures ValueOf(CharOf(v)) == Some(v)
  {
    var r := ValueOf(CharOf(v));
    assert r.Some?;
    assert CharOf(r.value) == CharOf(v);
  }

  /** The characters an encoding is made of. */
  predicate IsEncodingChar(c: char) {
    ValueOf(c).Some? || c == Pad
  }

  /** No encoding character is white space or a line break. */
  lemma EncodingCharNotSpace(c: char)
    requires IsEncodingChar(c)
    ensures !GoStrings.IsSpace(c) && c != '\r' && c != '\n'
  {
  }

  /** The bytes of a group of one to three, zero-filled to three, read as a
      24-bit number, most significant byte first. */
  function GroupBits(g: seq<byte>): (n: nat)
    requires 1 <= |g| <= 3
    ensures n < 0x100_0000
  {
    g[0] as int * 0x1_0000 + (if |g| > 1 then g[1] as int * 256 else 0) + (if |g| > 2 then g[2] as int else 0)
  }

  /** One quantum of output for a group of one to three bytes: the 24-bit
      group cut into four sextets, most significant first; a short group
      is filled with zero bits and its missing sextets are `=`. */
  function EncodeGroup(g: seq<byte>): (q: string)
    requires 1 <= |g| <= 3
    ensures |q| == 4
    ensures forall i :: 0 <= i < 4 ==> IsEncodingChar(q[i])
    ensures q[0] != Pad && q[1] != Pad
    ensures (q[2] == Pad <==> |g| == 1) && (q[3] == Pad <==> |g| < 3)
  {
    var n := GroupBits(g);
    ValueOfCharOf(n / 0x4_0000);
    ValueOfCharOf(n / 0x1000 % 64);
    ValueOfCharOf(n / 64 % 64);
    ValueOfCharOf(n % 64);
    [CharOf(n / 0x4_0000), CharOf(n / 0x1000 % 64),
     if |g| > 1 then CharOf(n / 64 % 64) else Pad,
     if |g| > 2 then CharOf(n % 64) else Pad]
  }

  /** `StdEncoding.EncodeToString`. */
  function Encode(bs: seq<byte>): (s: string)
    ensures |s| == (|bs| + 2) / 3 * 4
    ensures forall i :: 0 <= i < |s| ==> IsEncodingChar(s[i])
    decreases |bs|
  {
    if |bs| == 0 then ""
    else if |bs| <= 3 then EncodeGroup(bs)
    else
      var head, tail := EncodeGroup(bs[..3]), Encode(bs[3..]);
      assert forall i :: 0 <= i < |head + tail| ==> IsEncodingChar((head + tail)[i]) by {
        forall i | 0 <= i < |head + tail| ensures IsEncodingChar((head + tail)[i]) {
          if i < 4 {
            assert (head + tail)[i] == head[i];
          } else {
            assert (head + tail)[i] == tail[i - 4];
          }
        }
      }
      head + tail
  }

  /** `s` with every carriage return and line feed taken out. */
  function RemoveNewlines(s: string): (r: string)
    ensures forall i :: 0 <= i < |r| ==> r[i] != '\r' && r[i] != '\n'
    ensures (forall i :: 0 <= i < |s| ==> s[i] != '\r' && s[i] != '\n') ==> r == s
    decreases |s|
  {
    if s == [] then []
    else if s[0] == '\r' || s[0] == '\n' then RemoveNewlines(s[1..])
    else [s[0]] + RemoveNewlines(s[1..])
  }

  /** The six-bit value of a character, the padding and every other
      character outside the alphabet counting as zero bits. */
  function SextetOf(c: char): (v: Sextet)
    ensures ValueOf(c).Some? ==> v == ValueOf(c).value
  {
    match ValueOf(c)
    case Some(v) => v
    case None => 0
  }

  /** The 24-bit group a quantum stands for, its first character giving the
      most significant six bits. */
  function QuantumBits(q: string): (n: nat)
    requires |q| == 4
    ensures n < 0x100_0000
  {
    SextetOf(q[0]) * 0x4_0000 + SextetOf(q[1]) * 0x1000 + SextetOf(q[2]) * 64 + SextetOf(q[3])
  }

  /** The number of bytes a quantum carries: one with two padding
      characters, two with one, three with none. */
  function QuantumLength(q: string): (k: nat)
    requires |q| == 4
    ensures 1 <= k <= 3
  {
    if q[2] == Pad then 1 else if q[3] == Pad then 2 else 3
  }

  /** The first `k` bytes of a 24-bit group, most significant first. */
  function GroupBytes(n: nat, k: nat): (g: seq<byte>)
    requires n < 0x100_0000 && 1 <= k <= 3
    ensures |g| == k
  {
    [(n / 0x1_0000) as byte, (n / 256 % 256) as byte, (n % 256) as byte][..k]
  }

  /** One four-character quantum; `=` may stand only in the last two places
      and only in the final quantum (`last`). The quantum decodes exactly
      when its first two characters are in the alphabet and either the last
      two are padding and it is the final quantum, or the third is in the
      alphabet and the fourth is in the alphabet or, in the final quantum,
      padding. The bytes are the leading ones of the quantum's 24-bit group,
      one fewer for each padding character. */
  function DecodeQuantum(q: string, last: bool): (r: Option<seq<byte>>)
    requires |q| == 4
    ensures r.Some? <==>
      && ValueOf(q[0]).Some? && ValueOf(q[1]).Some?
      && if q[2] == Pad then q[3] == Pad && last
         else ValueOf(q[2]).Some? && (q[3] == Pad ==> last) && (q[3] != Pad ==> ValueOf(q[3]).Some?)
    ensures r.Some? ==> |r.value| == QuantumLength(q) && (|r.value| < 3 ==> last)
    ensures r.Some? ==> r.value[0] as int == SextetOf(q[0]) * 4 + SextetOf(q[1]) / 16
    ensures r.Some? && |r.value| > 1 ==> r.value[1] as int == SextetOf(q[1]) % 16 * 16 + SextetOf(q[2]) / 4
    ensures r.Some? && |r.value| > 2 ==> r.value[2] as int == SextetOf(q[2]) % 4 * 64 + SextetOf(q[3])
    ensures r.Some? ==> forall i :: 0 <= i < 4 ==> IsEncodingChar(q[i])
  {
    SextetsToBytes(SextetOf(q[0]), SextetOf(q[1]), SextetOf(q[2]), SextetOf(q[3]));
    if ValueOf(q[0]).None? || ValueOf(q[1]).None? then None
    else if q[2] == Pad then
      if q[3] == Pad && last then Some(GroupBytes(QuantumBits(q), 1)) else None
    else if ValueOf(q[2]).None? then None
    else if q[3] == Pad then
      if last then Some(GroupBytes(QuantumBits(q), 2)) else None
    else if ValueOf(q[3]).None? then None
    else Some(GroupBytes(QuantumBits(q), 3))
  }

  /** A run of quanta with padding allowed only in the last one. */
  function DecodeQuanta(s: string): (r: Option<seq<byte>>)
    ensures r.Some? ==> |s| % 4 == 0 && |r.value| <= |s| / 4 * 3
    ensures r.Some? ==> (r.value == [] <==> s == [])
    decreases |s|
  {
    if s == [] then Some([])
    else if |s| < 4 then None
    else
      match DecodeQuantum(s[..4], |s| == 4)
      case None => None
      case Some(g) =>
        match DecodeQuanta(s[4..])
        case None => None
        case Some(rest) => Some(g + rest)
  }

  /** `StdEncoding.DecodeString`. */
  function DecodeString(s: string): (r: Option<seq<byte>>)
    ensures r.Some? ==> |RemoveNewlines(s)| % 4 == 0
  {
    DecodeQuanta(RemoveNewlines(s))
  }

  /** Taking out line breaks keeps every other character. */
  lemma {:induction false} RemoveNewlinesKeeps(s: string, c: char)
    requires c != '\r' && c != '\n'
    ensures c in RemoveNewlines(s) <==> c in s
    decreases |s|
  {
    if s != [] {
      RemoveNewlinesKeeps(s[1..], c);
      assert s == [s[0]] + s[1..];
    }
  }

  /** A run of quanta holding a character outside the alphabet and the padding
      does not decode. */
  lemma {:induction false} ForeignCharRejectedQuanta(s: string, c: char)
    requires c in s && !IsEncodingChar(c)
    ensures DecodeQuanta(s) == None
    decreases |s|
  {
    if |s| >= 4 {
      if c in s[..4] {
        var i :| 0 <= i < 4 && s[..4][i] == c;
      } else {
        assert s == s[..4] + s[4..];
        ForeignCharRejectedQuanta(s[4..], c);
      }
    }
  }

  /** `DecodeString` rejects any token holding a character that is neither in
      the alphabet, nor the padding, nor a line break. */
  lemma ForeignCharRejected(s: string, c: char)
    requires c in s && !IsEncodingChar(c) && c != '\r' && c != '\n'
    ensures DecodeString(s) == None
  {
    RemoveNewlinesKeeps(s, c);
    ForeignCharRejectedQuanta(RemoveNewlines(s), c);
  }

  /** The bytes of a 24-bit group read back by division. */
  lemma BytesOfGroup(x: nat, y: nat, z: nat)
    requires x < 256 && y < 256 && z < 256
    ensures var n := x * 0x1_0000 + y * 256 + z;
            n / 0x1_0000 == x && n / 256 % 256 == y && n % 256 == z
  {
    var n := x * 0x1_0000 + y * 256 + z;
    assert n / 256 == x * 256 + y;
  }

  /** The sextets of a 24-bit group read back by division. */
  lemma SextetsOfGroup(a: Sextet, b: Sextet, c: Sextet, d: Sextet)
    ensures var n := a * 0x4_0000 + b * 0x1000 + c * 64 + d;
            n / 0x4_0000 == a && n / 0x1000 % 64 == b && n / 64 % 64 == c && n % 64 == d
  {
    var n := a * 0x4_0000 + b * 0x1000 + c * 64 + d;
    assert n / 64 == a * 0x1000 + b * 64 + c;
    assert n / 0x1000 == a * 64 + b;
  }

  /** Every 24-bit number is made of its four sextets. */
  lemma GroupOfSextets(n: nat)
    requires n < 0x100_0000
    ensures n == n / 0x4_0000 * 0x4_0000 + n / 0x1000 % 64 * 0x1000 + n / 64 % 64 * 64 + n % 64
  {
    assert n / 64 / 64 == n / 0x1000 && n / 0x1000 / 64 == n / 0x4_0000;
  }

  /** Four sextets packed into three bytes: the first byte is the first
      sextet and the high two bits of the second, and so on. */
  lemma SextetsToBytes(a: Sextet, b: Sextet, c: Sextet, d: Sextet)
    ensures var n := a * 0x4_0000 + b * 0x1000 + c * 64 + d;
            && n / 0x1_0000 == a * 4 + b / 16
            && n / 256 % 256 == b % 16 * 16 + c / 4
            && n % 256 == c % 4 * 64 + d
  {
    var x, y, z := a * 4 + b / 16, b % 16 * 16 + c / 4, c % 4 * 64 + d;
    assert b == b / 16 * 16 + b % 16 && c == c / 4 * 4 + c % 4;
    assert a * 0x4_0000 + b * 0x1000 + c * 64 + d == x * 0x1_0000 + y * 256 + z;
    BytesOfGroup(x, y, z);
  }

  /** Dropping the last byte, or the last two, of the group of four
      sextets clears the low two bits of the third sextet and the fourth, or
      the low four bits of the second and the rest. */
  lemma ClearedSextets(a: Sextet, b: Sextet, c: Sextet, d: Sextet)
    ensures var n := a * 0x4_0000 + b * 0x1000 + c * 64 + d;
            && n / 256 * 256 == a * 0x4_0000 + b * 0x1000 + c / 4 * 4 * 64
            && n / 0x1_0000 * 0x1_0000 == a * 0x4_0000 + b / 16 * 16 * 0x1000
  {
    SextetsToBytes(a, b, c, d);
  }

  /** The sextets that fall in no byte of a short group are zero. */
  lemma PaddedGroupSextets(g: seq<byte>)
    requires 1 <= |g| <= 3
    ensures |g| < 3 ==> GroupBits(g) % 64 == 0
    ensures |g| == 1 ==> GroupBits(g) / 64 % 64 == 0
  {
  }

  /** The sextet of the character of a sextet is that sextet. */
  lemma SextetOfCharOf(v: Sextet)
    ensures SextetOf(CharOf(v)) == v
  {
    ValueOfCharOf(v);
  }

  /** The quantum of a group stands for the group's bits and, by its
      padding, for the group's length. */
  lemma EncodeGroupBits(g: seq<byte>)
    requires 1 <= |g| <= 3
    ensures QuantumBits(EncodeGroup(g)) == GroupBits(g)
    ensures QuantumLength(EncodeGroup(g)) == |g|
  {
    var n := GroupBits(g);
    var s0, s1, s2, s3 := n / 0x4_0000, n / 0x1000 % 64, n / 64 % 64, n % 64;
    SextetOfCharOf(s0);
    SextetOfCharOf(s1);
    SextetOfCharOf(s2);
    SextetOfCharOf(s3);
    GroupOfSextets(n);
    PaddedGroupSextets(g);
    var q := EncodeGroup(g);
    assert q[0] == CharOf(s0) && q[1] == CharOf(s1);
    assert SextetOf(q[2]) == s2 && SextetOf(q[3]) == s3;
  }

  /** Decoding the quantum of a group gives back the group. */
  lemma DecodeGroup(g: seq<byte>, last: bool)
    requires 1 <= |g| <= 3
    requires |g| < 3 ==> last
    ensures DecodeQuantum(EncodeGroup(g), last) == Some(g)
  {
    EncodeGroupBits(g);
    var b0, b1, b2 := g[0] as int, (if |g| > 1 then g[1] else 0) as int, (if |g| > 2 then g[2] else 0) as int;
    BytesOfGroup(b0, b1, b2);
    var bytes := GroupBytes(GroupBits(g), |g|);
    assert forall i :: 0 <= i < |g| ==> bytes[i] == g[i];
    assert bytes == g;
  }

  /** Round trip: decoding an encoding gives back the bytes. */
  lemma {:induction false} DecodeEncode(bs: seq<byte>)
    ensures DecodeString(Encode(bs)) == Some(bs)
  {
    var e := Encode(bs);
    assert RemoveNewlines(e) == e by {
      forall i | 0 <= i < |e| ensures e[i] != '\r' && e[i] != '\n' {
        EncodingCharNotSpace(e[i]);
      }
    }
    DecodeQuantaEncode(bs);
  }

  lemma {:induction false} DecodeQuantaEncode(bs: seq<byte>)
    ensures DecodeQuanta(Encode(bs)) == Some(bs)
    decreases |bs|
  {
    if |bs| == 0 {
    } else if |bs| <= 3 {
      var e := Encode(bs);
      DecodeGroup(bs, true);
      assert e[..4] == e && e[4..] == [];
      assert bs + [] == bs;
    } else {
      var e := Encode(bs);
      assert e == EncodeGroup(bs[..3]) + Encode(bs[3..]);
      assert e[..4] == EncodeGroup(bs[..3]) && e[4..] == Encode(bs[3..]);
      DecodeGroup(bs[..3], |e| == 4);
      DecodeQuantaEncode(bs[3..]);
      assert bs == bs[..3] + bs[3..];
    }
  }

  /** The quantum with the low bits the decoder ignores cleared: the four
      low bits of the second character before two padding characters, the
      two low bits of the third before one. */
  function CanonQuantum(q: string): (c: string)
    requires |q| == 4
    ensures |c| == 4
  {
    if q[2] == Pad then [q[0], CharOf(SextetOf(q[1]) / 16 * 16), Pad, Pad]
    else if q[3] == Pad then [q[0], q[1], CharOf(SextetOf(q[2]) / 4 * 4), Pad]
    else q
  }

  /** `CanonQuantum` of every quantum of a run. */
  function CanonQuanta(s: string): (c: string)
    requires |s| % 4 == 0
    ensures |c| == |s|
    decreases |s|
  {
    if s == [] then [] else CanonQuantum(s[..4]) + CanonQuanta(s[4..])
  }

  /** The bits of the bytes of a quantum: its group with the bits that fall
      in no byte cleared. */
  lemma GroupBitsOfBytes(n: nat, k: nat)
    requires n < 0x100_0000 && 1 <= k <= 3
    ensures GroupBits(GroupBytes(n, k)) == if k == 1 then n / 0x1_0000 * 0x1_0000
                                           else if k == 2 then n / 256 * 256
                                           else n
  {
    assert n / 256 == n / 0x1_0000 * 256 + n / 256 % 256;
  }

  /** An alphabet character is the character of its sextet. */
  lemma CharOfSextetOf(c: char)
    requires ValueOf(c).Some?
    ensures CharOf(SextetOf(c)) == c
  {
  }

  /** Encoding the bytes of a quantum gives back the quantum, up to the
      ignored low bits. */
  lemma EncodeDecodeQuantum(q: string, last: bool)
    requires |q| == 4 && DecodeQuantum(q, last).Some?
    ensures EncodeGroup(DecodeQuantum(q, last).value) == CanonQuantum(q)
  {
    var g := DecodeQuantum(q, last).value;
    var a, b, c, d := SextetOf(q[0]), SextetOf(q[1]), SextetOf(q[2]), SextetOf(q[3]);
    GroupBitsOfBytes(QuantumBits(q), |g|);
    ClearedSextets(a, b, c, d);
    CharOfSextetOf(q[0]);
    if |g| == 1 {
      ReencodeOne(q, g);
    } else if |g| == 2 {
      CharOfSextetOf(q[1]);
      ReencodeTwo(q, g);
    } else {
      CharOfSextetOf(q[1]);
      CharOfSextetOf(q[2]);
      CharOfSextetOf(q[3]);
      ReencodeThree(q, g);
    }
  }

  lemma ReencodeThree(q: string, g: seq<byte>)
    requires |q| == 4 && |g| == 3 && forall i :: 0 <= i < 4 ==> CharOf(SextetOf(q[i])) == q[i]
    requires GroupBits(g) == QuantumBits(q)
    ensures EncodeGroup(g) == q
  {
    SextetsOfGroup(SextetOf(q[0]), SextetOf(q[1]), SextetOf(q[2]), SextetOf(q[3]));
    var e := EncodeGroup(g);
    assert e[0] == q[0] && e[1] == q[1] && e[2] == q[2] && e[3] == q[3];
  }

  lemma ReencodeOne(q: string, g: seq<byte>)
    requires |q| == 4 && |g| == 1 && CharOf(SextetOf(q[0])) == q[0]
    requires GroupBits(g) == SextetOf(q[0]) * 0x4_0000 + SextetOf(q[1]) / 16 * 16 * 0x1000
    ensures EncodeGroup(g) == [q[0], CharOf(SextetOf(q[1]) / 16 * 16), Pad, Pad]
  {
    SextetsOfGroup(SextetOf(q[0]), SextetOf(q[1]) / 16 * 16, 0, 0);
  }

  lemma ReencodeTwo(q: string, g: seq<byte>)
    requires |q| == 4 && |g| == 2 && CharOf(SextetOf(q[0])) == q[0] && CharOf(SextetOf(q[1])) == q[1]
    requires GroupBits(g) == SextetOf(q[0]) * 0x4_0000 + SextetOf(q[1]) * 0x1000 + SextetOf(q[2]) / 4 * 4 * 64
    ensures EncodeGroup(g) == [q[0], q[1], CharOf(SextetOf(q[2]) / 4 * 4), Pad]
  {
    SextetsOfGroup(SextetOf(q[0]), SextetOf(q[1]), SextetOf(q[2]) / 4 * 4, 0);
  }

  /** Encoding what a run of quanta decodes to gives back the run, up to
      the ignored low bits. */
  lemma {:induction false} EncodeDecodeQuanta(s: string)
    requires DecodeQuanta(s).Some?
    ensures |s| % 4 == 0 && Encode(DecodeQuanta(s).value) == CanonQuanta(s)
    decreases |s|
  {
    if s != [] {
      var g := DecodeQuantum(s[..4], |s| == 4).value;
      var rest := DecodeQuanta(s[4..]).value;
      EncodeDecodeQuantum(s[..4], |s| == 4);
      EncodeDecodeQuanta(s[4..]);
      if rest == [] {
        assert g + rest == g;
      } else {
        assert |g| == 3;
        assert (g + rest)[..3] == g && (g + rest)[3..] == rest;
      }
    }
  }

  /** The reverse round trip: a token that decodes is the encoding of its
      bytes, once line breaks are taken out and the ignored low bits are
      cleared. */
  lemma EncodeDecode(s: string)
    requires DecodeString(s).Some?
    ensures Encode(DecodeString(s).value) == CanonQuanta(RemoveNewlines(s))
  {
    EncodeDecodeQuanta(RemoveNewlines(s));
  }

  /** A token that is an encoding with line breaks put anywhere in it
      decodes to the encoded bytes. */
  lemma DecodeWithNewlines(s: string, bs: seq<byte>)
    requires RemoveNewlines(s) == Encode(bs)
    ensures DecodeString(s) == Some(bs)
  {
    DecodeQuantaEncode(bs);
  }

  /** The decoder is lenient about the unused bits before the padding: "YR=="
      and the canonical "YQ==" both decode to the single byte 'a'. */
  lemma LenientTrailingBits()
    ensures DecodeString("YR==") == DecodeString("YQ==") == Some([97])
  {
    SampleQuantum("YR==", 17);
    SampleQuantum("YQ==", 16);
  }

  /** The final quantum `Y?==`, for a second character of value 16 to 31,
      is the one byte 'a'. */
  lemma SampleQuantum(s: string, v: Sextet)
    requires s == ['Y', CharOf(v), Pad, Pad] && 16 <= v < 32
    ensures DecodeString(s) == Some([97])
  {
    ValueOfCharOf(v);
    assert ValueOf('Y') == Some(24);
    assert RemoveNewlines(s) == s;
    var r := DecodeQuantum(s, true);
    assert r.Some? && |r.value| == 1 && r.value[0] == 97;
    assert s[..4] == s && s[4..] == [];
    assert DecodeQuanta(s[4..]) == Some([]);
    assert r.value + [] == [97];
  }
}
