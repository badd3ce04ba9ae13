/** The two base64 encoders of the WebSocket handshake against section 4 of RFC 4648. */
module Base64 {
  import opened Bytes

  type sextet = bv6

  const UPPER := "ABCDEFGHIJKLMNOPQRSTUVWXYZ"
  const LOWER := "abcdefghijklmnopqrstuvwxyz"
  const OTHER := "0123456789+/"
  const ALPHABET := UPPER + LOWER + OTHER

  function Symbol(v: sextet): char {
    ALPHABET[v as int]
  }

  // ---------------------------------------------------------------- RFC 4648

  function Sextet0(a: octet): sextet { ((a >> 2) & 0x3f) as sextet }
  function Sextet1(a: octet, b: octet): sextet { (((a & 0x03) << 4) | ((b >> 4) & 0x0f)) as sextet }
  function Sextet2(b: octet, c: octet): sextet { (((b & 0x0f) << 2) | ((c >> 6) & 0x03)) as sextet }
  function Sextet3(c: octet): sextet { (c & 0x3f) as sextet }

  function Group(a: octet, b: octet, c: octet): string {
    [Symbol(Sextet0(a)), Symbol(Sextet1(a, b)), Symbol(Sextet2(b, c)), Symbol(Sextet3(c))]
  }

  /** Groups of 24 bits; zero bits and '=' complete the last one. */
  function Encode(s: seq<octet>): string {
    if s == [] then ""
    else if |s| == 1 then Group(s[0], 0, 0)[..2] + "=="
    else if |s| == 2 then Group(s[0], s[1], 0)[..3] + "="
    else Group(s[0], s[1], s[2]) + Encode(s[3..])
  }

  // ---------------------------------------------------------------- a decoder

  /** Position of a symbol in the alphabet, or 64. */
  function Digit(c: char): nat {
    if 'A' <= c <= 'Z' then c as int - 65
    else if 'a' <= c <= 'z' then c as int - 97 + 26
    else if '0' <= c <= '9' then c as int - 48 + 52
    else if c == '+' then 62
    else if c == '/' then 63
    else 64
  }

  function SextetOf(c: char): sextet {
    if Digit(c) < 64 then Digit(c) as sextet else 0
  }

  function Octet0(x: sextet, y: sextet): octet { ((x as octet) << 2) | ((y as octet) >> 4) }
  function Octet1(y: sextet, z: sextet): octet { ((y as octet) << 4) | ((z as octet) >> 2) }
  function Octet2(z: sextet, u: sextet): octet { ((z as octet) << 6) | (u as octet) }

  function Decode(t: string): seq<octet> {
    if |t| < 4 then []
    else
      var x, y, z, u := SextetOf(t[0]), SextetOf(t[1]), SextetOf(t[2]), SextetOf(t[3]);
      if t[2] == '=' then [Octet0(x, y)]
      else if t[3] == '=' then [Octet0(x, y), Octet1(y, z)]
      else [Octet0(x, y), Octet1(y, z), Octet2(z, u)] + Decode(t[4..])
  }

  // ---------------------------------------------------------------- round trip

  lemma UpperAt(i: nat)
    requires i < 26
    ensures UPPER[i] as int == 65 + i
  {
  }

  lemma LowerAt(i: nat)
    requires i < 26
    ensures LOWER[i] as int == 97 + i
  {
  }

  lemma OtherAt(i: nat)
    requires i < 12
    ensures OTHER[i] as int == if i < 10 then 48 + i else if i == 10 then 43 else 47
  {
  }

  lemma DigitOfSymbol(i: nat)
    requires i < 64
    ensures Digit(ALPHABET[i]) == i
  {
    if i < 26 {
      assert ALPHABET[i] == UPPER[i];
      UpperAt(i);
    } else if i < 52 {
      assert ALPHABET[i] == LOWER[i - 26];
      LowerAt(i - 26);
    } else {
      assert ALPHABET[i] == OTHER[i - 52];
      OtherAt(i - 52);
    }
  }

  lemma SymbolRoundTrip(v: sextet)
    ensures SextetOf(Symbol(v)) == v && Symbol(v) != '='
  {
    DigitOfSymbol(v as int);
    assert Digit('=') == 64;
    hide Digit;
  }

  lemma OctetsOfSextets(a: octet, b: octet, c: octet)
    ensures Octet0(Sextet0(a), Sextet1(a, b)) == a
    ensures Octet1(Sextet1(a, b), Sextet2(b, c)) == b
    ensures Octet2(Sextet2(b, c), Sextet3(c)) == c
  {
  }

  lemma GroupDecodes(a: octet, b: octet, c: octet)
    ensures var g := Group(a, b, c);
            && |g| == 4 && SextetOf(g[0]) == Sextet0(a) && SextetOf(g[1]) == Sextet1(a, b)
            && SextetOf(g[2]) == Sextet2(b, c) && SextetOf(g[3]) == Sextet3(c)
            && g[2] != '=' && g[3] != '='
  {
    hide Symbol, SextetOf, Sextet0, Sextet1, Sextet2, Sextet3;
    SymbolRoundTrip(Sextet0(a));
    SymbolRoundTrip(Sextet1(a, b));
    SymbolRoundTrip(Sextet2(b, c));
    SymbolRoundTrip(Sextet3(c));
  }

  /** Every octet string comes back, and its encoding has 4 * ceil(n / 3) symbols. */
  lemma {:induction false} RoundTrip(s: seq<octet>)
    ensures Decode(Encode(s)) == s
    ensures |Encode(s)| == 4 * ((|s| + 2) / 3)
    decreases |s|
  {
    hide Group, SextetOf, Octet0, Octet1, Octet2, Sextet0, Sextet1, Sextet2, Sextet3;
    if s != [] {
      var a := s[0];
      var b: octet := if |s| > 1 then s[1] else 0;
      var c: octet := if |s| > 2 then s[2] else 0;
      GroupDecodes(a, b, c);
      OctetsOfSextets(a, b, c);
      if |s| >= 3 {
        RoundTrip(s[3..]);
        assert Encode(s)[4..] == Encode(s[3..]);
        assert s == [a, b, c] + s[3..];
      }
    }
  }

  // ---------------------------------------------------------------- the encoder of the client

  /** Three test vectors of section 10 of RFC 4648: one and two octets are padded, three are not. */
  lemma RfcVectors()
    ensures Encode([0x66]) == "Zg==" && Encode([0x66, 0x6f]) == "Zm8=" && Encode([0x66, 0x6f, 0x6f]) == "Zm9v"
  {
    UpperAt(25);
    LowerAt(6);
    LowerAt(12);
    LowerAt(21);
    OtherAt(8);
    OtherAt(9);
    assert [0x66, 0x6f, 0x6f][3..] == [];
  }

  /** `v` in the client's encoder: three octets in one 24-bit number. */
  function Pack(a: octet, b: octet, c: octet): bv32 {
    ((a as bv32) << 16) | ((b as bv32) << 8) | (c as bv32)
  }

  /** `(v >> shift) & 0x3F`. */
  function Bits(v: bv32, shift: nat): sextet
    requires shift < 32
  {
    ((v >> shift) & 0x3f) as sextet
  }

  lemma PackedSextets(a: octet, b: octet, c: octet)
    ensures var v := Pack(a, b, c);
            && Bits(v, 18) == Sextet0(a) && Bits(v, 12) == Sextet1(a, b)
            && Bits(v, 6) == Sextet2(b, c) && Bits(v, 0) == Sextet3(c)
  {
  }

  /** One step of an encoder that works from the front. */
  lemma EncodeFrom(s: seq<octet>, i: nat)
    requires i <= |s|
    ensures i == |s| ==> Encode(s[i..]) == []
    ensures i + 1 == |s| ==> Encode(s[i..]) == [Symbol(Sextet0(s[i])), Symbol(Sextet1(s[i], 0)), '=', '=']
    ensures i + 2 == |s| ==>
              Encode(s[i..])
              == [Symbol(Sextet0(s[i])), Symbol(Sextet1(s[i], s[i + 1])), Symbol(Sextet2(s[i + 1], 0)), '=']
    ensures i + 3 <= |s| ==> Encode(s[i..]) == Group(s[i], s[i + 1], s[i + 2]) + Encode(s[i + 3..])
  {
    hide Symbol, Sextet0, Sextet1, Sextet2, Sextet3;
    assert i + 3 <= |s| ==> s[i..][3..] == s[i + 3..];
  }

  /** `base64Encode`. */
  method Base64Encode(data: seq<octet>) returns (out: string)
    ensures out == Encode(data)
  {
    hide Symbol, Bits, Pack, Encode, Sextet0, Sextet1, Sextet2, Sextet3;
    out := [];
    var i := 0;
    while i + 3 <= |data|
      invariant 0 <= i <= |data|
      invariant out + Encode(data[i..]) == Encode(data)
    {
      var v := Pack(data[i], data[i + 1], data[i + 2]);
      PackedSextets(data[i], data[i + 1], data[i + 2]);
      EncodeFrom(data, i);
      out := out + [Symbol(Bits(v, 18)), Symbol(Bits(v, 12)), Symbol(Bits(v, 6)), Symbol(Bits(v, 0))];
      i := i + 3;
    }
    EncodeFrom(data, i);
    if i < |data| {
      if i + 1 < |data| {
        var v := Pack(data[i], data[i + 1], 0);
        PackedSextets(data[i], data[i + 1], 0);
        out := out + [Symbol(Bits(v, 18)), Symbol(Bits(v, 12)), Symbol(Bits(v, 6)), '='];
      } else {
        var v := Pack(data[i], 0, 0);
        PackedSextets(data[i], 0, 0);
        out := out + [Symbol(Bits(v, 18)), Symbol(Bits(v, 12)), '=', '='];
      }
    }
  }

  // ---------------------------------------------------------------- the unrolled encoder of the key generator

  lemma UnrolledSextets(a: octet, b: octet, c: octet)
    ensures (a >> 2) & 63 < 64 && ((a & 3) << 4) | ((b & 240) >> 4) < 64
    ensures ((b & 15) << 2) | ((c & 192) >> 6) < 64 && c & 63 < 64
    ensures ((a >> 2) & 63) as sextet == Sextet0(a)
    ensures (((a & 3) << 4) | ((b & 240) >> 4)) as sextet == Sextet1(a, b)
    ensures (((b & 15) << 2) | ((c & 192) >> 6)) as sextet == Sextet2(b, c)
    ensures (c & 63) as sextet == Sextet3(c)
    ensures (b & 15) << 2 < 64 && ((b & 15) << 2) as sextet == Sextet2(b, 0)
  {
  }

  method PutGroup(a: octet, b: octet, c: octet, dst: array<char>, j: nat)
    requires j + 4 <= dst.Length
    modifies dst
    ensures dst[..j] == old(dst[..j]) && dst[j..j + 4] == Group(a, b, c)
  {
    hide Symbol, Sextet0, Sextet1, Sextet2, Sextet3;
    UnrolledSextets(a, b, c);
    dst[j] := Symbol(((a >> 2) & 63) as sextet);
    dst[j + 1] := Symbol((((a & 3) << 4) | ((b & 240) >> 4)) as sextet);
    dst[j + 2] := Symbol((((b & 15) << 2) | ((c & 192) >> 6)) as sextet);
    dst[j + 3] := Symbol((c & 63) as sextet);
  }

  method PutLast(a: octet, b: octet, dst: array<char>)
    requires dst.Length == 28
    modifies dst
    ensures dst[..24] == old(dst[..24])
    ensures dst[24..] == [Symbol(Sextet0(a)), Symbol(Sextet1(a, b)), Symbol(Sextet2(b, 0)), '=']
  {
    hide Symbol, Sextet0, Sextet1, Sextet2, Sextet3;
    UnrolledSextets(a, b, 0);
    dst[24] := Symbol(((a >> 2) & 63) as sextet);
    dst[25] := Symbol((((a & 3) << 4) | ((b & 240) >> 4)) as sextet);
    dst[26] := Symbol(((b & 15) << 2) as sextet);
    dst[27] := '=';
  }

  /** `base64` of the key generator: always 20 octets into 28 symbols. */
  method Base64Of20(src: seq<octet>, dst: array<char>)
    requires |src| == 20 && dst.Length == 28
    modifies dst
    ensures dst[..] == Encode(src)
  {
    hide Symbol, Group, Encode, Sextet0, Sextet1, Sextet2, Sextet3;
    var i, j := 0, 0;
    assert src[0..] == src && dst[..0] == [];
    while i < 18
      invariant 0 <= i <= 18 && i % 3 == 0 && j == i / 3 * 4
      invariant dst[..j] + Encode(src[i..]) == Encode(src)
    {
      ghost var before := dst[..j];
      EncodeFrom(src, i);
      PutGroup(src[i], src[i + 1], src[i + 2], dst, j);
      assert dst[..j + 4] == before + Group(src[i], src[i + 1], src[i + 2]);
      i, j := i + 3, j + 4;
    }
    EncodeFrom(src, 18);
    ghost var before := dst[..24];
    PutLast(src[18], src[19], dst);
    assert dst[..] == before + dst[24..];
  }
}
