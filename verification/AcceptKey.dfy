/** The Sec-WebSocket-Accept value (section 4.2.2 of RFC 6455): base64 of the SHA-1 digest of the
    client's key followed by a fixed GUID. */
module AcceptKey {
  import opened Bytes
  import opened Sha1
  import Base64

  // ---------------------------------------------------------------- sections 5 and 6 of FIPS 180-4

  const H0: Chain := [0x67452301, 0xefcdab89, 0x98badcfe, 0x10325476, 0xc3d2e1f0]

  function Octets(s: seq<byte>): (r: seq<octet>)
    ensures |r| == |s|
  {
    seq(|s|, i requires 0 <= i < |s| => s[i] as octet)
  }

  /** Section 5.1.1: a one bit, as few zero bits as possible, and the length in bits as 64 bits. */
  function Pad(msg: seq<octet>): seq<octet> {
    var zeros := (119 - |msg| % 64) % 64;
    msg + [0x80] + seq(zeros, _ => 0) + Octets(BigEndian(8 * |msg|, 8))
  }

  /** Padding fills whole blocks, and would not with fewer zero bits. */
  lemma PadFillsBlocks(msg: seq<octet>)
    ensures |Pad(msg)| % 64 == 0 && |msg| + 9 <= |Pad(msg)| < |msg| + 9 + 64
  {
    var r, zeros := |msg| % 64, (119 - |msg| % 64) % 64;
    assert |Pad(msg)| == |msg| + 9 + zeros;
    assert r <= 55 ==> zeros == 55 - r;
    assert r > 55 ==> zeros == 119 - r;
    AddMultiple(0, |msg| / 64 + if r <= 55 then 1 else 2, 64);
  }

  function Word(s: seq<octet>, i: nat): word
    requires i + 4 <= |s|
  {
    Join(s[i], s[i + 1], s[i + 2], s[i + 3])
  }

  function Join(a: octet, b: octet, c: octet, d: octet): word {
    ((a as word) << 24) | ((b as word) << 16) | ((c as word) << 8) | (d as word)
  }

  function BlockAt(s: seq<octet>, k: nat): Block
    requires 64 * (k + 1) <= |s|
  {
    seq(16, j requires 0 <= j < 16 => Word(s, 64 * k + 4 * j))
  }

  function HashFrom(h: Chain, s: seq<octet>, k: nat): Chain
    decreases |s| - 64 * k
  {
    if 64 * (k + 1) > |s| then h else HashFrom(Compress(h, BlockAt(s, k)), s, k + 1)
  }

  function WordOctets(w: word): seq<octet> {
    [((w >> 24) & 0xff) as octet, ((w >> 16) & 0xff) as octet, ((w >> 8) & 0xff) as octet, (w & 0xff) as octet]
  }

  function ChainOctets(h: Chain): (r: seq<octet>)
    ensures |r| == 20
  {
    WordOctets(h[0]) + WordOctets(h[1]) + WordOctets(h[2]) + WordOctets(h[3]) + WordOctets(h[4])
  }

  function Digest(msg: seq<octet>): seq<octet> {
    ChainOctets(HashFrom(H0, Pad(msg), 0))
  }

  // ---------------------------------------------------------------- the accept value

  /** "258EAFA5-E914-47DA-95CA-C5AB0DC85B11" */
  const GUID: seq<octet> := [
    0x32, 0x35, 0x38, 0x45, 0x41, 0x46, 0x41, 0x35, 0x2d, 0x45, 0x39, 0x31,
    0x34, 0x2d, 0x34, 0x37, 0x44, 0x41, 0x2d, 0x39, 0x35, 0x43, 0x41, 0x2d,
    0x43, 0x35, 0x41, 0x42, 0x30, 0x44, 0x43, 0x38, 0x35, 0x42, 0x31, 0x31]

  /** What `strncpy` leaves in the 24 bytes: the string up to its first NUL, cut or filled with NULs. */
  function Field24(s: seq<octet>): (r: seq<octet>)
    ensures |r| == 24
  {
    seq(24, i requires 0 <= i < 24 => if i < |s| && 0 !in s[..i + 1] then s[i] else 0)
  }

  /** A 24-octet key is copied faithfully exactly when nothing but NULs follows its first NUL. */
  lemma Field24Faithful(key: seq<octet>)
    requires |key| == 24
    ensures Field24(key) == key <==> forall i, j :: 0 <= i < j < 24 && key[i] == 0 ==> key[j] == 0
  {
    if Field24(key) == key {
      forall i, j | 0 <= i < j < 24 && key[i] == 0
        ensures key[j] == 0
      {
        assert key[..j + 1][i] == 0;
        assert Field24(key)[j] == 0;
      }
    }
    if forall i, j :: 0 <= i < j < 24 && key[i] == 0 ==> key[j] == 0 {
      forall i | 0 <= i < 24
        ensures Field24(key)[i] == key[i]
      {
        if 0 in key[..i + 1] {
          var j :| 0 <= j < i + 1 && key[..i + 1][j] == 0;
          assert key[j] == 0;
        }
      }
    }
  }

  const TAIL: seq<word> := [
    0x32353845, 0x41464135, 0x2d453931, 0x342d3437, 0x44412d39,
    0x3543412d, 0x43354142, 0x30444338, 0x35423131, 0x80000000]

  function KeyWords(key: seq<octet>): seq<word>
    requires |key| == 24
  {
    seq(6, i requires 0 <= i < 6 => Word(key, 4 * i))
  }

  lemma PadOf60(key: seq<octet>)
    requires |key| == 24
    ensures Pad(key + GUID)
            == key + (GUID + [0x80, 0, 0, 0]) + (seq(56, _ => 0) + [0, 0, 0, 0, 0, 0, 1, 0xe0])
  {
    var msg := key + GUID;
    assert |msg| == 60 && (119 - 60) % 64 == 59;
    LengthOf60();
    hide BigEndian, Octets;
    assert [0x80 as octet] + seq(59, _ => 0) == [0x80, 0, 0, 0] + seq(56, _ => 0);
  }

  lemma WordsOf(s: seq<octet>, part: seq<octet>, at: nat, i: nat)
    requires at + |part| <= |s| && s[at..at + |part|] == part && i + 4 <= |part|
    ensures Word(s, at + i) == Word(part, i)
  {
    hide Join;
    assert s[at..at + |part|][i] == s[at + i] && s[at..at + |part|][i + 1] == s[at + i + 1];
    assert s[at..at + |part|][i + 2] == s[at + i + 2] && s[at..at + |part|][i + 3] == s[at + i + 3];
  }

  /** The two hard-coded blocks are the padding of key ++ GUID. */
  lemma BlocksArePadding(key: seq<octet>)
    requires |key| == 24
    ensures |Pad(key + GUID)| == 128
    ensures BlockAt(Pad(key + GUID), 0) == KeyWords(key) + TAIL
    ensures BlockAt(Pad(key + GUID), 1) == seq(15, _ => 0) + [480]
  {
    PadOf60(key);
    hide Pad, Word;
    var p := Pad(key + GUID);
    assert p[0..24] == key;
    assert p[24..64] == GUID + [0x80, 0, 0, 0];
    assert p[64..128] == seq(56, _ => 0) + [0, 0, 0, 0, 0, 0, 1, 0xe0];
    FirstBlock(p, key);
    SecondBlock(p);
  }

  lemma FirstBlock(p: seq<octet>, key: seq<octet>)
    requires |p| == 128 && |key| == 24 && p[0..24] == key && p[24..64] == GUID + [0x80, 0, 0, 0]
    ensures BlockAt(p, 0) == KeyWords(key) + TAIL
  {
    hide Word;
    forall i | 0 <= i < 6
      ensures Word(p, 4 * i) == Word(key, 4 * i)
    {
      WordsOf(p, key, 0, 4 * i);
    }
    var middle := p[24..64];
    forall i | 6 <= i < 16
      ensures Word(p, 4 * i) == TAIL[i - 6]
    {
      WordsOf(p, middle, 24, 4 * (i - 6));
      TailWords(i - 6);
    }
  }

  lemma SecondBlock(p: seq<octet>)
    requires |p| == 128 && p[64..128] == seq(56, _ => 0) + [0, 0, 0, 0, 0, 0, 1, 0xe0]
    ensures BlockAt(p, 1) == seq(15, _ => 0) + [480]
  {
    hide Word;
    var end := p[64..128];
    forall i | 0 <= i < 16
      ensures Word(p, 64 + 4 * i) == if i < 15 then 0 else 480
    {
      WordsOf(p, end, 64, 4 * i);
      LengthWords(i);
    }
  }

  lemma LengthWords(i: nat)
    requires i < 16
    ensures Word(seq(56, _ => 0) + [0, 0, 0, 0, 0, 0, 1, 0xe0], 4 * i) == if i < 15 then 0 else 480
  {
  }

  lemma LengthOf60()
    ensures Octets(BigEndian(480, 8)) == [0, 0, 0, 0, 0, 0, 1, 0xe0]
  {
    assert 480 / 256 == 1 && 480 % 256 == 0xe0;
    BigEndianLast(480, 8);
    BigEndianLast(1, 7);
    ZeroOctets(6);
    hide BigEndian;
    assert BigEndian(480, 8) == [0, 0, 0, 0, 0, 0, 1, 0xe0];
  }

  lemma BigEndianLast(n: nat, k: nat)
    requires k > 0
    ensures BigEndian(n, k) == BigEndian(n / 256, k - 1) + [n % 256]
  {
  }

  lemma {:induction false} ZeroOctets(k: nat)
    ensures BigEndian(0, k) == seq(k, _ => 0)
  {
    if k > 0 {
      ZeroOctets(k - 1);
    }
  }

  lemma TailWords(i: nat)
    requires i < 10
    ensures Word(GUID + [0x80, 0, 0, 0], 4 * i) == TAIL[i]
  {
    if i < 5 {
      assert i == 0 || i == 1 || i == 2 || i == 3 || i == 4;
    } else {
      assert i == 5 || i == 6 || i == 7 || i == 8 || i == 9;
    }
  }

  // ---------------------------------------------------------------- generate

  lemma DigestOf60(key: seq<octet>)
    requires |key| == 24
    ensures Digest(key + GUID)
            == ChainOctets(Compress(Compress(H0, KeyWords(key) + TAIL), seq(15, _ => 0) + [480]))
  {
    BlocksArePadding(key);
    hide Pad, BlockAt, Compress, ChainOctets;
    var p := Pad(key + GUID);
    var h1 := Compress(H0, BlockAt(p, 0));
    assert HashFrom(H0, p, 0) == HashFrom(h1, p, 1);
    assert HashFrom(h1, p, 1) == HashFrom(Compress(h1, BlockAt(p, 1)), p, 2);
  }

  /** The memory of a `uint32_t` on a little-endian machine. */
  function LittleEndian(w: word): seq<octet> {
    [(w & 0xff) as octet, ((w >> 8) & 0xff) as octet, ((w >> 16) & 0xff) as octet, ((w >> 24) & 0xff) as octet]
  }

  lemma LoadLittleEndian(w: word)
    ensures var m := LittleEndian(w); Join(m[3], m[2], m[1], m[0]) == w
  {
  }

  /** `(tmp >> shift) & 0xff`. */
  function LowOctet(tmp: word, shift: nat): octet
    requires shift < 32
  {
    ((tmp >> shift) & 0xff) as octet
  }

  lemma OctetsOf(w: word)
    ensures WordOctets(w) == [LowOctet(w, 24), LowOctet(w, 16), LowOctet(w, 8), LowOctet(w, 0)]
  {
  }

  lemma WordOfOctets(w: word)
    ensures Word(WordOctets(w), 0) == w
  {
  }

  /** The digest octets are big-endian: read as the message is cut into words, they give the chain back. */
  lemma DigestIsBigEndian(h: Chain, j: nat)
    requires j < 5
    ensures Word(ChainOctets(h), 4 * j) == h[j]
  {
    hide WordOctets, Join;
    FourEach(h[0]);
    FourEach(h[1]);
    FourEach(h[2]);
    FourEach(h[3]);
    FourEach(h[4]);
    SlotsOfParts(WordOctets(h[0]), WordOctets(h[1]), WordOctets(h[2]), WordOctets(h[3]), WordOctets(h[4]));
    assert Slot(ChainOctets(h), j) == WordOctets(h[j]) by {
      if j == 0 {
      } else if j == 1 {
      } else if j == 2 {
      } else if j == 3 {
      }
    }
    WordOfOctets(h[j]);
    WordsOf(ChainOctets(h), WordOctets(h[j]), 4 * j, 0);
  }

  /** One turn of the byte swap: the word at `4 * i` is loaded, then its octets are stored most
      significant first. */
  method SwapWord(bytes: array<octet>, i: nat, ghost w: word)
    requires bytes.Length == 20 && i < 5 && bytes[4 * i..4 * i + 4] == LittleEndian(w)
    modifies bytes
    ensures bytes[..] == old(bytes[..4 * i]) + WordOctets(w) + old(bytes[4 * i + 4..])
  {
    ghost var m := bytes[4 * i..4 * i + 4];
    LoadLittleEndian(w);
    var tmp := Join(bytes[4 * i + 3], bytes[4 * i + 2], bytes[4 * i + 1], bytes[4 * i]);
    assert tmp == w by {
      assert m[0] == bytes[4 * i] && m[1] == bytes[4 * i + 1] && m[2] == bytes[4 * i + 2] && m[3] == bytes[4 * i + 3];
    }
    var o3, o2, o1, o0 := LowOctet(tmp, 0), LowOctet(tmp, 8), LowOctet(tmp, 16), LowOctet(tmp, 24);
    OctetsOf(w);
    hide *;
    bytes[4 * i + 3] := o3;
    bytes[4 * i + 2] := o2;
    bytes[4 * i + 1] := o1;
    bytes[4 * i] := o0;
  }

  /** The `j`-th word of a memory of words. */
  function Slot<T>(s: seq<T>, j: nat): seq<T>
    requires 4 * j + 4 <= |s|
  {
    s[4 * j..4 * j + 4]
  }

  lemma SlotOfSplice<T>(s: seq<T>, i: nat, part: seq<T>, j: nat)
    requires |s| == 20 && i < 5 && j < 5 && |part| == 4
    ensures Slot(s[..4 * i] + part + s[4 * i + 4..], j) == if i == j then part else Slot(s, j)
  {
  }

  lemma FiveSlots<T>(s: seq<T>)
    requires |s| == 20
    ensures s == Slot(s, 0) + Slot(s, 1) + Slot(s, 2) + Slot(s, 3) + Slot(s, 4)
  {
  }

  lemma SlotsOfParts<T>(a: seq<T>, b: seq<T>, c: seq<T>, d: seq<T>, e: seq<T>)
    requires |a| == |b| == |c| == |d| == |e| == 4
    ensures var m := a + b + c + d + e;
            Slot(m, 0) == a && Slot(m, 1) == b && Slot(m, 2) == c && Slot(m, 3) == d && Slot(m, 4) == e
  {
  }

  /** The byte swap of the five result words in their own memory gives the big-endian digest octets. */
  method SwapOctets(bytes: array<octet>, ghost h: Chain)
    requires bytes.Length == 20
    requires forall j :: 0 <= j < 5 ==> Slot(bytes[..], j) == LittleEndian(h[j])
    modifies bytes
    ensures bytes[..] == ChainOctets(h)
  {
    hide LittleEndian, WordOctets;
    for i := 0 to 5
      invariant forall j :: 0 <= j < 5 ==> Slot(bytes[..], j) == if j < i then WordOctets(h[j]) else LittleEndian(h[j])
    {
      ghost var before := bytes[..];
      FourEach(h[i]);
      assert bytes[4 * i..4 * i + 4] == Slot(bytes[..], i);
      SwapWord(bytes, i, h[i]);
      forall j | 0 <= j < 5
        ensures Slot(bytes[..], j) == if j == i then WordOctets(h[i]) else Slot(before, j)
      {
        SlotOfSplice(before, i, WordOctets(h[i]), j);
      }
    }
    FiveSlots(bytes[..]);
  }

  lemma FourEach(w: word)
    ensures |LittleEndian(w)| == 4 && |WordOctets(w)| == 4
  {
  }

  /** `b_input`: six words from the key, ten constants. */
  method KeyBlock(input: seq<octet>) returns (first: array<word>)
    requires |input| == 24
    ensures fresh(first) && first[..] == KeyWords(input) + TAIL
  {
    hide Join;
    first := new word[16](i => if 6 <= i < 16 then TAIL[i - 6] else 0);
    for i := 0 to 6
      invariant forall j :: 0 <= j < i ==> first[j] == Word(input, 4 * j)
      invariant forall j :: 6 <= j < 16 ==> first[j] == TAIL[j - 6]
    {
      first[i] := Join(input[4 * i], input[4 * i + 1], input[4 * i + 2], input[4 * i + 3]);
    }
  }

  /** `generate`: for every input string the output is base64 of the digest of key ++ GUID, where the
      key is the 24-byte field `strncpy` fills. */
  method Generate(inputStr: seq<octet>, output: array<char>)
    requires output.Length == 28
    modifies output
    ensures output[..] == Base64.Encode(Digest(Field24(inputStr) + GUID))
  {
    var input := Field24(inputStr);
    hide Join, Field24, Pad, Compress, ChainOctets, LittleEndian, Digest;
    var hash := new word[5][0x67452301, 0xefcdab89, 0x98badcfe, 0x10325476, 0xc3d2e1f0];
    assert hash[..] == H0;
    var first := KeyBlock(input);
    Sha1Block(hash, first);
    ghost var h1: Chain := hash[..];
    var last := new word[16](i => if i < 15 then 0 else 480);
    assert last[..] == seq(15, _ => 0) + [480];
    Sha1Block(hash, last);
    ghost var h2: Chain := hash[..];
    assert h2 == Compress(h1, seq(15, _ => 0) + [480]);
    DigestOf60(input);
    var bytes := MemoryOf(hash[..]);
    SwapOctets(bytes, h2);
    Base64.Base64Of20(bytes[..], output);
  }

  /** The five words seen as twenty octets of memory. */
  method MemoryOf(h: Chain) returns (bytes: array<octet>)
    ensures fresh(bytes) && bytes.Length == 20
    ensures forall j :: 0 <= j < 5 ==> Slot(bytes[..], j) == LittleEndian(h[j])
  {
    hide LittleEndian;
    FourEach(h[0]);
    FourEach(h[1]);
    FourEach(h[2]);
    FourEach(h[3]);
    FourEach(h[4]);
    var m := LittleEndian(h[0]) + LittleEndian(h[1]) + LittleEndian(h[2]) + LittleEndian(h[3]) + LittleEndian(h[4]);
    SlotsOfParts(LittleEndian(h[0]), LittleEndian(h[1]), LittleEndian(h[2]), LittleEndian(h[3]), LittleEndian(h[4]));
    bytes := ArrayOf(m);
  }

  method ArrayOf(m: seq<octet>) returns (bytes: array<octet>)
    ensures fresh(bytes) && bytes[..] == m
  {
    bytes := new octet[|m|](i requires 0 <= i < |m| => m[i]);
  }

  /** For a 24-octet key without NUL octets, as every base64 text is, the key itself is hashed. */
  lemma KeyWithoutNul(key: seq<octet>)
    requires |key| == 24 && 0 !in key
    ensures Digest(Field24(key) + GUID) == Digest(key + GUID)
  {
    hide Digest;
    Field24Faithful(key);
  }
}
