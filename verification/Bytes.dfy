/** Octets, unsigned 64-bit arithmetic and big-endian numbers shared by the protocol models. */
module Bytes {

  type byte = x: int | 0 <= x < 256

  /** The same where the code works on bits. */
  type octet = bv8

  datatype Option<+T> = None | Some(value: T)

  const TWO_16 := 0x1_0000
  const TWO_64 := 0x1_0000_0000_0000_0000

  function Min(a: int, b: int): int {
    if a < b then a else b
  }

  /** Bitwise exclusive or of the low `k` bits. */
  function XorBits(a: nat, b: nat, k: nat): nat {
    if k == 0 then 0 else (a % 2 + b % 2) % 2 + 2 * XorBits(a / 2, b / 2, k - 1)
  }

  function Pow2(k: nat): nat {
    if k == 0 then 1 else 2 * Pow2(k - 1)
  }

  lemma XorBitsUnfold(a: nat, b: nat, k: nat)
    requires k > 0
    ensures XorBits(a, b, k) == (a % 2 + b % 2) % 2 + 2 * XorBits(a / 2, b / 2, k - 1)
  {
  }

  lemma BitAndRest(bit: nat, high: nat)
    requires bit < 2
    ensures (bit + 2 * high) % 2 == bit && (bit + 2 * high) / 2 == high
  {
  }

  lemma BitTwice(x: nat, y: nat)
    requires x < 2 && y < 2
    ensures (x + y) % 2 < 2 && ((x + y) % 2 + y) % 2 == x
  {
  }

  lemma {:induction false} XorBitsInvolutive(a: nat, m: nat, k: nat)
    requires a < Pow2(k)
    ensures XorBits(a, m, k) < Pow2(k) && XorBits(XorBits(a, m, k), m, k) == a
  {
    if k > 0 {
      var x, y := a % 2, m % 2;
      var bit, high := (x + y) % 2, XorBits(a / 2, m / 2, k - 1);
      XorBitsUnfold(a, m, k);
      XorBitsUnfold(bit + 2 * high, m, k);
      hide XorBits;
      BitTwice(x, y);
      BitAndRest(bit, high);
      XorBitsInvolutive(a / 2, m / 2, k - 1);
    }
  }

  /** Exclusive or of two octets. */
  function Xor(a: byte, b: byte): byte {
    assert Pow2(8) == 256;
    XorBitsInvolutive(a, b, 8);
    XorBits(a, b, 8)
  }

  lemma XorInvolutive(a: byte, m: byte)
    ensures Xor(Xor(a, m), m) == a
  {
    assert Pow2(8) == 256;
    XorBitsInvolutive(a, m, 8);
  }

  /** Bit `i` of a number. */
  function Bit(n: nat, i: nat): nat {
    if i == 0 then n % 2 else Bit(n / 2, i - 1)
  }

  lemma {:induction false} XorBitsAt(a: nat, b: nat, k: nat, i: nat)
    requires i < k
    ensures Bit(XorBits(a, b, k), i) == if Bit(a, i) == Bit(b, i) then 0 else 1
    decreases k
  {
    var bit, high := (a % 2 + b % 2) % 2, XorBits(a / 2, b / 2, k - 1);
    XorBitsUnfold(a, b, k);
    hide XorBits;
    BitAndRest(bit, high);
    if i > 0 {
      XorBitsAt(a / 2, b / 2, k - 1, i - 1);
    }
  }

  /** `Xor` sets exactly the bits in which its operands differ. */
  lemma XorAt(a: byte, b: byte, i: nat)
    requires i < 8
    ensures Bit(Xor(a, b), i) == if Bit(a, i) == Bit(b, i) then 0 else 1
  {
    XorBitsAt(a, b, 8, i);
  }

  /** The low `k` octets of `n`, most significant first. */
  function BigEndian(n: nat, k: nat): (s: seq<byte>)
    ensures |s| == k
  {
    if k == 0 then [] else BigEndian(n / 256, k - 1) + [n % 256]
  }

  /** The number a big-endian octet string stands for. */
  function Value(s: seq<byte>): nat {
    if s == [] then 0 else Value(s[..|s| - 1]) * 256 + s[|s| - 1]
  }

  /** Two octets as a number. */
  function Word16(high: int, low: int): int {
    256 * high + low
  }

  function Pow256(k: nat): nat {
    if k == 0 then 1 else 256 * Pow256(k - 1)
  }

  lemma {:induction false} BigEndianRoundTrip(n: nat, k: nat)
    requires n < Pow256(k)
    ensures Value(BigEndian(n, k)) == n
  {
    if k > 0 {
      BigEndianRoundTrip(n / 256, k - 1);
      assert BigEndian(n, k)[..k - 1] == BigEndian(n / 256, k - 1);
    }
  }

  lemma {:induction false} ValueBound(s: seq<byte>)
    ensures Value(s) < Pow256(|s|)
  {
    if s != [] {
      ValueBound(s[..|s| - 1]);
    }
  }

  /** `n >> (8 * i)`. */
  function ShiftOctets(n: nat, i: nat): nat {
    if i == 0 then n else ShiftOctets(n, i - 1) / 256
  }

  lemma SmallMultiple(d: int, x: int)
    requires -d < d * x < d
    ensures x == 0
  {
  }

  lemma AddMultiple(x: nat, q: int, n: nat)
    requires n > 0 && x + n * q >= 0
    ensures (x + n * q) % n == x % n
  {
    var y := x + n * q;
    assert n * (x / n + q) == n * (x / n) + n * q;
    assert n * (y / n - (x / n + q)) == x % n - y % n by {
      assert n * (y / n - (x / n + q)) == n * (y / n) - n * (x / n + q);
    }
    SmallMultiple(n, y / n - (x / n + q));
  }

  lemma SliceOfSuffix<T>(s: seq<T>, pos: nat, i: nat, j: nat)
    requires i <= j && pos + j <= |s|
    ensures s[pos..][i..j] == s[pos + i..pos + j]
  {
  }

  lemma Assoc<T>(a: seq<T>, b: seq<T>, c: seq<T>)
    ensures a + b + c == a + (b + c)
  {
  }

  /** Concatenation of a sequence of pieces. */
  function Concat<T>(parts: seq<seq<T>>): seq<T> {
    if parts == [] then [] else parts[0] + Concat(parts[1..])
  }

  lemma {:induction false} ConcatAppend<T>(a: seq<seq<T>>, b: seq<seq<T>>)
    ensures Concat(a + b) == Concat(a) + Concat(b)
  {
    if a == [] {
      assert a + b == b;
    } else {
      assert (a + b)[1..] == a[1..] + b;
      ConcatAppend(a[1..], b);
    }
  }

  lemma ConcatSnoc<T>(a: seq<seq<T>>, x: seq<T>)
    ensures Concat(a + [x]) == Concat(a) + x
  {
    ConcatAppend(a, [x]);
    assert Concat([x]) == x + Concat([]);
  }
}
