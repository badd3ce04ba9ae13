/** SHA-1: the definition of FIPS 180-4, and the implementation with a circular message schedule and
    working variables that rotate by index. */
module Sha1 {
  import opened Bytes

  type word = bv32

  // ---------------------------------------------------------------- section 6.1.2 of FIPS 180-4

  function Rotl(x: word, n: nat): word
    requires n < 32
  {
    (x << n) | (x >> (32 - n))
  }

  function Ch(x: word, y: word, z: word): word { (x & y) ^ (!x & z) }
  function Parity(x: word, y: word, z: word): word { x ^ y ^ z }
  function Maj(x: word, y: word, z: word): word { (x & y) ^ (x & z) ^ (y & z) }

  function F(t: nat, x: word, y: word, z: word): word {
    if t < 20 then Ch(x, y, z)
    else if t < 40 then Parity(x, y, z)
    else if t < 60 then Maj(x, y, z)
    else Parity(x, y, z)
  }

  function K(t: nat): word {
    if t < 20 then 0x5a827999
    else if t < 40 then 0x6ed9eba1
    else if t < 60 then 0x8f1bbcdc
    else 0xca62c1d6
  }

  type Block = b: seq<word> | |b| == 16 witness seq(16, i => 0)
  type Chain = h: seq<word> | |h| == 5 witness seq(5, i => 0)

  /** The message schedule. */
  function W(m: Block, t: nat): word {
    if t < 16 then m[t]
    else Mix(W(m, t - 3), W(m, t - 8), W(m, t - 14), W(m, t - 16))
  }

  function Mix(x: word, y: word, z: word, u: word): word {
    Rotl(x ^ y ^ z ^ u, 1)
  }

  /** The five working variables. */
  datatype Five<T> = Five(a: T, b: T, c: T, d: T, e: T)

  type Vars = Five<word>

  function Round(t: nat, v: Vars, w: word): Vars {
    Five(Temp(v.a, F(t, v.b, v.c, v.d), v.e, K(t), w), v.a, Rotl(v.b, 30), v.c, v.d)
  }

  function Temp(a: word, f: word, e: word, k: word, w: word): word {
    Rotl(a, 5) + f + e + k + w
  }

  /** The working variables after `t` rounds. */
  function Rounds(h: Chain, m: Block, t: nat): Vars {
    if t == 0 then Five(h[0], h[1], h[2], h[3], h[4])
    else Round(t - 1, Rounds(h, m, t - 1), W(m, t - 1))
  }

  function Compress(h: Chain, m: Block): Chain {
    var v := Rounds(h, m, 80);
    [Add(h[0], v.a), Add(h[1], v.b), Add(h[2], v.c), Add(h[3], v.d), Add(h[4], v.e)]
  }

  /** Addition modulo 2^32. */
  function Add(x: word, y: word): word {
    x + y
  }

  lemma AddForm(x: word, y: word)
    ensures x + y == Add(x, y)
  {
  }

  // ---------------------------------------------------------------- the code's forms of Ch and Maj

  /** Rotation takes bit i to bit i + n, modulo 32, for the three distances in use. */
  lemma RotlBit(x: word, i: bv5)
    ensures (Rotl(x, 1) >> (i + 1)) & 1 == (x >> i) & 1
    ensures (Rotl(x, 5) >> (i + 5)) & 1 == (x >> i) & 1
    ensures (Rotl(x, 30) >> (i + 30)) & 1 == (x >> i) & 1
  {
  }

  lemma ParityForm(x: word, y: word, z: word)
    ensures x ^ y ^ z == Parity(x, y, z)
  {
  }

  lemma ChForm(x: word, y: word, z: word)
    ensures (x & (y ^ z)) ^ z == Ch(x, y, z)
  {
  }

  lemma MajForm(x: word, y: word, z: word)
    ensures ((x | y) & z) | (x & y) == Maj(x, y, z)
  {
  }

  /** `e += f + w + k + rol(a, 5)`. */
  function Accumulate(e: word, f: word, w: word, k: word, a: word): word {
    e + (f + w + k + Rotl(a, 5))
  }

  /** The code adds the terms of a round in another order. */
  lemma SumForm(e: word, f: word, w: word, k: word, a: word)
    ensures Accumulate(e, f, w, k, a) == Temp(a, f, e, k, w)
  {
    var r := Rotl(a, 5);
    hide Rotl;
    assert e + (f + w + k + r) == r + f + e + k + w;
  }

  // ---------------------------------------------------------------- the implementation

  /** `a` holds the variables before round `t`, rotated by index. */
  predicate Holds<T(==)>(a: seq<T>, t: nat, v: Five<T>)
    requires |a| == 5
  {
    && a[(4 + t) % 5] == v.a && a[(3 + t) % 5] == v.b && a[(2 + t) % 5] == v.c
    && a[(1 + t) % 5] == v.d && a[t % 5] == v.e
  }

  /** `b` holds the last sixteen words of the schedule, each at its index modulo 16. */
  ghost predicate Window(b: seq<word>, t: nat, m: Block)
    requires |b| == 16 && t >= 16
  {
    forall j :: t - 16 <= j < t ==> b[j % 16] == W(m, j)
  }

  lemma Mod5(k: nat, t: nat)
    ensures (k + t) % 5 == (k + t % 5) % 5
  {
  }

  /** `Holds` for a known residue of `t`. */
  predicate HoldsAt<T(==)>(a: seq<T>, r: nat, v: Five<T>)
    requires |a| == 5
  {
    if r == 0 then a == [v.e, v.d, v.c, v.b, v.a]
    else if r == 1 then a == [v.a, v.e, v.d, v.c, v.b]
    else if r == 2 then a == [v.b, v.a, v.e, v.d, v.c]
    else if r == 3 then a == [v.c, v.b, v.a, v.e, v.d]
    else a == [v.d, v.c, v.b, v.a, v.e]
  }

  lemma HoldsTable<T>(a: seq<T>, t: nat, v: Five<T>)
    requires |a| == 5
    ensures Holds(a, t, v) <==> HoldsAt(a, t % 5, v)
  {
    Mod5(1, t);
    Mod5(2, t);
    Mod5(3, t);
    Mod5(4, t);
    var r := t % 5;
    if r == 0 {
    } else if r == 1 {
    } else if r == 2 {
    } else if r == 3 {
    } else {
      assert r == 4;
    }
  }

  /** One rotation step: the new first variable replaces the last one, the second is rotated in place. */
  lemma HoldsNext<T>(a: seq<T>, t: nat, v: Five<T>, first: T, third: T)
    requires |a| == 5 && Holds(a, t, v)
    ensures Holds(a[t % 5 := first][(3 + t) % 5 := third], t + 1, Five(first, v.a, third, v.c, v.d))
  {
    var r := t % 5;
    HoldsTable(a, t, v);
    HoldsTable(a[r := first][(3 + t) % 5 := third], t + 1, Five(first, v.a, third, v.c, v.d));
    Mod5(3, t);
    Mod5(1, t);
    hide Holds;
    if r == 0 {
    } else if r == 1 {
    } else if r == 2 {
    } else if r == 3 {
    } else {
      assert r == 4;
    }
  }

  /** A round of the code, given its selection function, its constant and the schedule word. */
  lemma RoundStep(a: seq<word>, t: nat, v: Vars, f: word, k: word, w: word)
    requires |a| == 5 && Holds(a, t, v) && f == F(t, v.b, v.c, v.d) && k == K(t)
    ensures var first := Accumulate(a[t % 5], f, w, k, a[(4 + t) % 5]);
            Holds(a[t % 5 := first][(3 + t) % 5 := Rotl(a[(3 + t) % 5], 30)], t + 1, Round(t, v, w))
  {
    hide F, K, Rotl, Accumulate, Temp;
    var first := Accumulate(a[t % 5], f, w, k, a[(4 + t) % 5]);
    SumForm(v.e, f, w, k, v.a);
    HoldsNext(a, t, v, first, Rotl(v.b, 30));
  }

  function Blk(b: seq<word>, i: nat): word
    requires |b| == 16 && i < 16
  {
    Rotl(b[(i + 13) % 16] ^ b[(i + 8) % 16] ^ b[(i + 2) % 16] ^ b[i], 1)
  }

  lemma BlkForm(b: seq<word>, i: nat)
    requires |b| == 16 && i < 16
    ensures Blk(b, i) == Mix(b[(i + 13) % 16], b[(i + 8) % 16], b[(i + 2) % 16], b[i])
  {
    hide Rotl;
  }

  /** The circular buffer yields the next schedule word, and keeps the window when it is stored. */
  lemma BlkIsSchedule(b: seq<word>, t: nat, m: Block)
    requires |b| == 16 && t >= 16 && Window(b, t, m)
    ensures Blk(b, t % 16) == W(m, t)
    ensures Window(b[t % 16 := W(m, t)], t + 1, m)
  {
    hide Rotl, Mix, Blk, W;
    var i := t % 16;
    BlkForm(b, i);
    Slots(t);
    WUnfold(m, t);
    forall j | t - 15 <= j < t + 1
      ensures b[i := W(m, t)][j % 16] == W(m, j)
    {
      if j < t {
        SameSlot(j, t);
      }
    }
  }

  lemma WUnfold(m: Block, t: nat)
    requires t >= 16
    ensures W(m, t) == Mix(W(m, t - 3), W(m, t - 8), W(m, t - 14), W(m, t - 16))
  {
  }

  lemma Slots(t: nat)
    requires t >= 16
    ensures var i := t % 16;
            && (i + 13) % 16 == (t - 3) % 16 && (i + 8) % 16 == (t - 8) % 16
            && (i + 2) % 16 == (t - 14) % 16 && i == (t - 16) % 16
  {
    var i, q := t % 16, 1 - t / 16;
    AddMultiple(t - 3, q, 16);
    AddMultiple(t - 8, q, 16);
    AddMultiple(t - 14, q, 16);
    AddMultiple(t - 16, q, 16);
  }

  lemma SameSlot(j: nat, t: nat)
    requires j < t < j + 16
    ensures j % 16 != t % 16
  {
  }

  /** The message itself fills the first window. */
  lemma FirstWindow(m: Block)
    ensures Window(m, 16, m)
  {
  }

  /** `Sha1Loop<1>::f<i>`, rounds 0 to 15. */
  method Loop1(i: nat, a: array<word>, b: array<word>, ghost h: Chain, ghost m: Block)
    requires i < 16 && a.Length == 5 && b.Length == 16 && a != b
    requires Holds(a[..], i, Rounds(h, m, i)) && b[..] == m
    modifies a
    ensures Holds(a[..], i + 1, Rounds(h, m, i + 1))
  {
    hide Rotl, Holds, Round, Accumulate, Ch, Maj, Parity;
    ghost var a0, v := a[..], Rounds(h, m, i);
    HoldsParts(a0, i, v);
    var w := b[i];
    var f := (a[(3 + i) % 5] & (a[(2 + i) % 5] ^ a[(1 + i) % 5])) ^ a[(1 + i) % 5];
    ChForm(v.b, v.c, v.d);
    RoundStep(a0, i, v, f, 0x5a827999, w);
    a[i % 5] := Accumulate(a[i % 5], f, w, 0x5a827999, a[(4 + i) % 5]);
    a[(3 + i) % 5] := Rotl(a[(3 + i) % 5], 30);
  }

  /** `Sha1Loop<2>::f<i>`, rounds 16 to 19. */
  method Loop2(i: nat, a: array<word>, b: array<word>, ghost h: Chain, ghost m: Block)
    requires i < 4 && a.Length == 5 && b.Length == 16 && a != b
    requires Holds(a[..], i + 16, Rounds(h, m, i + 16)) && Window(b[..], i + 16, m)
    modifies a, b
    ensures Holds(a[..], i + 17, Rounds(h, m, i + 17)) && Window(b[..], i + 17, m)
  {
    hide Rotl, Holds, Round, Accumulate, Ch, Maj, Parity, Window, W;
    ghost var t, a0, v := i + 16, a[..], Rounds(h, m, i + 16);
    Indices1(i, t);
    BlkIsSchedule(b[..], t, m);
    b[i] := Blk(b[..], i);
    var w := b[i];
    HoldsParts(a0, t, v);
    var f := (a[(4 + i) % 5] & (a[(3 + i) % 5] ^ a[(2 + i) % 5])) ^ a[(2 + i) % 5];
    ChForm(v.b, v.c, v.d);
    RoundStep(a0, t, v, f, 0x5a827999, w);
    a[(1 + i) % 5] := Accumulate(a[(1 + i) % 5], f, w, 0x5a827999, a[(5 + i) % 5]);
    a[(4 + i) % 5] := Rotl(a[(4 + i) % 5], 30);
  }

  /** `Sha1Loop<3>::f<i>`, rounds 20 to 39. */
  method Loop3(i: nat, a: array<word>, b: array<word>, ghost h: Chain, ghost m: Block)
    requires i < 20 && a.Length == 5 && b.Length == 16 && a != b
    requires Holds(a[..], i + 20, Rounds(h, m, i + 20)) && Window(b[..], i + 20, m)
    modifies a, b
    ensures Holds(a[..], i + 21, Rounds(h, m, i + 21)) && Window(b[..], i + 21, m)
  {
    hide Rotl, Holds, Round, Accumulate, Ch, Maj, Parity, Window, W;
    ghost var t, a0, v := i + 20, a[..], Rounds(h, m, i + 20);
    Indices0(i, t);
    BlkIsSchedule(b[..], t, m);
    b[(i + 4) % 16] := Blk(b[..], (i + 4) % 16);
    var w := b[(i + 4) % 16];
    HoldsParts(a0, t, v);
    var f := a[(3 + i) % 5] ^ a[(2 + i) % 5] ^ a[(1 + i) % 5];
    ParityForm(v.b, v.c, v.d);
    RoundStep(a0, t, v, f, 0x6ed9eba1, w);
    a[i % 5] := Accumulate(a[i % 5], f, w, 0x6ed9eba1, a[(4 + i) % 5]);
    a[(3 + i) % 5] := Rotl(a[(3 + i) % 5], 30);
  }

  /** `Sha1Loop<4>::f<i>`, rounds 40 to 59. */
  method Loop4(i: nat, a: array<word>, b: array<word>, ghost h: Chain, ghost m: Block)
    requires i < 20 && a.Length == 5 && b.Length == 16 && a != b
    requires Holds(a[..], i + 40, Rounds(h, m, i + 40)) && Window(b[..], i + 40, m)
    modifies a, b
    ensures Holds(a[..], i + 41, Rounds(h, m, i + 41)) && Window(b[..], i + 41, m)
  {
    hide Rotl, Holds, Round, Accumulate, Ch, Maj, Parity, Window, W;
    ghost var t, a0, v := i + 40, a[..], Rounds(h, m, i + 40);
    Indices0(i, t);
    BlkIsSchedule(b[..], t, m);
    b[(i + 8) % 16] := Blk(b[..], (i + 8) % 16);
    var w := b[(i + 8) % 16];
    HoldsParts(a0, t, v);
    var f := ((a[(3 + i) % 5] | a[(2 + i) % 5]) & a[(1 + i) % 5]) | (a[(3 + i) % 5] & a[(2 + i) % 5]);
    MajForm(v.b, v.c, v.d);
    RoundStep(a0, t, v, f, 0x8f1bbcdc, w);
    a[i % 5] := Accumulate(a[i % 5], f, w, 0x8f1bbcdc, a[(4 + i) % 5]);
    a[(3 + i) % 5] := Rotl(a[(3 + i) % 5], 30);
  }

  /** `Sha1Loop<5>::f<i>`, rounds 60 to 79. */
  method Loop5(i: nat, a: array<word>, b: array<word>, ghost h: Chain, ghost m: Block)
    requires i < 20 && a.Length == 5 && b.Length == 16 && a != b
    requires Holds(a[..], i + 60, Rounds(h, m, i + 60)) && Window(b[..], i + 60, m)
    modifies a, b
    ensures Holds(a[..], i + 61, Rounds(h, m, i + 61)) && Window(b[..], i + 61, m)
  {
    hide Rotl, Holds, Round, Accumulate, Ch, Maj, Parity, Window, W;
    ghost var t, a0, v := i + 60, a[..], Rounds(h, m, i + 60);
    Indices0(i, t);
    BlkIsSchedule(b[..], t, m);
    b[(i + 12) % 16] := Blk(b[..], (i + 12) % 16);
    var w := b[(i + 12) % 16];
    HoldsParts(a0, t, v);
    var f := a[(3 + i) % 5] ^ a[(2 + i) % 5] ^ a[(1 + i) % 5];
    ParityForm(v.b, v.c, v.d);
    RoundStep(a0, t, v, f, 0xca62c1d6, w);
    a[i % 5] := Accumulate(a[i % 5], f, w, 0xca62c1d6, a[(4 + i) % 5]);
    a[(3 + i) % 5] := Rotl(a[(3 + i) % 5], 30);
  }

  /** The second loop starts at round 16, one more than a multiple of five. */
  lemma Indices1(i: nat, t: nat)
    requires t == i + 16 && i < 16
    ensures (1 + i) % 5 == t % 5 && (2 + i) % 5 == (1 + t) % 5 && (3 + i) % 5 == (2 + t) % 5
    ensures (4 + i) % 5 == (3 + t) % 5 && (5 + i) % 5 == (4 + t) % 5 && i == t % 16
  {
    AddMultiple(1 + i, 3, 5);
    AddMultiple(2 + i, 3, 5);
    AddMultiple(3 + i, 3, 5);
    AddMultiple(4 + i, 3, 5);
    AddMultiple(5 + i, 3, 5);
    AddMultiple(i, 1, 16);
  }

  /** The later ones start at multiples of five, and of four. */
  lemma Indices0(i: nat, t: nat)
    requires i < 20 && (t == i + 20 || t == i + 40 || t == i + 60)
    ensures i % 5 == t % 5 && (1 + i) % 5 == (1 + t) % 5 && (2 + i) % 5 == (2 + t) % 5
    ensures (3 + i) % 5 == (3 + t) % 5 && (4 + i) % 5 == (4 + t) % 5
    ensures t == i + 20 ==> (i + 4) % 16 == t % 16
    ensures t == i + 40 ==> (i + 8) % 16 == t % 16
    ensures t == i + 60 ==> (i + 12) % 16 == t % 16
  {
    var q := if t == i + 20 then 1 else if t == i + 40 then 2 else 3;
    AddMultiple(i, 4 * q, 5);
    AddMultiple(1 + i, 4 * q, 5);
    AddMultiple(2 + i, 4 * q, 5);
    AddMultiple(3 + i, 4 * q, 5);
    AddMultiple(4 + i, 4 * q, 5);
    AddMultiple(i + 4 * q, q, 16);
  }

  lemma HoldsParts<T>(a: seq<T>, t: nat, v: Five<T>)
    requires |a| == 5 && Holds(a, t, v)
    ensures a[(4 + t) % 5] == v.a && a[(3 + t) % 5] == v.b && a[(2 + t) % 5] == v.c
    ensures a[(1 + t) % 5] == v.d && a[t % 5] == v.e
    ensures (3 + t) % 5 != t % 5 && (4 + t) % 5 != t % 5
  {
  }

  /** `sha1`: one block, in place. The schedule buffer is used up. */
  method Sha1Block(hash: array<word>, b: array<word>)
    requires hash.Length == 5 && b.Length == 16 && hash != b
    modifies hash, b
    ensures hash[..] == Compress(old(hash[..]), old(b[..]))
  {
    hide Rounds, Holds, Window, Compress;
    ghost var h: Chain, m: Block := hash[..], b[..];
    var a := new word[5][hash[4], hash[3], hash[2], hash[1], hash[0]];
    HoldsStart(a[..], h, m);
    for i := 0 to 16
      invariant Holds(a[..], i, Rounds(h, m, i)) && b[..] == m && hash[..] == h
    {
      Loop1(i, a, b, h, m);
    }
    FirstWindow(m);
    for i := 0 to 4
      invariant Holds(a[..], i + 16, Rounds(h, m, i + 16)) && Window(b[..], i + 16, m) && hash[..] == h
    {
      Loop2(i, a, b, h, m);
    }
    for i := 0 to 20
      invariant Holds(a[..], i + 20, Rounds(h, m, i + 20)) && Window(b[..], i + 20, m) && hash[..] == h
    {
      Loop3(i, a, b, h, m);
    }
    for i := 0 to 20
      invariant Holds(a[..], i + 40, Rounds(h, m, i + 40)) && Window(b[..], i + 40, m) && hash[..] == h
    {
      Loop4(i, a, b, h, m);
    }
    for i := 0 to 20
      invariant Holds(a[..], i + 60, Rounds(h, m, i + 60)) && Window(b[..], i + 60, m) && hash[..] == h
    {
      Loop5(i, a, b, h, m);
    }
    FeedForward(hash, a, h, m);
  }

  /** `b[i] += x`. */
  method AddTo(b: array<word>, i: nat, x: word)
    requires i < b.Length
    modifies b
    ensures b[..] == old(b[..])[i := Add(old(b[i]), x)]
  {
    var sum := b[i] + x;
    AddForm(b[i], x);
    hide Add;
    b[i] := sum;
  }

  /** `Sha1Loop<6>`: the working variables are added to the chaining value. */
  method FeedForward(hash: array<word>, a: array<word>, ghost h: Chain, ghost m: Block)
    requires hash.Length == 5 && a.Length == 5 && hash != a && hash[..] == h
    requires Holds(a[..], 80, Rounds(h, m, 80))
    modifies hash
    ensures hash[..] == Compress(h, m)
  {
    hide Rounds, Add, Holds, Compress;
    ghost var v := Rounds(h, m, 80);
    ghost var final := [v.e, v.d, v.c, v.b, v.a];
    HoldsTable(a[..], 80, v);
    for i := 0 to 5
      invariant forall j :: 0 <= j < i ==> hash[j] == Compress(h, m)[j]
      invariant forall j :: i <= j < 5 ==> hash[j] == h[j]
      invariant a[..] == final
    {
      CompressAt(h, m, i);
      AddTo(hash, i, a[4 - i]);
    }
  }

  lemma CompressAt(h: Chain, m: Block, i: nat)
    requires i < 5
    ensures var v := Rounds(h, m, 80);
            Compress(h, m)[i] == Add(h[i], [v.e, v.d, v.c, v.b, v.a][4 - i])
  {
    hide Rounds, Add;
  }

  lemma HoldsStart(a: seq<word>, h: Chain, m: Block)
    requires a == [h[4], h[3], h[2], h[1], h[0]]
    ensures Holds(a, 0, Rounds(h, m, 0))
  {
  }
}
