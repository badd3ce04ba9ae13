/** WebSocket frames: how `buildFrame` prints them and how the receive loop decides one
    (section 5.2 of RFC 6455). */
module WebSocketFrame {
  import opened Bytes

  datatype Role = Client | Server

  function Peer(role: Role): Role {
    if role.Client? then Server else Client
  }

  const CONT := 0x0
  const TEXT := 0x1
  const BIN := 0x2
  const CLOSE := 0x8
  const PING := 0x9
  const PONG := 0xA

  const MAX_LENGTH := 0x8000_0000_0000_0000

  type Opcode = x: int | 0 <= x < 16

  /** The four random masking octets. */
  type Mask = m: seq<byte> | |m| == 4 witness [0, 0, 0, 0]

  // ---------------------------------------------------------------- printing

  function FrameHeader(fin: bool, opcode: Opcode, len: nat, masked: bool): seq<byte> {
    var b0 := (if fin then 0x80 else 0) + opcode;
    var m := if masked then 0x80 else 0;
    if len <= 125 then [b0, len + m]
    else if len <= 0xFFFF then [b0, 126 + m] + BigEndian(len, 2)
    else [b0, 127 + m] + BigEndian(len, 8)
  }

  function ApplyMask(data: seq<byte>, mask: Mask): (r: seq<byte>)
    ensures |r| == |data|
  {
    seq(|data|, i requires 0 <= i < |data| => Xor(data[i], mask[i % 4]))
  }

  /** A frame as the end playing `role` puts it on the wire: only a client masks. */
  function FrameBytes(fin: bool, opcode: Opcode, data: seq<byte>, role: Role, mask: Mask): seq<byte> {
    FrameHeader(fin, opcode, |data|, role.Client?) + Body(data, role, mask)
  }

  function Body(data: seq<byte>, role: Role, mask: Mask): seq<byte> {
    if role.Client? then mask + ApplyMask(data, mask) else data
  }

  /** The eight shifts `(len >> (i * 8)) & 0xFF`, from i = 7 down to 0. */
  method LengthOctets(len: nat) returns (out: seq<byte>)
    requires len < TWO_64
    ensures out == BigEndian(len, 8)
  {
    out := [];
    var i := 7;
    while i >= 0
      invariant -1 <= i <= 7
      invariant out == BigEndian(ShiftOctets(len, i + 1), 7 - i)
    {
      out := out + [ShiftOctets(len, i) % 256];
      i := i - 1;
    }
  }

  method MaskedCopy(data: seq<byte>, mask: bool, m: Mask) returns (body: seq<byte>)
    ensures body == if mask then ApplyMask(data, m) else data
  {
    var i := 0;
    body := [];
    while i < |data|
      invariant 0 <= i <= |data| && |body| == i
      invariant forall j :: 0 <= j < i ==> body[j] == if mask then Xor(data[j], m[j % 4]) else data[j]
    {
      var b: byte := data[i];
      if mask {
        b := Xor(b, m[i % 4]);
      }
      body := body + [b];
      i := i + 1;
    }
  }

  /** `buildFrame`; the random mask is an argument. */
  method BuildFrame(opcode: Opcode, data: seq<byte>, role: Role, m: Mask) returns (out: seq<byte>)
    requires |data| < TWO_64
    ensures out == FrameBytes(true, opcode, data, role, m)
  {
    var len := |data|;
    var mask := role.Client?;
    var bit := if mask then 0x80 else 0x00;
    out := [0x80 + opcode];
    if len <= 125 {
      out := out + [len + bit];
    } else if len <= 0xFFFF {
      out := out + [126 + bit] + [(len / 256) % 256] + [len % 256];
      TwoOctets(len);
    } else {
      var octets := LengthOctets(len);
      out := out + [127 + bit] + octets;
    }
    assert out == FrameHeader(true, opcode, len, mask);
    if mask {
      out := out + m;
    }
    var body := MaskedCopy(data, mask, m);
    out := out + body;
  }

  lemma TwoOctets(len: nat)
    ensures BigEndian(len, 2) == [(len / 256) % 256] + [len % 256]
  {
    assert BigEndian(len, 2) == BigEndian(len / 256, 1) + [len % 256];
    assert BigEndian(len / 256, 1) == BigEndian(len / 256 / 256, 0) + [(len / 256) % 256];
  }

  // ---------------------------------------------------------------- deciding

  /** What the receive loop concludes from the unread bytes `rx`.
      `Overflow`: the 64-bit size of the frame wraps around, so the length check passes on too few
      bytes and the loop leaves defined behaviour (allocating the payload throws at best). */
  datatype Decision =
    | NeedMore
    | BadMask
    | Overflow
    | Frame(fin: bool, opcode: Opcode, payload: seq<byte>, size: nat)

  /** Octets before the masking key, or 0 while the length field is incomplete. */
  function HeaderSize(rx: seq<byte>): nat
    requires |rx| >= 2
  {
    var len7 := rx[1] % 128;
    if len7 == 126 then (if |rx| < 4 then 0 else 4)
    else if len7 == 127 then (if |rx| < 10 then 0 else 10)
    else 2
  }

  function PayloadLength(rx: seq<byte>): nat
    requires |rx| >= 2 && HeaderSize(rx) > 0
  {
    var hdr := HeaderSize(rx);
    if hdr == 2 then rx[1] % 128 else Value(rx[2..hdr])
  }

  function Decide(role: Role, rx: seq<byte>): Decision {
    if |rx| < 2 then NeedMore
    else
      var masked := rx[1] >= 0x80;
      if role.Server? != masked then BadMask
      else if HeaderSize(rx) == 0 then NeedMore
      else
        var len := PayloadLength(rx);
        var start := HeaderSize(rx) + if masked then 4 else 0;
        var need := (start + len) % TWO_64;
        if |rx| < need then NeedMore
        else if start + len >= TWO_64 then Overflow
        else
          var raw := rx[start..start + len];
          var payload := if masked then ApplyMask(raw, rx[start - 4..start]) else raw;
          Frame(rx[0] >= 0x80, rx[0] % 16, payload, start + len)
  }

  /** A decided frame lies inside the buffer and is at least its two header octets long. */
  lemma DecideSize(role: Role, rx: seq<byte>)
    ensures Decide(role, rx).Frame? ==> 2 <= Decide(role, rx).size <= |rx|
    ensures Decide(role, rx).Frame? ==> |Decide(role, rx).payload| < Decide(role, rx).size
  {
  }

  lemma HeaderStable(rx: seq<byte>, more: seq<byte>)
    requires |rx| >= 2 && HeaderSize(rx) > 0
    ensures HeaderSize(rx + more) == HeaderSize(rx) && PayloadLength(rx + more) == PayloadLength(rx)
  {
    hide Value;
    var hdr := HeaderSize(rx);
    assert (rx + more)[1] == rx[1];
    assert (rx + more)[2..hdr] == rx[2..hdr];
  }

  /** The key to chunking independence: what was decided on a prefix stands when bytes arrive. */
  lemma DecideStable(role: Role, rx: seq<byte>, more: seq<byte>)
    requires !Decide(role, rx).NeedMore?
    ensures Decide(role, rx + more) == Decide(role, rx)
  {
    hide HeaderSize, PayloadLength, ApplyMask;
    var all := rx + more;
    assert all[0] == rx[0] && all[1] == rx[1];
    if role.Server? == (rx[1] >= 0x80) {
      HeaderStable(rx, more);
      var start := HeaderSize(rx) + if role.Server? then 4 else 0;
      var len := PayloadLength(rx);
      if start + len < TWO_64 {
        assert all[start..start + len] == rx[start..start + len];
        assert role.Server? ==> all[start - 4..start] == rx[start - 4..start];
      }
    }
  }

  /** Without wrap-around a frame is decided exactly when all of its bytes are there. */
  lemma OverflowExactly(role: Role, rx: seq<byte>)
    requires |rx| >= 2 && role.Server? == (rx[1] >= 0x80) && HeaderSize(rx) > 0
    ensures var start := HeaderSize(rx) + if role.Server? then 4 else 0;
            var total := start + PayloadLength(rx);
            && (total < TWO_64 ==> (Decide(role, rx).Frame? <==> |rx| >= total))
            && (total >= TWO_64 ==> (Decide(role, rx).Overflow? <==> |rx| >= total - TWO_64))
            && (Decide(role, rx).Overflow? ==> PayloadLength(rx) >= TWO_64 - 14)
  {
    hide Value, ApplyMask;
    if HeaderSize(rx) == 2 {
    } else {
      var field := rx[2..HeaderSize(rx)];
      ValueBound(field);
      assert Pow256(2) == TWO_16;
      assert Pow256(8) == TWO_64;
    }
  }

  lemma {:induction false} ValueOfOnes(s: seq<byte>)
    requires forall i :: 0 <= i < |s| ==> s[i] == 255
    ensures Value(s) + 1 == Pow256(|s|)
  {
    if s != [] {
      ValueOfOnes(s[..|s| - 1]);
    }
  }

  const HUGE_HEADER: seq<byte> := [0x82, 0x7F, 255, 255, 255, 255, 255, 255, 255, 255]

  /** A header that announces 2^64 - 1 octets is taken for a complete frame at once. */
  lemma OverflowExists()
    ensures Decide(Client, HUGE_HEADER) == Overflow
  {
    ValueOfOnes(HUGE_HEADER[2..10]);
    assert Pow256(8) == TWO_64;
    hide Value, Pow256;
    assert HeaderSize(HUGE_HEADER) == 10 && PayloadLength(HUGE_HEADER) == TWO_64 - 1;
  }

  // ---------------------------------------------------------------- round trip

  lemma ApplyMaskInvolutive(data: seq<byte>, mask: Mask)
    ensures ApplyMask(ApplyMask(data, mask), mask) == data
  {
    forall i | 0 <= i < |data|
      ensures ApplyMask(ApplyMask(data, mask), mask)[i] == data[i]
    {
      XorInvolutive(data[i], mask[i % 4]);
    }
  }

  lemma HeaderRoundTrip(fin: bool, opcode: Opcode, len: nat, masked: bool, rest: seq<byte>)
    requires len < MAX_LENGTH
    ensures var head := FrameHeader(fin, opcode, len, masked);
            var rx := head + rest;
            && |rx| >= 2 && (rx[1] >= 0x80 <==> masked) && (rx[0] >= 0x80 <==> fin) && rx[0] % 16 == opcode
            && HeaderSize(rx) == |head| && 2 <= |head| <= 10 && PayloadLength(rx) == len
  {
    var head := FrameHeader(fin, opcode, len, masked);
    var rx := head + rest;
    if len > 125 {
      var k := if len <= 0xFFFF then 2 else 8;
      assert Pow256(2) == TWO_16;
      assert Pow256(8) == TWO_64;
      BigEndianRoundTrip(len, k);
      assert rx[1] == head[1] && rx[0] == head[0];
      assert rx[2..2 + k] == BigEndian(len, k);
    }
  }

  /** The opposite role reads back exactly the frame that was printed, and no byte more. */
  lemma FrameRoundTrip(fin: bool, opcode: Opcode, data: seq<byte>, role: Role, mask: Mask, rest: seq<byte>)
    requires |data| < MAX_LENGTH
    ensures var bytes := FrameBytes(fin, opcode, data, role, mask);
            Decide(Peer(role), bytes + rest) == Frame(fin, opcode, data, |bytes|)
  {
    hide Decide, FrameHeader, HeaderSize, PayloadLength, ApplyMask;
    var masked := role.Client?;
    var head := FrameHeader(fin, opcode, |data|, masked);
    var body := Body(data, role, mask);
    BodySize(data, role, mask);
    var rx := FrameBytes(fin, opcode, data, role, mask) + rest;
    assert rx == head + (body + rest);
    HeaderRoundTrip(fin, opcode, |data|, masked, body + rest);
    DecideWhole(Peer(role), rx);
    var start := |head| + if masked then 4 else 0;
    if masked {
      assert rx[start - 4..start] == mask;
      assert rx[start..start + |data|] == ApplyMask(data, mask);
      ApplyMaskInvolutive(data, mask);
    } else {
      assert rx[start..start + |data|] == data;
    }
  }

  lemma BodySize(data: seq<byte>, role: Role, mask: Mask)
    ensures |Body(data, role, mask)| == |data| + if role.Client? then 4 else 0
  {
  }

  lemma DecideWhole(role: Role, rx: seq<byte>)
    requires |rx| >= 2 && role.Server? == (rx[1] >= 0x80) && HeaderSize(rx) > 0
    requires var total := HeaderSize(rx) + PayloadLength(rx) + if role.Server? then 4 else 0;
             total <= |rx| && total < TWO_64
    ensures var start := HeaderSize(rx) + if role.Server? then 4 else 0;
            var end := start + PayloadLength(rx);
            var payload := if role.Server? then ApplyMask(rx[start..end], rx[start - 4..start]) else rx[start..end];
            Decide(role, rx) == Frame(rx[0] >= 0x80, rx[0] % 16, payload, end)
  {
    hide HeaderSize, PayloadLength, ApplyMask;
  }
}
