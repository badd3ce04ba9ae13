/** Frames octet by octet, as section 5.2 of RFC 6455 lays them out. */
module WebSocketWire {
  import opened Bytes
  import opened WebSocketFrame
  import opened WebSocketListen

  /** The masked payload: octet i combined with octet i mod 4 of the key. */
  predicate IsMasked(body: seq<byte>, data: seq<byte>, mask: Mask) {
    |body| == |data| && forall i :: 0 <= i < |data| ==> body[i] == Xor(data[i], mask[i % 4])
  }

  /** What stands behind the header. */
  predicate IsBody(body: seq<byte>, data: seq<byte>, role: Role, mask: Mask) {
    if role.Server? then body == data
    else |body| == 4 + |data| && body[..4] == mask && IsMasked(body[4..], data, mask)
  }

  lemma BodyOnWire(data: seq<byte>, role: Role, mask: Mask)
    ensures IsBody(Body(data, role, mask), data, role, mask)
  {
    assert role.Client? ==> Body(data, role, mask)[4..] == ApplyMask(data, mask);
  }

  /** The three forms of the header; the length follows in two or eight octets, most significant first. */
  lemma FrameOnWire(fin: bool, opcode: Opcode, data: seq<byte>, role: Role, mask: Mask)
    requires |data| < MAX_LENGTH
    ensures var bytes, n, bit := FrameBytes(fin, opcode, data, role, mask), |data|, if role.Client? then 128 else 0;
            && |bytes| >= 2 && bytes[0] == (if fin then 128 else 0) + opcode
            && (n <= 125 ==> bytes[1] == n + bit && IsBody(bytes[2..], data, role, mask))
            && (125 < n <= 65535 ==>
                  && |bytes| >= 4 && bytes[1] == 126 + bit && 256 * (bytes[2] as nat) + bytes[3] == n
                  && IsBody(bytes[4..], data, role, mask))
            && (n > 65535 ==>
                  && |bytes| >= 10 && bytes[1] == 127 + bit && Horner(bytes[2..10]) == n
                  && IsBody(bytes[10..], data, role, mask))
  {
    hide IsBody, Body, Horner;
    var bytes, n := FrameBytes(fin, opcode, data, role, mask), |data|;
    var body := Body(data, role, mask);
    BodyOnWire(data, role, mask);
    if n <= 125 {
      assert bytes[2..] == body;
    } else if n <= 65535 {
      TwoOctets(n);
      assert bytes[4..] == body;
    } else {
      EightOctets(n);
      assert bytes[2..10] == BigEndian(n, 8);
      assert bytes[10..] == body;
    }
  }

  function Horner(s: seq<byte>): nat
    requires |s| == 8
  {
    ((((((((s[0] as nat) * 256 + s[1]) * 256 + s[2]) * 256 + s[3]) * 256 + s[4]) * 256 + s[5]) * 256 + s[6]) * 256) + s[7]
  }

  lemma EightOctets(n: nat)
    requires n < MAX_LENGTH
    ensures Horner(BigEndian(n, 8)) == n
  {
    var s := BigEndian(n, 8);
    assert Pow256(8) == TWO_64;
    BigEndianRoundTrip(n, 8);
    hide BigEndian;
    HornerIsValue(s);
  }

  lemma HornerIsValue(s: seq<byte>)
    requires |s| == 8
    ensures Horner(s) == Value(s)
  {
    ValueSnoc(s[..0], s[0]);
    assert s[..1] == s[..0] + [s[0]];
    ValueSnoc(s[..1], s[1]);
    assert s[..2] == s[..1] + [s[1]];
    ValueSnoc(s[..2], s[2]);
    assert s[..3] == s[..2] + [s[2]];
    ValueSnoc(s[..3], s[3]);
    assert s[..4] == s[..3] + [s[3]];
    ValueSnoc(s[..4], s[4]);
    assert s[..5] == s[..4] + [s[4]];
    ValueSnoc(s[..5], s[5]);
    assert s[..6] == s[..5] + [s[5]];
    ValueSnoc(s[..6], s[6]);
    assert s[..7] == s[..6] + [s[6]];
    ValueSnoc(s[..7], s[7]);
    assert s == s[..7] + [s[7]];
  }

  lemma ValueSnoc(s: seq<byte>, x: byte)
    ensures Value(s + [x]) == Value(s) * 256 + x
  {
    assert (s + [x])[..|s|] == s;
  }

  /** The first octet of what the library sends. */
  lemma FirstOctet(data: seq<byte>, role: Role, mask: Mask)
    requires |data| < MAX_LENGTH
    ensures FrameBytes(true, TEXT, data, role, mask)[0] == 0x81
    ensures FrameBytes(true, BIN, data, role, mask)[0] == 0x82
    ensures FrameBytes(true, CLOSE, data, role, mask)[0] == 0x88
    ensures FrameBytes(true, PONG, data, role, mask)[0] == 0x8A
  {
    FrameOnWire(true, TEXT, data, role, mask);
    FrameOnWire(true, BIN, data, role, mask);
    FrameOnWire(true, CLOSE, data, role, mask);
    FrameOnWire(true, PONG, data, role, mask);
  }

  /** What the receive loop does on each opcode while no message is unfinished. */
  lemma OpcodesReceived(fin: bool, opcode: Opcode, data: seq<byte>)
    ensures OnFrame(IDLE, true, 0x1, data) == Effect(IDLE, [Deliver(data)], false)
    ensures OnFrame(IDLE, true, 0x2, data) == Effect(IDLE, [Deliver(data)], false)
    ensures OnFrame(IDLE, fin, 0x8, data) == Effect(IDLE, [Reply(0x8, [3, 232])], true)
    ensures OnFrame(IDLE, fin, 0x9, data) == Effect(IDLE, [Reply(0xA, data)], false)
    ensures opcode !in {0x0, 0x1, 0x2, 0x8, 0x9} ==> OnFrame(IDLE, fin, opcode, data) == Effect(IDLE, [], false)
    ensures OnFrame(IDLE, fin, 0x0, data) == Effect(IDLE, [Reply(0x8, [3, 234])], true)
  {
    assert BigEndian(1000, 2) == [3, 232] && BigEndian(1002, 2) == [3, 234] by {
      TwoOctets(1000);
      TwoOctets(1002);
    }
  }
}
