/** The receive loop `listen`: an incremental frame parser and fragment reassembler. */
module WebSocketListen {
  import opened Bytes
  import opened Transport
  import opened WebSocketFrame

  /** What the loop does to the outside: call `onMessage`, or write a frame. */
  datatype Output = Deliver(message: seq<byte>) | Reply(opcode: Opcode, payload: seq<byte>)

  /** The loop's variables `message`, `continued` and `startOpcode`. */
  datatype Assembly = Assembly(message: seq<byte>, continued: bool, startOpcode: Opcode)

  const IDLE := Assembly([], false, 0)

  datatype Effect = Effect(asm: Assembly, out: seq<Output>, stop: bool)

  function CloseWith(asm: Assembly, code: nat): Effect {
    Effect(asm, [Reply(CLOSE, BigEndian(code, 2))], true)
  }

  /** One complete frame. */
  function OnFrame(asm: Assembly, fin: bool, opcode: Opcode, payload: seq<byte>): Effect {
    if opcode == CLOSE then CloseWith(asm, 1000)
    else if opcode == PING then Effect(asm, [Reply(PONG, payload)], false)
    else if opcode == PONG then Effect(asm, [], false)
    else if opcode == CONT then
      if !asm.continued then CloseWith(asm, 1002)
      else
        var message := asm.message + payload;
        if !fin then Effect(asm.(message := message), [], false)
        else if asm.startOpcode == TEXT || asm.startOpcode == BIN then Effect(IDLE, [Deliver(message)], false)
        else Effect(IDLE, [], false)
    else if opcode == TEXT || opcode == BIN then
      if asm.continued then CloseWith(asm, 1002)
      else if fin then Effect(asm, [Deliver(payload)], false)
      else Effect(Assembly(payload, true, opcode), [], false)
    else Effect(asm, [], false)
  }

  /** `Undefined` is reached when a frame size wraps around (see `WebSocketFrame.Overflow`). */
  datatype Status = Listening | Closed | Undefined

  /** `taken` counts the stream bytes that belong to completed frames. */
  datatype Engine = Engine(asm: Assembly, log: seq<Output>, status: Status, taken: nat)

  const START := Engine(IDLE, [], Listening, 0)

  function Apply(e: Engine, x: Effect, size: nat): Engine {
    Engine(x.asm, e.log + x.out, if x.stop then Closed else Listening, e.taken + size)
  }

  function Step(e: Engine, d: Decision): Engine
    requires !d.NeedMore?
  {
    match d
    case BadMask => Apply(e, CloseWith(e.asm, 1002), 0)
    case Overflow => e.(status := Undefined)
    case Frame(fin, opcode, payload, size) => Apply(e, OnFrame(e.asm, fin, opcode, payload), size)
  }

  /** One pass over `rx`: handle frames until more bytes are needed or the loop stops. */
  function Drain(role: Role, rx: seq<byte>, e: Engine): Engine
    decreases |rx|, if e.status.Listening? then 1 else 0
  {
    var d := Decide(role, rx);
    if !e.status.Listening? || d.NeedMore? then e
    else if d.Frame? then
      DecideSize(role, rx);
      Drain(role, rx[d.size..], Step(e, d))
    else Step(e, d)
  }

  // ---------------------------------------------------------------- chunking independence

  /** `taken` stays inside what was fed. */
  lemma {:induction false} DrainBounds(role: Role, rx: seq<byte>, e: Engine)
    ensures e.taken <= Drain(role, rx, e).taken <= e.taken + |rx|
    ensures e.log <= Drain(role, rx, e).log
    decreases |rx|
  {
    var d := Decide(role, rx);
    if e.status.Listening? && d.Frame? {
      DecideSize(role, rx);
      DrainBounds(role, rx[d.size..], Step(e, d));
    }
  }

  function Remainder(rx: seq<byte>, before: Engine, after: Engine): seq<byte>
    requires before.taken <= after.taken <= before.taken + |rx|
  {
    rx[after.taken - before.taken..]
  }

  /** Draining a buffer and then what is left of it together with later bytes is one pass. */
  lemma {:induction false} DrainAppend(role: Role, rx: seq<byte>, more: seq<byte>, e: Engine)
    ensures var mid := Drain(role, rx, e);
            && e.taken <= mid.taken <= e.taken + |rx|
            && Drain(role, rx + more, e) == Drain(role, Remainder(rx, e, mid) + more, mid)
    decreases |rx|
  {
    hide Decide, OnFrame;
    DrainBounds(role, rx, e);
    var d := Decide(role, rx);
    if !e.status.Listening? || d.NeedMore? {
      assert Remainder(rx, e, e) == rx;
    } else {
      DecideStable(role, rx, more);
      if d.Frame? {
        DecideSize(role, rx);
        var rest, next := rx[d.size..], Step(e, d);
        assert (rx + more)[d.size..] == rest + more;
        DrainAppend(role, rest, more, next);
        var mid := Drain(role, rest, next);
        assert Remainder(rest, next, mid) == Remainder(rx, e, mid);
      }
    }
  }

  /** The loop over successive reads: each piece is appended to the unparsed remainder and drained. */
  function Feed(role: Role, pieces: seq<seq<byte>>, rx: seq<byte>, e: Engine): Engine {
    if pieces == [] || !e.status.Listening? then e
    else
      var buffer := rx + pieces[0];
      var next := Drain(role, buffer, e);
      DrainBounds(role, buffer, e);
      Feed(role, pieces[1..], Remainder(buffer, e, next), next)
  }

  lemma {:induction false} FeedIsOnePass(role: Role, pieces: seq<seq<byte>>, rx: seq<byte>, e: Engine)
    requires Decide(role, rx).NeedMore?
    ensures Feed(role, pieces, rx, e) == Drain(role, rx + Concat(pieces), e)
    decreases |pieces|
  {
    if pieces == [] {
      assert rx + Concat(pieces) == rx;
    } else if e.status.Listening? {
      var buffer := rx + pieces[0];
      var next := Drain(role, buffer, e);
      DrainAppend(role, buffer, Concat(pieces[1..]), e);
      assert rx + Concat(pieces) == buffer + Concat(pieces[1..]);
      var rest := Remainder(buffer, e, next);
      if next.status.Listening? {
        DrainStopsShort(role, buffer, e);
        FeedIsOnePass(role, pieces[1..], rest, next);
      }
    }
  }

  lemma {:induction false} DrainStopsShort(role: Role, rx: seq<byte>, e: Engine)
    requires Drain(role, rx, e).status.Listening?
    ensures e.taken <= Drain(role, rx, e).taken <= e.taken + |rx|
    ensures Decide(role, Remainder(rx, e, Drain(role, rx, e))).NeedMore?
    decreases |rx|
  {
    hide Decide, OnFrame;
    DrainBounds(role, rx, e);
    var d := Decide(role, rx);
    if d.NeedMore? {
      assert Remainder(rx, e, e) == rx;
    } else if d.Frame? && e.status.Listening? {
      DecideSize(role, rx);
      var rest, next := rx[d.size..], Step(e, d);
      DrainStopsShort(role, rest, next);
      assert Remainder(rest, next, Drain(role, rest, next)) == Remainder(rx, e, Drain(role, rest, next));
    }
  }

  /** Two ways to cut the same stream end in the same engine: same deliveries and replies in the same
      order, same status, same stop point. */
  lemma ChunkingIndependence(role: Role, pieces: seq<seq<byte>>, pieces': seq<seq<byte>>)
    requires Concat(pieces) == Concat(pieces')
    ensures Feed(role, pieces, [], START) == Feed(role, pieces', [], START) == Drain(role, Concat(pieces), START)
  {
    FeedIsOnePass(role, pieces, [], START);
    FeedIsOnePass(role, pieces', [], START);
    assert [] + Concat(pieces) == Concat(pieces);
  }

  /** Ten bytes from a server after which a client's loop leaves defined behaviour. */
  lemma UndefinedReached()
    ensures Drain(Client, HUGE_HEADER, START).status == Undefined
  {
    OverflowExists();
    hide Decide;
  }

  // ---------------------------------------------------------------- reassembly invariant

  predicate Sound(asm: Assembly) {
    && (asm.continued <==> asm.startOpcode == TEXT || asm.startOpcode == BIN)
    && (!asm.continued ==> asm.message == [] && asm.startOpcode == 0)
  }

  /** In every state the loop reaches, whatever the peer sends. */
  lemma {:induction false} AlwaysSound(role: Role, rx: seq<byte>, e: Engine)
    requires Sound(e.asm)
    ensures Sound(Drain(role, rx, e).asm)
    decreases |rx|
  {
    var d := Decide(role, rx);
    if e.status.Listening? && d.Frame? {
      DecideSize(role, rx);
      AlwaysSound(role, rx[d.size..], Step(e, d));
    }
  }

  // ---------------------------------------------------------------- the method

  function Delivered(log: seq<Output>): seq<seq<byte>> {
    if log == [] then []
    else Delivered(log[..|log| - 1]) + match log[|log| - 1]
      case Deliver(message) => [message]
      case Reply(_, _) => []
  }

  function Replies(log: seq<Output>): seq<Output> {
    if log == [] then []
    else Replies(log[..|log| - 1]) + match log[|log| - 1]
      case Deliver(_) => []
      case Reply(_, _) => [log[|log| - 1]]
  }

  lemma LogSnoc(log: seq<Output>, x: Output)
    ensures Delivered(log + [x]) == Delivered(log) + if x.Deliver? then [x.message] else []
    ensures Replies(log + [x]) == Replies(log) + if x.Reply? then [x] else []
  {
    assert (log + [x])[..|log|] == log;
  }

  /** `bytes` is the reply as `buildFrame` prints it, with some mask. */
  ghost predicate Renders(bytes: seq<byte>, reply: Output, role: Role) {
    reply.Reply? && exists mask: Mask :: bytes == FrameBytes(true, reply.opcode, reply.payload, role, mask)
  }

  ghost predicate RendersAll(frames: seq<seq<byte>>, replies: seq<Output>, role: Role) {
    |frames| == |replies| && forall i :: 0 <= i < |frames| ==> Renders(frames[i], replies[i], role)
  }

  class WebSocketConnection {
    const role: Role
    const conn: Connection
    var closed: bool
    var delivered: seq<seq<byte>>  // the arguments of the calls to onMessage

    constructor (conn: Connection, role: Role)
      ensures this.conn == conn && this.role == role && !closed && delivered == []
    {
      this.conn, this.role := conn, role;
      closed, delivered := false, [];
    }

    method RandomMask() returns (m: Mask)
    {
      var a: byte, b: byte, c: byte, d: byte := *, *, *, *;
      m := [a, b, c, d];
    }

    /** The outside world agrees with `log`: `onMessage` got its messages, and the frames written since
        the connection had written `w0` render its replies. */
    ghost predicate Performed(log: seq<Output>, w0: seq<seq<byte>>)
      reads this, conn
    {
      && delivered == Delivered(log)
      && w0 <= conn.written
      && RendersAll(conn.written[|w0|..], Replies(log), role)
    }

    method WriteReply(opcode: Opcode, payload: seq<byte>, ghost log: seq<Output>, ghost w0: seq<seq<byte>>)
      requires |payload| < TWO_64 && Performed(log, w0)
      modifies conn`written
      ensures Performed(log + [Reply(opcode, payload)], w0)
    {
      var mask := RandomMask();
      var frame := BuildFrame(opcode, payload, role, mask);
      ghost var before := conn.written;
      var _ := conn.Write(frame);
      LogSnoc(log, Reply(opcode, payload));
      assert Renders(frame, Reply(opcode, payload), role);
      assert conn.written[|w0|..] == before[|w0|..] + [frame];
    }

    /** `send`: one frame with the whole message. */
    method Send(message: seq<byte>, binary: bool) returns (ok: bool, ghost mask: Mask)
      requires |message| < TWO_64
      modifies conn`written
      ensures conn.written == old(conn.written) + [FrameBytes(true, if binary then BIN else TEXT, message, role, mask)]
      ensures ok == conn.accepts(|old(conn.written)|)
    {
      var m := RandomMask();
      mask := m;
      var frame := BuildFrame(if binary then BIN else TEXT, message, role, m);
      ok := conn.Write(frame);
    }

    method OnMessage(message: seq<byte>, ghost log: seq<Output>, ghost w0: seq<seq<byte>>)
      requires Performed(log, w0)
      modifies this`delivered
      ensures Performed(log + [Deliver(message)], w0)
    {
      LogSnoc(log, Deliver(message));
      delivered := delivered + [message];
    }

    method CloseWithCode(code: nat, asm: Assembly, ghost log: seq<Output>, ghost w0: seq<seq<byte>>)
      requires Performed(log, w0)
      modifies this`closed, conn`written
      ensures closed && Performed(log + CloseWith(asm, code).out, w0)
    {
      WriteReply(CLOSE, BigEndian(code, 2), log, w0);
      closed := true;
    }

    /** `hdr` is 0 while the length field is incomplete. */
    method LengthField(rx: seq<byte>, pos: nat) returns (hdr: nat, payloadLen: nat)
      requires pos + 2 <= |rx|
      ensures hdr == HeaderSize(rx[pos..])
      ensures hdr > 0 ==> pos + hdr <= |rx| && payloadLen == PayloadLength(rx[pos..])
    {
      ghost var view := rx[pos..];
      assert view[1] == rx[pos + 1];
      hdr, payloadLen := 2, rx[pos + 1] % 128;
      if payloadLen == 126 {
        if |rx| - pos < hdr + 2 {
          return 0, 0;
        }
        payloadLen := BigEndianField(rx, pos + 2, 2);
        assert rx[pos + 2..pos + 4] == view[2..4];
        hdr := hdr + 2;
      } else if payloadLen == 127 {
        if |rx| - pos < hdr + 8 {
          return 0, 0;
        }
        payloadLen := BigEndianField(rx, pos + 2, 8);
        assert rx[pos + 2..pos + 10] == view[2..10];
        hdr := hdr + 8;
      }
    }

    /** Header fields, length and payload of the frame at `pos`, read in place. */
    method NextFrame(rx: seq<byte>, pos: nat) returns (d: Decision)
      requires pos <= |rx|
      ensures d == Decide(role, rx[pos..])
    {
      hide HeaderSize, PayloadLength, ApplyMask;
      ghost var view := rx[pos..];
      if |rx| - pos < 2 {
        return NeedMore;
      }
      var b0, b1 := rx[pos], rx[pos + 1];
      assert view[0] == b0 && view[1] == b1;
      var isMasked := b1 >= 0x80;
      if role.Server? && !isMasked {
        return BadMask;
      }
      if role.Client? && isMasked {
        return BadMask;
      }
      var hdr, payloadLen := LengthField(rx, pos);
      if hdr == 0 {
        return NeedMore;
      }
      var start := hdr + if isMasked then 4 else 0;
      var need := (start + payloadLen) % TWO_64;
      if |rx| - pos < need {
        return NeedMore;
      }
      if start + payloadLen >= TWO_64 {
        return Overflow;
      }
      assert need == start + payloadLen;
      var raw := rx[pos + start..pos + start + payloadLen];
      SliceOfSuffix(rx, pos, start, start + payloadLen);
      var mask: Mask := [0, 0, 0, 0];
      if isMasked {
        mask := rx[pos + hdr..pos + start];
        SliceOfSuffix(rx, pos, hdr, start);
      }
      var chunk := MaskedCopy(raw, isMasked, mask);
      d := Frame(b0 >= 0x80, b0 % 16, chunk, start + payloadLen);
    }

    method BigEndianField(rx: seq<byte>, from: nat, n: nat) returns (v: nat)
      requires from + n <= |rx|
      ensures v == Value(rx[from..from + n])
    {
      v := 0;
      var i := 0;
      while i < n
        invariant 0 <= i <= n
        invariant v == Value(rx[from..from + i])
      {
        assert rx[from..from + i + 1][..i] == rx[from..from + i];
        v := v * 256 + rx[from + i];
        i := i + 1;
      }
    }

    method HandleFrame(asm: Assembly, fin: bool, opcode: Opcode, chunk: seq<byte>,
                       ghost log: seq<Output>, ghost w0: seq<seq<byte>>)
      returns (next: Assembly, stop: bool)
      requires |chunk| < TWO_64 && !closed && Performed(log, w0)
      modifies this`closed, this`delivered, conn`written
      ensures var x := OnFrame(asm, fin, opcode, chunk);
              next == x.asm && stop == x.stop == closed && Performed(log + x.out, w0)
    {
      next, stop := asm, false;
      assert log + [] == log;
      if opcode == CLOSE {
        CloseWithCode(1000, asm, log, w0);
        stop := true;
      } else if opcode == PING {
        WriteReply(PONG, chunk, log, w0);
      } else if opcode == PONG {
      } else if opcode == CONT {
        if !asm.continued {
          CloseWithCode(1002, asm, log, w0);
          stop := true;
        } else {
          next := asm.(message := asm.message + chunk);
          if fin {
            if asm.startOpcode == TEXT || asm.startOpcode == BIN {
              OnMessage(next.message, log, w0);
            }
            next := Assembly([], false, 0);
          }
        }
      } else if opcode == TEXT || opcode == BIN {
        if asm.continued {
          CloseWithCode(1002, asm, log, w0);
          stop := true;
        } else if fin {
          OnMessage(chunk, log, w0);
        } else {
          next := Assembly(chunk, true, opcode);
        }
      }
    }

    /** The inner loop: handle the frames in `rx` and keep the bytes of an unfinished one. */
    method DrainBuffer(rx: seq<byte>, asm: Assembly, ghost e: Engine, ghost w0: seq<seq<byte>>)
      returns (rest: seq<byte>, asm': Assembly, stop: bool, ghost e': Engine)
      requires !closed && e.status.Listening? && asm == e.asm && Performed(e.log, w0)
      modifies this`closed, this`delivered, conn`written
      ensures e' == Drain(role, rx, e) && stop == !e'.status.Listening? && closed == e'.status.Closed?
      ensures !stop ==> asm' == e'.asm
      ensures !stop ==> e.taken <= e'.taken <= e.taken + |rx| && rest == Remainder(rx, e, e')
      ensures Performed(e'.log, w0)
    {
      var pos := 0;
      e', asm', stop, rest := e, asm, false, rx;
      while true
        invariant 0 <= pos <= |rx| && rest == rx[pos..] && e'.taken == e.taken + pos
        invariant e'.status.Listening? && asm' == e'.asm && !closed && !stop
        invariant Drain(role, rest, e') == Drain(role, rx, e)
        invariant Performed(e'.log, w0)
        decreases |rx| - pos
      {
        var d := NextFrame(rx, pos);
        if d.NeedMore? {
          return;
        }
        if d.Overflow? {
          e', stop := Step(e', d), true;
          return;
        }
        if d.BadMask? {
          CloseWithCode(1002, asm', e'.log, w0);
          e', stop := Step(e', d), true;
          return;
        }
        DecideSize(role, rest);
        asm', stop := HandleFrame(asm', d.fin, d.opcode, d.payload, e'.log, w0);
        pos := pos + d.size;
        e' := Step(e', d);
        assert rest[d.size..] == rx[pos..];
        rest := rx[pos..];
        if stop {
          return;
        }
      }
    }

    /** The whole loop, for every way the transport hands over the stream: the outcome is that of one
        pass over the stream. End of stream leaves the connection open. */
    method Listen(bufferSize: nat) returns (ghost final: Engine)
      requires bufferSize > 0 && delivered == []
      modifies this`closed, this`delivered, conn`written, conn`incoming
      ensures final == if old(closed) then START else Drain(role, old(conn.incoming), START)
      ensures closed <==> old(closed) || final.status.Closed?
      ensures Performed(final.log, old(conn.written))
    {
      ghost var w0 := conn.written;
      var rx: seq<byte>, asm, stop := [], IDLE, false;
      ghost var e := START;
      assert rx + conn.incoming == conn.incoming;
      while !closed
        invariant e.status.Listening? && asm == e.asm && closed == old(closed)
        invariant closed ==> e == START
        invariant Decide(role, rx).NeedMore?
        invariant Drain(role, rx + conn.incoming, e) == Drain(role, old(conn.incoming), START)
        invariant Performed(e.log, w0)
        decreases |conn.incoming|
      {
        ghost var before := conn.incoming;
        var piece := conn.Read(bufferSize);
        if piece == [] {
          assert rx + before == rx;
          return e;
        }
        assert rx + before == (rx + piece) + conn.incoming;
        rx := rx + piece;
        DrainAppend(role, rx, conn.incoming, e);
        ghost var e0 := e;
        var rest: seq<byte>;
        rest, asm, stop, e := DrainBuffer(rx, asm, e0, w0);
        if stop {
          return e;
        }
        DrainStopsShort(role, rx, e0);
        rx := rest;
      }
      final := e;
    }
  }
}
