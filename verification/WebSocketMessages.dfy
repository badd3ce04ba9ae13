/** Fragmented messages with control frames in between (section 5.4 of RFC 6455), and delivery from one
    end of a connection to the other. */
module WebSocketMessages {
  import opened Bytes
  import opened WebSocketFrame
  import opened WebSocketListen

  datatype WireFrame = WireFrame(fin: bool, opcode: Opcode, payload: seq<byte>)

  /** The reassembler on a sequence of frames: it stops at the first violation or close frame. */
  function RunFrames(asm: Assembly, frames: seq<WireFrame>): Effect
    decreases |frames|
  {
    if frames == [] then Effect(asm, [], false)
    else
      var x := OnFrame(asm, frames[0].fin, frames[0].opcode, frames[0].payload);
      if x.stop then x
      else
        var y := RunFrames(x.asm, frames[1..]);
        Effect(y.asm, x.out + y.out, y.stop)
  }

  lemma {:induction false} RunSplit(asm: Assembly, a: seq<WireFrame>, b: seq<WireFrame>)
    ensures var x := RunFrames(asm, a);
            var y := RunFrames(x.asm, b);
            RunFrames(asm, a + b) == if x.stop then x else Effect(y.asm, x.out + y.out, y.stop)
    decreases |a|
  {
    if a == [] {
      assert a + b == b;
    } else {
      assert (a + b)[1..] == a[1..] + b;
      RunSplit(OnFrame(asm, a[0].fin, a[0].opcode, a[0].payload).asm, a[1..], b);
    }
  }

  lemma RunCons(asm: Assembly, f: WireFrame, b: seq<WireFrame>)
    ensures var x := OnFrame(asm, f.fin, f.opcode, f.payload);
            var y := RunFrames(x.asm, b);
            RunFrames(asm, [f] + b) == if x.stop then x else Effect(y.asm, x.out + y.out, y.stop)
  {
    assert ([f] + b)[1..] == b;
  }

  // ---------------------------------------------------------------- the grammar of legal streams

  /** Frames that may stand between fragments. Opcodes without a meaning are skipped. */
  datatype Control = Control(fin: bool, opcode: Opcode, payload: seq<byte>)

  predicate IsControl(c: Control) {
    c.opcode != CONT && c.opcode != TEXT && c.opcode != BIN && c.opcode != CLOSE
  }

  /** A continuation fragment and the control frames right before it. */
  datatype Fragment = Fragment(before: seq<Control>, payload: seq<byte>)

  datatype Unit =
    | Lone(control: Control)
    | Message(opcode: Opcode, first: seq<byte>, rest: seq<Fragment>)

  /** A message whose last fragment has not come yet, with the control frames after its last one. */
  datatype Tail = NoTail | Partial(opcode: Opcode, first: seq<byte>, rest: seq<Fragment>, after: seq<Control>)

  predicate AllControl(cs: seq<Control>) {
    forall i :: 0 <= i < |cs| ==> IsControl(cs[i])
  }

  predicate LegalRest(rest: seq<Fragment>) {
    forall i :: 0 <= i < |rest| ==> AllControl(rest[i].before)
  }

  predicate LegalUnit(u: Unit) {
    match u
    case Lone(c) => IsControl(c)
    case Message(opcode, _, rest) => opcode in {TEXT, BIN} && LegalRest(rest)
  }

  predicate LegalTail(t: Tail) {
    t.Partial? ==> t.opcode in {TEXT, BIN} && LegalRest(t.rest) && AllControl(t.after)
  }

  predicate Legal(units: seq<Unit>, tail: Tail) {
    (forall i :: 0 <= i < |units| ==> LegalUnit(units[i])) && LegalTail(tail)
  }

  function ControlFrames(cs: seq<Control>): seq<WireFrame> {
    if cs == [] then [] else [WireFrame(cs[0].fin, cs[0].opcode, cs[0].payload)] + ControlFrames(cs[1..])
  }

  /** Continuation frames; the last one has the FIN bit when `complete`. */
  function RestFrames(rest: seq<Fragment>, complete: bool): seq<WireFrame> {
    if rest == [] then []
    else
      var fin := complete && |rest| == 1;
      ControlFrames(rest[0].before) + [WireFrame(fin, CONT, rest[0].payload)] + RestFrames(rest[1..], complete)
  }

  function UnitFrames(u: Unit): seq<WireFrame> {
    match u
    case Lone(c) => ControlFrames([c])
    case Message(opcode, first, rest) => [WireFrame(rest == [], opcode, first)] + RestFrames(rest, true)
  }

  function TailFrames(t: Tail): seq<WireFrame> {
    match t
    case NoTail => []
    case Partial(opcode, first, rest, after) =>
      [WireFrame(false, opcode, first)] + RestFrames(rest, false) + ControlFrames(after)
  }

  function StreamFrames(units: seq<Unit>, tail: Tail): seq<WireFrame> {
    if units == [] then TailFrames(tail) else UnitFrames(units[0]) + StreamFrames(units[1..], tail)
  }

  // ---------------------------------------------------------------- what a legal stream means

  /** Every ping is answered by a pong with the same payload. */
  function Pongs(cs: seq<Control>): seq<Output> {
    if cs == [] then []
    else (if cs[0].opcode == PING then [Reply(PONG, cs[0].payload)] else []) + Pongs(cs[1..])
  }

  function RestPongs(rest: seq<Fragment>): seq<Output> {
    if rest == [] then [] else Pongs(rest[0].before) + RestPongs(rest[1..])
  }

  function RestPayload(rest: seq<Fragment>): seq<byte> {
    if rest == [] then [] else rest[0].payload + RestPayload(rest[1..])
  }

  function UnitMeaning(u: Unit): seq<Output> {
    match u
    case Lone(c) => Pongs([c])
    case Message(_, first, rest) => RestPongs(rest) + [Deliver(first + RestPayload(rest))]
  }

  function TailMeaning(t: Tail): seq<Output> {
    match t
    case NoTail => []
    case Partial(_, _, rest, after) => RestPongs(rest) + Pongs(after)
  }

  function Meaning(units: seq<Unit>, tail: Tail): seq<Output> {
    if units == [] then TailMeaning(tail) else UnitMeaning(units[0]) + Meaning(units[1..], tail)
  }

  function TailAssembly(t: Tail): Assembly {
    match t
    case NoTail => IDLE
    case Partial(opcode, first, rest, _) => Assembly(first + RestPayload(rest), true, opcode)
  }

  // ---------------------------------------------------------------- the code has that meaning

  lemma {:induction false} RunControls(asm: Assembly, cs: seq<Control>)
    requires AllControl(cs)
    ensures RunFrames(asm, ControlFrames(cs)) == Effect(asm, Pongs(cs), false)
  {
    if cs != [] {
      var frame := WireFrame(cs[0].fin, cs[0].opcode, cs[0].payload);
      RunControls(asm, cs[1..]);
      RunCons(asm, frame, ControlFrames(cs[1..]));
    }
  }

  lemma {:induction false} RunRest(asm: Assembly, rest: seq<Fragment>, complete: bool)
    requires LegalRest(rest) && asm.continued && asm.startOpcode in {TEXT, BIN}
    ensures RunFrames(asm, RestFrames(rest, complete)) ==
            if complete && rest != []
            then Effect(IDLE, RestPongs(rest) + [Deliver(asm.message + RestPayload(rest))], false)
            else Effect(asm.(message := asm.message + RestPayload(rest)), RestPongs(rest), false)
    decreases |rest|
  {
    hide OnFrame, RunFrames, ControlFrames, Pongs;
    if rest == [] {
      RunNothing(asm);
      assert asm.message + [] == asm.message;
    } else {
      var f, cs := rest[0], ControlFrames(rest[0].before);
      var fin := complete && |rest| == 1;
      var others := RestFrames(rest[1..], complete);
      var frame := WireFrame(fin, CONT, f.payload);
      var message, later := asm.message + f.payload, RestPongs(rest[1..]);
      assert RestFrames(rest, complete) == cs + ([frame] + others);
      RunControls(asm, f.before);
      RunSplit(asm, cs, [frame] + others);
      RunCons(asm, frame, others);
      OnContinuation(asm, fin, f.payload);
      assert RestPongs(rest) == Pongs(f.before) + later;
      assert message + RestPayload(rest[1..]) == asm.message + RestPayload(rest);
      var done := [Deliver(asm.message + RestPayload(rest))];
      if fin {
        assert rest[1..] == [];
        RunNothing(IDLE);
        assert message == asm.message + RestPayload(rest);
        assert Pongs(f.before) + (done + []) == RestPongs(rest) + done;
      } else {
        RunRest(asm.(message := message), rest[1..], complete);
        assert Pongs(f.before) + ([] + (later + done)) == RestPongs(rest) + done;
        assert Pongs(f.before) + ([] + later) == RestPongs(rest);
      }
    }
  }

  lemma RunNothing(asm: Assembly)
    ensures RunFrames(asm, []) == Effect(asm, [], false)
  {
  }

  lemma OnContinuation(asm: Assembly, fin: bool, payload: seq<byte>)
    requires asm.continued && asm.startOpcode in {TEXT, BIN}
    ensures OnFrame(asm, fin, CONT, payload) ==
            if fin then Effect(IDLE, [Deliver(asm.message + payload)], false)
            else Effect(asm.(message := asm.message + payload), [], false)
  {
  }

  lemma RunUnit(u: Unit)
    requires LegalUnit(u)
    ensures RunFrames(IDLE, UnitFrames(u)) == Effect(IDLE, UnitMeaning(u), false)
  {
    match u
    case Lone(c) => RunControls(IDLE, [c]);
    case Message(opcode, first, rest) =>
      if rest == [] {
        assert UnitFrames(u) == [WireFrame(true, opcode, first)];
        assert UnitFrames(u)[1..] == [];
        assert first + [] == first;
      } else {
        assert UnitFrames(u)[1..] == RestFrames(rest, true);
        RunRest(Assembly(first, true, opcode), rest, true);
      }
  }

  lemma RunTail(t: Tail)
    requires LegalTail(t)
    ensures RunFrames(IDLE, TailFrames(t)) == Effect(TailAssembly(t), TailMeaning(t), false)
  {
    if t.Partial? {
      var asm := Assembly(t.first, true, t.opcode);
      var open := RestFrames(t.rest, false);
      assert TailFrames(t)[1..] == open + ControlFrames(t.after);
      RunRest(asm, t.rest, false);
      RunControls(TailAssembly(t), t.after);
      RunSplit(asm, open, ControlFrames(t.after));
    }
  }

  /** A legal stream is never rejected, and produces its meaning. */
  lemma {:induction false} LegalStreamRuns(units: seq<Unit>, tail: Tail)
    requires Legal(units, tail)
    ensures RunFrames(IDLE, StreamFrames(units, tail)) == Effect(TailAssembly(tail), Meaning(units, tail), false)
  {
    if units == [] {
      RunTail(tail);
    } else {
      RunUnit(units[0]);
      LegalStreamRuns(units[1..], tail);
      RunSplit(IDLE, UnitFrames(units[0]), StreamFrames(units[1..], tail));
    }
  }

  // ---------------------------------------------------------------- and accepts nothing else

  lemma PrependControl(c: Control, rest: seq<Fragment>, complete: bool) returns (longer: seq<Fragment>)
    requires rest != [] && LegalRest(rest) && IsControl(c)
    ensures longer != [] && LegalRest(longer)
    ensures RestFrames(longer, complete) == ControlFrames([c]) + RestFrames(rest, complete)
  {
    var head := Fragment([c] + rest[0].before, rest[0].payload);
    longer := [head] + rest[1..];
    assert head.before[1..] == rest[0].before;
    assert ControlFrames(head.before) == ControlFrames([c]) + ControlFrames(rest[0].before);
    assert longer[1..] == rest[1..];
  }

  lemma PrependFragment(payload: seq<byte>, rest: seq<Fragment>, complete: bool) returns (longer: seq<Fragment>)
    requires LegalRest(rest)
    ensures longer != [] && LegalRest(longer)
    ensures RestFrames(longer, complete)
            == [WireFrame(complete && rest == [], CONT, payload)] + RestFrames(rest, complete)
  {
    longer := [Fragment([], payload)] + rest;
    assert longer[1..] == rest;
  }

  lemma RestOfNothing()
    ensures RestFrames([], true) == RestFrames([], false) == [] && ControlFrames([]) == []
  {
  }

  lemma OneControl(f: WireFrame)
    ensures ControlFrames([Control(f.fin, f.opcode, f.payload)]) == [f]
  {
    var c := Control(f.fin, f.opcode, f.payload);
    assert [c][1..] == [];
    assert f == WireFrame(f.fin, f.opcode, f.payload);
  }

  lemma ControlsCons(c: Control, cs: seq<Control>)
    ensures ControlFrames([c] + cs) == ControlFrames([c]) + ControlFrames(cs)
  {
    assert ([c] + cs)[1..] == cs && [c][1..] == [];
  }

  /** Continuation of an open message: either it completes after some fragments, or it stays open. */
  lemma {:induction false} ParseRest(asm: Assembly, frames: seq<WireFrame>)
    returns (rest: seq<Fragment>, after: seq<Control>, remaining: seq<WireFrame>, done: bool)
    requires asm.continued && asm.startOpcode in {TEXT, BIN} && !RunFrames(asm, frames).stop
    ensures LegalRest(rest) && AllControl(after)
    ensures done ==> rest != [] && frames == RestFrames(rest, true) + remaining
    ensures done ==> |remaining| < |frames| && !RunFrames(IDLE, remaining).stop
    ensures !done ==> frames == RestFrames(rest, false) + ControlFrames(after)
    decreases |frames|
  {
    hide ControlFrames, RestFrames;
    RestOfNothing();
    rest, after, remaining, done := [], [], [], false;
    if frames != [] {
      var f, tail := frames[0], frames[1..];
      assert frames == [f] + tail;
      if f.opcode == CONT && f.fin {
        remaining, done := tail, true;
        rest := PrependFragment(f.payload, [], true);
      } else if f.opcode == CONT {
        rest, after, remaining, done := ParseRest(asm.(message := asm.message + f.payload), tail);
        rest := PrependFragment(f.payload, rest, done);
      } else {
        var c := Control(f.fin, f.opcode, f.payload);
        OneControl(f);
        rest, after, remaining, done := ParseRest(asm, tail);
        if rest == [] {
          ControlsCons(c, after);
          after := [c] + after;
        } else {
          rest := PrependControl(c, rest, done);
        }
      }
    }
  }

  /** The first unit of a stream, or its unfinished message. */
  lemma ParseUnit(frames: seq<WireFrame>)
    returns (unit: Unit, tail: Tail, remaining: seq<WireFrame>)
    requires frames != [] && !RunFrames(IDLE, frames).stop
    ensures LegalUnit(unit) && LegalTail(tail) && |remaining| < |frames|
    ensures tail.NoTail? ==> frames == UnitFrames(unit) + remaining && !RunFrames(IDLE, remaining).stop
    ensures tail.Partial? ==> frames == TailFrames(tail)
  {
    var f := frames[0];
    assert frames == [f] + frames[1..];
    RunCons(IDLE, f, frames[1..]);
    unit, tail, remaining := Message(TEXT, [], []), NoTail, frames[1..];
    if f.opcode in {TEXT, BIN} && f.fin {
      unit := Message(f.opcode, f.payload, []);
      assert UnitFrames(unit) == [f];
    } else if f.opcode in {TEXT, BIN} {
      var rest, after, others, done := ParseRest(Assembly(f.payload, true, f.opcode), frames[1..]);
      hide OnFrame, RunFrames;
      if done {
        unit, remaining := Message(f.opcode, f.payload, rest), others;
      } else {
        tail := Partial(f.opcode, f.payload, rest, after);
      }
    } else {
      unit := Lone(Control(f.fin, f.opcode, f.payload));
      OneControl(f);
    }
  }

  lemma {:induction false} ParseStream(frames: seq<WireFrame>) returns (units: seq<Unit>, tail: Tail)
    requires !RunFrames(IDLE, frames).stop
    ensures Legal(units, tail) && frames == StreamFrames(units, tail)
    decreases |frames|
  {
    hide OnFrame, RunFrames, UnitFrames, TailFrames, LegalUnit;
    units, tail := [], NoTail;
    if frames == [] {
      assert TailFrames(NoTail) == [] by {
        TailOfNothing();
      }
    } else {
      var unit, open, remaining := ParseUnit(frames);
      tail := open;
      if open.NoTail? {
        units, tail := ParseStream(remaining);
        assert ([unit] + units)[1..] == units;
        units := [unit] + units;
      }
    }
  }

  lemma TailOfNothing()
    ensures TailFrames(NoTail) == []
  {
  }

  /** The loop keeps going on a sequence of frames if and only if the sequence is legal. */
  lemma AcceptsExactlyLegal(frames: seq<WireFrame>)
    ensures !RunFrames(IDLE, frames).stop <==>
            exists units, tail :: Legal(units, tail) && frames == StreamFrames(units, tail)
  {
    if !RunFrames(IDLE, frames).stop {
      var units, tail := ParseStream(frames);
    } else {
      forall units, tail | Legal(units, tail) && frames == StreamFrames(units, tail)
        ensures false
      {
        LegalStreamRuns(units, tail);
      }
    }
  }

  /** After a violation or a close frame nothing is delivered and nothing is answered. */
  lemma StopIsFinal(asm: Assembly, frames: seq<WireFrame>, more: seq<WireFrame>)
    requires RunFrames(asm, frames).stop
    ensures RunFrames(asm, frames + more) == RunFrames(asm, frames)
  {
    RunSplit(asm, frames, more);
  }

  lemma {:induction false} FirstStop(asm: Assembly, frames: seq<WireFrame>) returns (n: nat)
    requires RunFrames(asm, frames).stop
    ensures n < |frames| && !RunFrames(asm, frames[..n]).stop
    ensures var f := frames[n]; OnFrame(RunFrames(asm, frames[..n]).asm, f.fin, f.opcode, f.payload).stop
    decreases |frames|
  {
    hide OnFrame;
    var f := frames[0];
    var x := OnFrame(asm, f.fin, f.opcode, f.payload);
    RunNothing(asm);
    if x.stop {
      n := 0;
    } else {
      var m := FirstStop(x.asm, frames[1..]);
      n := m + 1;
      assert frames[..n] == [f] + frames[1..][..m];
      RunCons(asm, f, frames[1..][..m]);
    }
  }

  /** A close frame, a continuation of nothing, or a new message inside an unfinished one. */
  predicate Offends(tail: Tail, f: WireFrame) {
    || f.opcode == 0x8
    || (f.opcode == 0x0 && tail.NoTail?)
    || ((f.opcode == 0x1 || f.opcode == 0x2) && tail.Partial?)
  }

  /** The payload of a close frame with code 1000 or 1002. */
  function CodeOctets(f: WireFrame): seq<byte> {
    if f.opcode == 0x8 then [3, 232] else [3, 234]
  }

  lemma OffenceStops(tail: Tail, f: WireFrame)
    requires LegalTail(tail)
    ensures var x := OnFrame(TailAssembly(tail), f.fin, f.opcode, f.payload);
            && (x.stop <==> Offends(tail, f))
            && (x.stop ==> x == Effect(TailAssembly(tail), [WebSocketListen.Reply(0x8, CodeOctets(f))], true))
  {
    assert BigEndian(1000, 2) == [3, 232] && BigEndian(1002, 2) == [3, 234] by {
      TwoOctets(1000);
      TwoOctets(1002);
    }
  }

  /** The loop stops on a sequence only at a frame that offends after a legal beginning. What it has then put
      out is the meaning of that beginning and one close frame: the unfinished message and all that follows
      are dropped. */
  lemma StopsExactly(frames: seq<WireFrame>)
    returns (units: seq<Unit>, tail: Tail, f: WireFrame, more: seq<WireFrame>)
    requires RunFrames(IDLE, frames).stop
    ensures Legal(units, tail) && Offends(tail, f) && frames == StreamFrames(units, tail) + [f] + more
    ensures RunFrames(IDLE, frames)
            == Effect(TailAssembly(tail), Meaning(units, tail) + [WebSocketListen.Reply(0x8, CodeOctets(f))], true)
  {
    hide OnFrame, RunFrames, StreamFrames, Meaning;
    var n := FirstStop(IDLE, frames);
    units, tail := ParseStream(frames[..n]);
    f, more := frames[n], frames[n + 1..];
    LegalStreamRuns(units, tail);
    OffenceStops(tail, f);
    assert frames == frames[..n] + ([f] + more);
    RunSplit(IDLE, frames[..n], [f] + more);
    RunCons(TailAssembly(tail), f, more);
  }

  // ---------------------------------------------------------------- on bytes

  function WireBytes(frames: seq<WireFrame>, role: Role, masks: seq<Mask>): seq<byte>
    requires |masks| == |frames|
  {
    if frames == [] then []
    else FrameBytes(frames[0].fin, frames[0].opcode, frames[0].payload, role, masks[0])
         + WireBytes(frames[1..], role, masks[1..])
  }

  predicate Sendable(frames: seq<WireFrame>) {
    forall i :: 0 <= i < |frames| ==> |frames[i].payload| < MAX_LENGTH
  }

  lemma DrainOne(role: Role, f: WireFrame, mask: Mask, rest: seq<byte>, e: Engine)
    requires |f.payload| < MAX_LENGTH && e.status.Listening?
    ensures var x := OnFrame(e.asm, f.fin, f.opcode, f.payload);
            var bytes := FrameBytes(f.fin, f.opcode, f.payload, role, mask);
            Drain(Peer(role), bytes + rest, e) == Drain(Peer(role), rest, Apply(e, x, |bytes|))
  {
    var bytes := FrameBytes(f.fin, f.opcode, f.payload, role, mask);
    FrameRoundTrip(f.fin, f.opcode, f.payload, role, mask, rest);
    assert (bytes + rest)[|bytes|..] == rest;
  }

  /** The receive loop of the other end sees exactly the frames that were put on the wire. */
  lemma {:induction false} DrainFrames(role: Role, frames: seq<WireFrame>, masks: seq<Mask>, rest: seq<byte>, e: Engine)
    requires |masks| == |frames| && Sendable(frames) && e.status.Listening?
    ensures var x := RunFrames(e.asm, frames);
            var bytes := WireBytes(frames, role, masks);
            var after := Drain(Peer(role), bytes + rest, e);
            && (x.stop ==> after.status.Closed? && after.log == e.log + x.out && after.asm == x.asm)
            && (!x.stop ==> after == Drain(Peer(role), rest, Apply(e, x, |bytes|)))
    decreases |frames|
  {
    hide Drain, Decide, FrameBytes, OnFrame;
    var bytes := WireBytes(frames, role, masks);
    if frames == [] {
      assert bytes + rest == rest;
      assert e.log + [] == e.log;
    } else {
      var f := frames[0];
      var first := FrameBytes(f.fin, f.opcode, f.payload, role, masks[0]);
      var others := WireBytes(frames[1..], role, masks[1..]);
      assert bytes + rest == first + (others + rest);
      assert frames == [f] + frames[1..];
      DrainOne(role, f, masks[0], others + rest, e);
      RunCons(e.asm, f, frames[1..]);
      var x := OnFrame(e.asm, f.fin, f.opcode, f.payload);
      var next := Apply(e, x, |first|);
      if x.stop {
        DrainStopped(Peer(role), others + rest, next);
      } else {
        DrainFrames(role, frames[1..], masks[1..], rest, next);
        var y := RunFrames(x.asm, frames[1..]);
        assert next.log + y.out == e.log + (x.out + y.out);
      }
    }
  }

  lemma DrainStopped(role: Role, rx: seq<byte>, e: Engine)
    requires !e.status.Listening?
    ensures Drain(role, rx, e) == e
  {
  }

  /** Reassembly end to end: a legal stream of masked or plain frames means the same to the receiver. */
  lemma LegalStreamOnTheWire(role: Role, units: seq<Unit>, tail: Tail, masks: seq<Mask>)
    requires Legal(units, tail) && Sendable(StreamFrames(units, tail)) && |masks| == |StreamFrames(units, tail)|
    ensures var bytes := WireBytes(StreamFrames(units, tail), role, masks);
            Drain(Peer(role), bytes, START)
            == Engine(TailAssembly(tail), Meaning(units, tail), Listening, |bytes|)
  {
    var frames := StreamFrames(units, tail);
    var bytes := WireBytes(frames, role, masks);
    LegalStreamRuns(units, tail);
    DrainFrames(role, frames, masks, [], START);
    assert bytes + [] == bytes;
    assert [] + Meaning(units, tail) == Meaning(units, tail);
  }

  /** A violation on bytes: the receiver has delivered what was complete, answers with one close frame and
      ignores what follows. */
  lemma StopOnTheWire(role: Role, units: seq<Unit>, tail: Tail, f: WireFrame, masks: seq<Mask>, ignored: seq<byte>)
    requires Legal(units, tail) && Offends(tail, f)
    requires var frames := StreamFrames(units, tail) + [f]; Sendable(frames) && |masks| == |frames|
    ensures var after := Drain(Peer(role), WireBytes(StreamFrames(units, tail) + [f], role, masks) + ignored, START);
            && after.status.Closed?
            && after.log == Meaning(units, tail) + [WebSocketListen.Reply(0x8, CodeOctets(f))]
  {
    hide OnFrame, Drain, StreamFrames, Meaning;
    var frames := StreamFrames(units, tail) + [f];
    LegalStreamRuns(units, tail);
    OffenceStops(tail, f);
    RunSplit(IDLE, StreamFrames(units, tail), [f]);
    RunCons(TailAssembly(tail), f, []);
    assert [f] + [] == [f];
    DrainFrames(role, frames, masks, ignored, START);
    var out := Meaning(units, tail) + [WebSocketListen.Reply(0x8, CodeOctets(f))];
    assert RunFrames(IDLE, frames).stop && RunFrames(IDLE, frames).out == out;
    assert [] + out == out;
  }

  /** Two bytes whose mask bit does not fit the role are answered with one 1002 close frame. */
  lemma BadMaskCloses(role: Role, rx: seq<byte>, e: Engine)
    requires |rx| >= 2 && role.Server? != (rx[1] >= 0x80) && e.status.Listening?
    ensures Drain(role, rx, e) == Engine(e.asm, e.log + [WebSocketListen.Reply(0x8, [3, 234])], Closed, e.taken)
  {
    assert BigEndian(1002, 2) == [3, 234] by {
      TwoOctets(1002);
    }
  }

  // ---------------------------------------------------------------- senders

  /** One call into the sending end; the list of them is in the order the write lock was taken. */
  datatype Sending = Text(message: seq<byte>) | Binary(message: seq<byte>) | Answer(ping: seq<byte>)

  function SentFrame(s: Sending): WireFrame {
    match s
    case Text(m) => WireFrame(true, TEXT, m)
    case Binary(m) => WireFrame(true, BIN, m)
    case Answer(p) => WireFrame(true, PONG, p)
  }

  function SentFrames(sends: seq<Sending>): seq<WireFrame> {
    if sends == [] then [] else [SentFrame(sends[0])] + SentFrames(sends[1..])
  }

  function SentMessages(sends: seq<Sending>): seq<Output> {
    if sends == [] then []
    else (if sends[0].Answer? then [] else [Deliver(sends[0].message)]) + SentMessages(sends[1..])
  }

  lemma {:induction false} RunSends(sends: seq<Sending>)
    ensures |SentFrames(sends)| == |sends|
    ensures RunFrames(IDLE, SentFrames(sends)) == Effect(IDLE, SentMessages(sends), false)
  {
    if sends != [] {
      RunSends(sends[1..]);
      assert SentFrames(sends)[1..] == SentFrames(sends[1..]);
    }
  }

  /** All that several senders write under the lock arrives in lock order, and nothing else is taken. */
  lemma EndToEnd(role: Role, sends: seq<Sending>, masks: seq<Mask>)
    requires |SentFrames(sends)| == |masks| && Sendable(SentFrames(sends))
    ensures var bytes := WireBytes(SentFrames(sends), role, masks);
            Drain(Peer(role), bytes, START) == Engine(IDLE, SentMessages(sends), Listening, |bytes|)
  {
    var frames := SentFrames(sends);
    var bytes := WireBytes(frames, role, masks);
    RunSends(sends);
    DrainFrames(role, frames, masks, [], START);
    assert bytes + [] == bytes;
    assert [] + SentMessages(sends) == SentMessages(sends);
  }

  /** The same when the sender closes afterwards: the receiver answers with its own close frame. */
  lemma EndToEndClosed(role: Role, sends: seq<Sending>, masks: seq<Mask>, closing: Mask, ignored: seq<byte>)
    requires |SentFrames(sends)| == |masks| && Sendable(SentFrames(sends))
    ensures var frame := FrameBytes(true, CLOSE, BigEndian(1000, 2), role, closing);
            var bytes := WireBytes(SentFrames(sends), role, masks) + frame;
            Drain(Peer(role), bytes + ignored, START)
            == Engine(IDLE, SentMessages(sends) + [Reply(CLOSE, BigEndian(1000, 2))], Closed, |bytes|)
  {
    var frames := SentFrames(sends);
    var sent := WireBytes(frames, role, masks);
    var frame := FrameBytes(true, CLOSE, BigEndian(1000, 2), role, closing);
    RunSends(sends);
    DrainFrames(role, frames, masks, frame + ignored, START);
    assert sent + frame + ignored == sent + (frame + ignored);
    assert [] + SentMessages(sends) == SentMessages(sends);
    DrainOne(role, WireFrame(true, CLOSE, BigEndian(1000, 2)), closing, ignored,
             Engine(IDLE, SentMessages(sends), Listening, |sent|));
  }
}
