/** The Modbus TCP server loop: cutting the stream into requests, and the two ways a request can be
    mistaken for another one. */
module ModbusServer {
  import opened Bytes
  import opened Transport
  import opened Modbus

  // ---------------------------------------------------------------- framing

  function Declared(frame: seq<byte>): nat
    requires |frame| >= 6
  {
    Word(frame[4], frame[5])
  }

  /** The length field describes the frame exactly when the length fits it. */
  lemma FrameDeclares(tid: word16, unit: byte, code: byte, data: seq<byte>)
    ensures var frame := Request(tid, unit, code, data);
            6 + Declared(frame) == |frame| <==> |data| + 2 < TWO_16
  {
    hide High, Low, Word, Cut;
    WordRoundTrip(Cut(|data| + 2));
    CutExactly(|data| + 2);
  }

  /** `vector::resize`: keeps a prefix, fills with zeros. */
  function Resize(v: seq<byte>, n: nat): (r: seq<byte>)
    ensures |r| == n
  {
    seq(n, i requires 0 <= i < n => if i < |v| then v[i] else 0)
  }

  datatype Server = Server(registers: seq<word16>, replies: seq<seq<byte>>, defined: bool)

  function React(st: Server, request: seq<byte>): Server {
    match Process(request, st.registers)
    case Reply(response, registers) => Server(registers, st.replies + [response], true)
    case OutOfBounds => st.(defined := false)
  }

  /** The bytes of a request whose header has been read: what arrives, over what the reused buffer holds. */
  function Assemble(mbap: seq<byte>, buffer: seq<byte>, rest: seq<byte>): seq<byte>
    requires |mbap| == 6
  {
    var length := Declared(mbap);
    var got := Min(length, |rest|);
    mbap + rest[..got] + Resize(buffer, length)[got..]
  }

  /** One pass of the server loop over a stream. A request cut off by the end of the stream is processed
      all the same, completed with what the reused buffer holds. */
  function Serve(s: seq<byte>, buffer: seq<byte>, st: Server): Server
    decreases |s|
  {
    if |s| < 6 || !st.defined then st
    else
      var request := Assemble(s[..6], buffer, s[6..]);
      Serve(s[6 + Min(Declared(s[..6]), |s| - 6)..], request, React(st, request))
  }

  /** A whole number of frames, each as `makeRequest` builds it within its length field. */
  predicate IsFrame(f: seq<byte>) {
    |f| >= 6 && |f| == 6 + Declared(f)
  }

  function ReactAll(st: Server, frames: seq<seq<byte>>): Server
    decreases |frames|
  {
    if frames == [] || !st.defined then st else ReactAll(React(st, frames[0]), frames[1..])
  }

  lemma ServeOne(f: seq<byte>, rest: seq<byte>, buffer: seq<byte>, st: Server)
    requires IsFrame(f) && st.defined
    ensures Serve(f + rest, buffer, st) == Serve(rest, f, React(st, f))
  {
    hide React;
    var s := f + rest;
    assert s[..6] == f[..6];
    assert Declared(s[..6]) == Declared(f);
    assert s[6..][..|f| - 6] == f[6..];
    assert Assemble(s[..6], buffer, s[6..]) == f;
    assert s[|f|..] == rest;
  }

  /** The server recovers exactly the requests sent, in order, whatever its buffer held before. */
  lemma {:induction false} StreamFraming(frames: seq<seq<byte>>, rest: seq<byte>, buffer: seq<byte>, st: Server)
    requires (forall i :: 0 <= i < |frames| ==> IsFrame(frames[i])) && |rest| < 6
    ensures Serve(Concat(frames) + rest, buffer, st) == ReactAll(st, frames)
    decreases |frames|
  {
    hide React;
    if frames == [] {
      assert Concat(frames) + rest == rest;
    } else if st.defined {
      var others := Concat(frames[1..]) + rest;
      assert Concat(frames) + rest == frames[0] + others;
      ServeOne(frames[0], others, buffer, st);
      StreamFraming(frames[1..], rest, frames[0], React(st, frames[0]));
    }
  }

  /** Every request handled leaves a trace: one more reply, or a read out of bounds. */
  lemma ReactMoves(st: Server, request: seq<byte>)
    ensures React(st, request) != st || !st.defined
  {
    hide Process;
    var r := Process(request, st.registers);
    if r.Reply? {
      assert |st.replies + [r.response]| == |st.replies| + 1;
    }
  }

  ghost predicate AllFrames(frames: seq<seq<byte>>) {
    forall i :: 0 <= i < |frames| ==> IsFrame(frames[i])
  }

  /** A stream that ends inside a frame is served as if it ended before it exactly when the cut is inside
      the six header bytes; otherwise the unfinished request is executed too. */
  lemma {:induction false} CutFrameExactly(frames: seq<seq<byte>>, rest: seq<byte>, buffer: seq<byte>, st: Server)
    requires AllFrames(frames) && ReactAll(st, frames).defined
    requires |rest| >= 6 ==> |rest| < 6 + Declared(rest)
    ensures Serve(Concat(frames) + rest, buffer, st) == ReactAll(st, frames) <==> |rest| < 6
    decreases |frames|
  {
    hide React;
    if |rest| < 6 {
      StreamFraming(frames, rest, buffer, st);
    } else if frames == [] {
      assert Concat(frames) + rest == rest;
      ServeCut(rest, buffer, st);
      ReactMoves(st, Assemble(rest[..6], buffer, rest[6..]));
    } else {
      DefinedBefore(st, frames);
      var others := Concat(frames[1..]) + rest;
      assert Concat(frames) + rest == frames[0] + others;
      ServeOne(frames[0], others, buffer, st);
      CutFrameExactly(frames[1..], rest, frames[0], React(st, frames[0]));
    }
  }

  lemma DefinedBefore(st: Server, frames: seq<seq<byte>>)
    requires ReactAll(st, frames).defined
    ensures st.defined
  {
  }

  /** A header that promises twelve bytes and delivers none of them writes a register: function code,
      address and value are leftovers of the request before, here its transaction id and length. */
  lemma StaleRequestWrites(unit: byte, value: word16)
    ensures var first, cut, st := WriteOneRequest(6, unit, 0, value), [0, 2, 0, 0, 0, 12], Server([0], [], true);
            && IsFrame(first)
            && React(st, first).registers == [value]
            && Serve(first + cut, [], st).registers == [6]
  {
    hide React, Serve;
    StaleFrame(unit, value);
    hide WriteOneRequest, Declared, IsFrame;
    StaleWrite(WriteOneRequest(6, unit, 0, value), [0, 2, 0, 0, 0, 12], value);
  }

  lemma StaleFrame(unit: byte, value: word16)
    ensures var first := WriteOneRequest(6, unit, 0, value);
            && |first| == 12 && first[..4] == [0, 6, 0, 0]
            && first[7] == 6 && first[8] == 0 && first[9] == 0
            && Word(first[10], first[11]) == value && Word(first[4], first[5]) == 6
            && IsFrame(first) && Declared([0, 2, 0, 0, 0, 12]) == 12
  {
    hide High, Low, Word;
    WordRoundTrip(value);
    SmallWord(0);
    SmallWord(6);
    SmallWord(12);
    var first := WriteOneRequest(6, unit, 0, value);
    assert first == [0, 6, 0, 0, 0, 6, unit, 6, 0, 0, High(value), Low(value)];
    assert first[..4] == [0, 6, 0, 0];
  }

  lemma SmallWord(x: byte)
    ensures High(x) == 0 && Low(x) == x && Word(0, x) == x
  {
  }

  lemma StaleWrite(first: seq<byte>, cut: seq<byte>, value: word16)
    requires |first| == 12 && IsFrame(first) && first[..4] == [0, 6, 0, 0]
    requires first[7] == 6 && first[8] == 0 && first[9] == 0 && Word(first[10], first[11]) == value
    requires |cut| == 6 && Declared(cut) == 12
    ensures var st := Server([0], [], true);
            && React(st, first).registers == [value]
            && Serve(first + cut, [], st).registers == [Word(first[4], first[5])]
  {
    hide React, Assemble, Serve, Declared, IsFrame, Word;
    OneRegister(first, 0, value, []);
    assert [] + [first] == [first];
    ServeOne(first, cut, [], Server([0], [], true));
    ServeCut(cut, first, Server([value], [first], true));
    StaleAssembled(first, cut);
    OneRegister(cut + first, value, Word(first[4], first[5]), [first]);
  }

  lemma StaleAssembled(first: seq<byte>, cut: seq<byte>)
    requires |first| == 12 && |cut| == 6 && Declared(cut) == 12
    ensures Assemble(cut[..6], first, cut[6..]) == cut + first
  {
    assert cut[..6] == cut && cut[6..] == [];
    assert Resize(first, 12) == first;
  }

  lemma ServeCut(cut: seq<byte>, buffer: seq<byte>, st: Server)
    requires 6 <= |cut| <= 6 + Declared(cut) && st.defined
    ensures Serve(cut, buffer, st) == React(st, Assemble(cut[..6], buffer, cut[6..]))
  {
    hide React, Assemble;
    assert Declared(cut[..6]) == Declared(cut);
    assert cut[6 + Min(Declared(cut[..6]), |cut| - 6)..] == [];
  }

  lemma OneRegister(request: seq<byte>, before: word16, value: word16, replies: seq<seq<byte>>)
    requires |request| >= 12 && request[7] == 6 && request[8] == 0 && request[9] == 0
    requires Word(request[10], request[11]) == value
    ensures React(Server([before], replies, true), request) == Server([value], replies + [request], true)
  {
  }

  // ---------------------------------------------------------------- calls on the wire

  /** What a client can ask for, and what it means for the registers. */
  datatype Call = Read(address: word16, count: word16)
                | WriteOne(address: word16, value: word16)
                | WriteMany(address: word16, values: seq<word16>)

  datatype Sent = Sent(tid: word16, unit: byte, call: Call)

  function RequestOf(m: Sent): seq<byte> {
    match m.call
    case Read(address, count) => ReadRequest(m.tid, m.unit, address, count)
    case WriteOne(address, value) => WriteOneRequest(m.tid, m.unit, address, value)
    case WriteMany(address, values) => WriteManyRequest(m.tid, m.unit, address, values)
  }

  function Meaning(registers: seq<word16>, call: Call): (r: seq<word16>)
    ensures |r| == |registers|
  {
    match call
    case Read(_, _) => registers
    case WriteOne(address, value) => if address < |registers| then registers[address := value] else registers
    case WriteMany(address, values) =>
      if address + |values| <= |registers| && |values| <= 127 then Overwrite(registers, address, values)
      else registers
  }

  function MeaningOfAll(registers: seq<word16>, sent: seq<Sent>): seq<word16>
    decreases |sent|
  {
    if sent == [] then registers else MeaningOfAll(Meaning(registers, sent[0].call), sent[1..])
  }

  /** The reply to a call, given the registers it finds. */
  function ResponseTo(registers: seq<word16>, m: Sent): seq<byte> {
    var r := Process(RequestOf(m), registers);
    if r.Reply? then r.response else []
  }

  function RepliesTo(registers: seq<word16>, sent: seq<Sent>): (r: seq<seq<byte>>)
    ensures |r| == |sent|
    decreases |sent|
  {
    if sent == [] then []
    else [ResponseTo(registers, sent[0])] + RepliesTo(Meaning(registers, sent[0].call), sent[1..])
  }

  lemma {:induction false} RepliesAt(registers: seq<word16>, sent: seq<Sent>, i: nat)
    requires i < |sent|
    ensures RepliesTo(registers, sent)[i] == ResponseTo(MeaningOfAll(registers, sent[..i]), sent[i])
    decreases |sent|
  {
    hide ResponseTo, Meaning;
    if i > 0 {
      RepliesAt(Meaning(registers, sent[0].call), sent[1..], i - 1);
      assert sent[1..][..i - 1] == sent[..i][1..];
    }
  }

  function RequestsOf(sent: seq<Sent>): (r: seq<seq<byte>>)
    ensures |r| == |sent| && forall i :: 0 <= i < |sent| ==> r[i] == RequestOf(sent[i])
  {
    seq(|sent|, i requires 0 <= i < |sent| => RequestOf(sent[i]))
  }

  /** The length field of a request is right exactly up to 32764 values. */
  lemma FrameExactly(m: Sent)
    ensures IsFrame(RequestOf(m)) <==> m.call.WriteMany? ==> |m.call.values| <= 32764
  {
    match m.call
    case Read(address, count) =>
      FrameDeclares(m.tid, m.unit, 0x03, [High(address), Low(address), High(count), Low(count)]);
    case WriteOne(address, value) =>
      FrameDeclares(m.tid, m.unit, 0x06, [High(address), Low(address), High(value), Low(value)]);
    case WriteMany(address, values) =>
      var n := |values|;
      FrameDeclares(m.tid, m.unit, 0x10,
        [High(address), Low(address), High(Cut(n)), Low(Cut(n)), Low(2 * n)] + ValueBytes(values));
  }

  lemma ReactMeaning(m: Sent, request: seq<byte>, st: Server)
    requires st.defined && request == RequestOf(m) && (m.call.WriteMany? ==> |m.call.values| <= 32764)
    ensures var r := React(st, request);
            && r.defined && r.registers == Meaning(st.registers, m.call)
            && r.replies == st.replies + [ResponseTo(st.registers, m)]
  {
    match m.call
    case Read(address, count) => ReadReaction(request, m.tid, m.unit, address, count, st.registers);
    case WriteOne(address, value) => WriteOneVerdict(m.tid, m.unit, address, value, st.registers);
    case WriteMany(address, values) => WriteReaction(request, m.tid, m.unit, address, values, st.registers);
    hide Process, ReadRequest, WriteOneRequest, WriteManyRequest, Overwrite, ValueBytes;
  }

  lemma {:induction false} ReactAllMeaning(sent: seq<Sent>, st: Server)
    requires st.defined
    requires forall m :: m in sent && m.call.WriteMany? ==> |m.call.values| <= 32764
    ensures var r := ReactAll(st, RequestsOf(sent));
            && r.defined && r.registers == MeaningOfAll(st.registers, sent)
            && r.replies == st.replies + RepliesTo(st.registers, sent)
    decreases |sent|
  {
    hide React, ResponseTo, Meaning, RequestOf;
    if sent != [] {
      assert RequestsOf(sent)[1..] == RequestsOf(sent[1..]);
      ReactMeaning(sent[0], RequestOf(sent[0]), st);
      ReactAllMeaning(sent[1..], React(st, RequestOf(sent[0])));
    }
  }

  /** Any list of calls sent back to back, whatever bytes of a further header follow: the register store is
      the fold of what the calls mean, and reply i answers call i in the state the calls before it left. */
  lemma CallsOnTheWire(sent: seq<Sent>, rest: seq<byte>, registers: seq<word16>)
    requires |rest| < 6 && forall m :: m in sent && m.call.WriteMany? ==> |m.call.values| <= 32764
    ensures var r := Serve(Concat(RequestsOf(sent)) + rest, [], Server(registers, [], true));
            && r.defined && r.registers == MeaningOfAll(registers, sent)
            && |r.replies| == |sent|
            && forall i :: 0 <= i < |sent| ==> r.replies[i] == ResponseTo(MeaningOfAll(registers, sent[..i]), sent[i])
  {
    hide IsFrame, Serve, ReactAll, MeaningOfAll, ResponseTo;
    var frames := RequestsOf(sent);
    forall i | 0 <= i < |frames| ensures IsFrame(frames[i]) {
      FrameExactly(sent[i]);
    }
    StreamFraming(frames, rest, [], Server(registers, [], true));
    ReactAllMeaning(sent, Server(registers, [], true));
    forall i | 0 <= i < |sent|
      ensures RepliesTo(registers, sent)[i] == ResponseTo(MeaningOfAll(registers, sent[..i]), sent[i])
    {
      RepliesAt(registers, sent, i);
    }
  }

  // ---------------------------------------------------------------- writes that are too long

  /** No write of `n` registers makes the server change a register or read out of bounds. */
  ghost predicate Harmless(n: nat) {
    forall m: Sent, registers, buffer | m.call.WriteMany? && |m.call.values| == n ::
      var r := Serve(RequestOf(m), buffer, Server(registers, [], true));
      r.defined && r.registers == registers
  }

  /** Beyond 127 registers nothing must change; this holds exactly while the length field does not wrap. */
  lemma LongWriteHarmlessExactly(n: nat)
    requires 128 <= n < TWO_16
    ensures Harmless(n) <==> n <= 32764
  {
    hide Serve, WriteManyRequest, Smuggled;
    if n <= 32764 {
      forall m: Sent, registers, buffer | m.call.WriteMany? && |m.call.values| == n
        ensures var r := Serve(RequestOf(m), buffer, Server(registers, [], true));
                r.defined && r.registers == registers
      {
        LongWriteRefused(m, RequestOf(m), registers, buffer);
      }
    } else {
      var m := Sent(0, 0, WriteMany(0, Smuggled(n)));
      WrappedWrite(n, RequestOf(m));
      assert !Serve(RequestOf(m), [], Server([0], [], true)).defined;
    }
  }

  lemma LongWriteRefused(m: Sent, request: seq<byte>, registers: seq<word16>, buffer: seq<byte>)
    requires request == RequestOf(m) && m.call.WriteMany? && 128 <= |m.call.values| <= 32764
    ensures var r := Serve(request, buffer, Server(registers, [], true));
            r.defined && r.registers == registers
  {
    hide RequestOf, Serve, React, IsFrame;
    var st := Server(registers, [], true);
    FrameExactly(m);
    ServeOne(request, [], buffer, st);
    assert request + [] == request;
    ReactMeaning(m, request, st);
    ServeNothing(request, React(st, request));
  }

  lemma ServeNothing(buffer: seq<byte>, st: Server)
    ensures Serve([], buffer, st) == st
  {
  }

  const HIDDEN_FRAME: seq<word16> := [0, 0, 6, 6, 0, 1]

  /** Values that spell a request to write 1 into register 0 where the wrapped length ends. */
  function Smuggled(n: nat): (values: seq<word16>)
    ensures |values| == n
  {
    if n < 32768 || n > 65532 then seq(n, _ => 0)
    else seq(n - 32768, _ => 0) + HIDDEN_FRAME + seq(32762, _ => 0)
  }

  lemma ServeShort(f: seq<byte>, rest: seq<byte>, buffer: seq<byte>, st: Server)
    requires IsFrame(f) && |f| < 12 && st.defined
    ensures Serve(f + rest, buffer, st) == st.(defined := false)
  {
    ServeOne(f, rest, buffer, st);
  }

  lemma ShortFrame(s: seq<byte>, st: Server)
    requires |s| >= 6 && 6 + Declared(s) <= |s| && Declared(s) < 6 && st.defined
    ensures forall buffer :: Serve(s, buffer, st) == st.(defined := false)
  {
    hide Serve;
    var f, rest := s[..6 + Declared(s)], s[6 + Declared(s)..];
    assert s == f + rest;
    forall buffer ensures Serve(s, buffer, st) == st.(defined := false) {
      ServeShort(f, rest, buffer, st);
    }
  }

  lemma {:induction false} ValueBytesConcat(a: seq<word16>, b: seq<word16>)
    ensures ValueBytes(a + b) == ValueBytes(a) + ValueBytes(b)
    decreases |b|
  {
    hide High, Low;
    if b == [] {
      assert a + b == a;
    } else {
      var last := |b| - 1;
      assert (a + b)[..|a| + last] == a + b[..last];
      ValueBytesConcat(a, b[..last]);
    }
  }

  lemma SmuggledBytes(n: nat)
    requires 32768 <= n <= 65532
    ensures ValueBytes(Smuggled(n))
            == ValueBytes(seq(n - 32768, _ => 0)) + (ValueBytes(HIDDEN_FRAME) + ValueBytes(seq(32762, _ => 0)))
  {
    hide ValueBytes;
    var a: seq<word16>, b: seq<word16> := seq(n - 32768, _ => 0), seq(32762, _ => 0);
    ValueBytesConcat(a + HIDDEN_FRAME, b);
    ValueBytesConcat(a, HIDDEN_FRAME);
  }

  lemma PrefixDeclares(n: nat, body: seq<byte>)
    ensures Declared(WriteManyPrefix(0, 0, 0, n) + body) == Cut(2 * n + 7)
  {
    WordRoundTrip(Cut(2 * n + 7));
    hide High, Low, Word, Cut;
  }

  lemma WrappedHeader(n: nat, padding: seq<byte>)
    requires 32768 <= n <= 65532 && |padding| == 2 * (n - 32768)
    ensures var f := WriteManyPrefix(0, 0, 0, n) + padding;
            var r := React(Server([0], [], true), f);
            IsFrame(f) && r.defined && r.registers == [0]
  {
    hide High, Low, Word, Declared, Cut, Process;
    var f := WriteManyPrefix(0, 0, 0, n) + padding;
    PrefixDeclares(n, padding);
    CutExactly(2 * n + 7);
    CutExactly(n);
    WordRoundTrip(n);
    hide Exception;
    WriteManyUnfold(f, [0]);
  }

  lemma ZeroHeader(zeros: seq<word16>)
    requires |zeros| >= 3 && zeros[2] == 0
    ensures Declared(ValueBytes(zeros)) == 0
  {
    hide High, Low, Word, ValueBytes;
    SmallWord(0);
    ValueBytesAt(zeros, 2);
    assert ValueBytes(zeros)[4] == 0 && ValueBytes(zeros)[5] == 0;
  }

  lemma HiddenFrame(st: Server)
    requires st.defined && st.registers == [0]
    ensures var f := ValueBytes(HIDDEN_FRAME);
            IsFrame(f) && React(st, f).defined && React(st, f).registers == [1]
  {
    hide High, Low, Word, ValueBytes, React;
    SmallWord(0);
    SmallWord(1);
    SmallWord(6);
    var f := ValueBytes(HIDDEN_FRAME);
    ValueBytesAt(HIDDEN_FRAME, 2);
    ValueBytesAt(HIDDEN_FRAME, 3);
    ValueBytesAt(HIDDEN_FRAME, 4);
    ValueBytesAt(HIDDEN_FRAME, 5);
    assert f[4] == 0 && f[5] == 6 && f[7] == 6 && f[8] == 0 && f[9] == 0 && f[10] == 0 && f[11] == 1;
    OneRegister(f, 0, 1, st.replies);
  }

  /** From 32765 registers on the server ends up reading out of bounds, and from 32768 to 65532 the
      values themselves are executed as requests before. */
  lemma WrappedWrite(n: nat, request: seq<byte>)
    requires 32765 <= n < TWO_16 && request == WriteManyRequest(0, 0, 0, Smuggled(n))
    ensures var r := Serve(request, [], Server([0], [], true));
            !r.defined && r.registers == if 32768 <= n <= 65532 then [1] else [0]
  {
    hide Serve, React, WriteManyPrefix, ValueBytes, Smuggled, IsFrame, Declared;
    var st := Server([0], [], true);
    WriteManyShape(0, 0, 0, Smuggled(n));
    hide WriteManyRequest;
    var prefix := WriteManyPrefix(0, 0, 0, n);
    if n < 32768 || n > 65532 {
      PrefixDeclares(n, ValueBytes(Smuggled(n)));
      ShortFrame(prefix + ValueBytes(Smuggled(n)), st);
    } else {
      var zeros: seq<word16> := seq(32762, _ => 0);
      var f1, f2, f3 := prefix + ValueBytes(seq(n - 32768, _ => 0)), ValueBytes(HIDDEN_FRAME), ValueBytes(zeros);
      SmuggledBytes(n);
      assert prefix + ValueBytes(Smuggled(n)) == f1 + (f2 + f3);
      WrappedHeader(n, ValueBytes(seq(n - 32768, _ => 0)));
      ServeOne(f1, f2 + f3, [], st);
      var st1 := React(st, f1);
      HiddenFrame(st1);
      ServeOne(f2, f3, f1, st1);
      ZeroHeader(zeros);
      ShortFrame(f3, React(st1, f2));
    }
  }

  // ---------------------------------------------------------------- the code

  const TWO_32 := 0x1_0000_0000

  lemma WordsValueOfTwo(words: seq<word16>)
    requires |words| == 2
    ensures WordsValue(words) == words[0] * TWO_16 + words[1]
  {
    assert words[..1][..0] == [];
    assert WordsValue(words[..1]) == words[0];
  }

  /** The register store. A result of `None` or `false` stands for the exception thrown by the bounds
      check. */
  class HoldingRegister {
    var registers: seq<word16>

    constructor (n: nat)
      ensures registers == seq(n, _ => 0)
    {
      registers := seq(n, _ => 0);
    }

    method GetUint16(index: nat) returns (r: Option<word16>)
      ensures r == if index < |registers| then Some(registers[index]) else None
    {
      if index + 1 > |registers| {
        return None;
      }
      r := Some(registers[index]);
    }

    method SetUint16(index: nat, value: word16) returns (ok: bool)
      modifies this
      ensures ok <==> index < |old(registers)|
      ensures registers == if ok then old(registers)[index := value] else old(registers)
    {
      if index + 1 > |registers| {
        return false;
      }
      registers := registers[index := value];
      ok := true;
    }

    method SetUint32(index: nat, value: nat) returns (ok: bool)
      requires value < TWO_32
      modifies this
      ensures ok <==> index + 2 <= |old(registers)|
      ensures ok ==> |registers| == |old(registers)| && WordsValue(registers[index..index + 2]) == value
      ensures ok ==> forall i :: 0 <= i < |registers| && i != index && i != index + 1 ==> registers[i] == old(registers[i])
      ensures !ok ==> registers == old(registers)
    {
      if index + 2 > |registers| {
        return false;
      }
      registers := registers[index := value / TWO_16][index + 1 := value % TWO_16];
      WordsValueOfTwo(registers[index..index + 2]);
      ok := true;
    }

    method GetUint32(index: nat) returns (r: Option<nat>)
      ensures r == if index + 2 <= |registers| then Some(WordsValue(registers[index..index + 2])) else None
    {
      if index + 2 > |registers| {
        return None;
      }
      WordsValueOfTwo(registers[index..index + 2]);
      r := Some(registers[index] * TWO_16 + registers[index + 1]);
    }
  }

  /** `processRequest`: `defined` tells whether the code stays inside the request. */
  method ProcessRequest(conn: Connection, request: seq<byte>, reg: HoldingRegister) returns (defined: bool)
    modifies conn`written, reg
    ensures defined == Process(request, old(reg.registers)).Reply?
    ensures defined ==> var r := Process(request, old(reg.registers));
                        conn.written == old(conn.written) + [r.response] && reg.registers == r.registers
    ensures !defined ==> conn.written == old(conn.written) && reg.registers == old(reg.registers)
  {
    if |request| < 12 {
      return false;
    }
    var code, start, quantity := request[7], Word(request[8], request[9]), Word(request[10], request[11]);
    hide Word, High, Low;
    if code == 0x03 {
      ReadHolding(conn, request, start, quantity, reg);
    } else if code == 0x06 {
      if start >= |reg.registers| {
        SendException(conn, request[6], code, 2);
      } else {
        var _ := reg.SetUint16(start, quantity);
        var _ := conn.Write(request);
      }
    } else if code == 0x10 {
      defined := WriteMultiple(conn, request, start, quantity, reg);
      return;
    } else {
      SendException(conn, request[0], code, 1);
    }
    defined := true;
  }

  method SendException(conn: Connection, address: byte, code: byte, kind: byte)
    modifies conn`written
    ensures conn.written == old(conn.written) + [Exception(address, code, kind)]
  {
    var _ := conn.Write([address, if code < 0x80 then code + 0x80 else code, kind]);
  }

  method ReadHolding(conn: Connection, request: seq<byte>, start: word16, quantity: word16, reg: HoldingRegister)
    requires |request| >= 12 && request[7] == 0x03
    modifies conn`written
    ensures conn.written == old(conn.written) + [ReadReply(request, start, quantity, reg.registers).response]
  {
    if start + quantity > |reg.registers| {
      SendException(conn, request[6], request[7], 2);
      return;
    }
    var length := Cut(3 + quantity * 2);
    var head := request[..4] + [High(length), Low(length), request[6], request[7], Low(quantity * 2)];
    hide High, Low, ValueBytes;
    var response := AppendRegisters(head, start, quantity, reg);
    var _ := conn.Write(response);
  }

  method AppendRegisters(head: seq<byte>, start: word16, quantity: word16, reg: HoldingRegister)
    returns (response: seq<byte>)
    requires start + quantity <= |reg.registers|
    ensures response == head + ValueBytes(reg.registers[start..start + quantity])
  {
    hide High, Low, ValueBytes;
    response := head;
    var i := 0;
    assert ValueBytes([]) == [];
    while i < quantity
      invariant 0 <= i <= quantity
      invariant response == head + ValueBytes(reg.registers[start..start + i])
    {
      var value := reg.GetUint16(start + i);
      ValueBytesSnoc(reg.registers[start..start + i], value.value);
      assert reg.registers[start..start + i + 1] == reg.registers[start..start + i] + [value.value];
      response := response + [High(value.value), Low(value.value)];
      i := i + 1;
    }
  }

  method WriteMultiple(conn: Connection, request: seq<byte>, start: word16, quantity: word16, reg: HoldingRegister)
    returns (defined: bool)
    requires |request| >= 12 && request[7] == 0x10
    modifies conn`written, reg
    ensures defined == WriteManyReply(request, start, quantity, old(reg.registers)).Reply?
    ensures defined ==> var r := WriteManyReply(request, start, quantity, old(reg.registers));
                        conn.written == old(conn.written) + [r.response] && reg.registers == r.registers
    ensures !defined ==> conn.written == old(conn.written) && reg.registers == old(reg.registers)
  {
    hide High, Low, Word, Carried, Overwrite;
    if |request| < 13 {
      return false;
    }
    if start + quantity > |reg.registers| || request[12] != quantity * 2 {
      SendException(conn, request[6], request[7], 2);
      return true;
    }
    if |request| < 13 + 2 * quantity {
      return false;
    }
    StoreValues(request, start, quantity, reg);
    var response := request[..6]
      + [request[7], request[7], High(start), Low(start), High(quantity), Low(quantity)];
    var _ := conn.Write(response);
    defined := true;
  }

  method StoreValues(request: seq<byte>, start: word16, quantity: word16, reg: HoldingRegister)
    requires |request| >= 13 + 2 * quantity && start + quantity <= |reg.registers|
    modifies reg
    ensures reg.registers == Overwrite(old(reg.registers), start, Carried(request, 13, quantity))
  {
    ghost var before := reg.registers;
    assert Overwrite(before, start, Carried(request, 13, 0)) == before;
    hide Word, Overwrite;
    var i := 0;
    while i < quantity
      invariant 0 <= i <= quantity
      invariant reg.registers == Overwrite(before, start, Carried(request, 13, i))
    {
      var value := Word(request[13 + 2 * i], request[14 + 2 * i]);
      StoreStep(before, Carried(request, 13, i), Carried(request, 13, i + 1), request, start, i);
      var _ := reg.SetUint16(start + i, value);
      i := i + 1;
    }
  }

  lemma StoreStep(before: seq<word16>, stored: seq<word16>, next: seq<word16>, request: seq<byte>, start: word16, i: nat)
    requires |request| >= 15 + 2 * i && start + i < |before|
    requires stored == Carried(request, 13, i) && next == Carried(request, 13, i + 1)
    ensures Overwrite(before, start, next)
            == Overwrite(before, start, stored)[start + i := Word(request[13 + 2 * i], request[14 + 2 * i])]
  {
    hide Word, Overwrite;
    CarriedSnoc(request, 13, i);
    OverwriteSnoc(before, start, stored, Word(request[13 + 2 * i], request[14 + 2 * i]));
  }

  /** `clientThread`: for every way the stream arrives, the loop leaves the registers and writes the
      replies that `Serve` says. */
  method ClientThread(conn: Connection, reg: HoldingRegister) returns (ghost final: Server)
    modifies conn, reg
    ensures final == Serve(old(conn.incoming), [], Server(old(reg.registers), [], true))
    ensures reg.registers == final.registers && conn.written == old(conn.written) + final.replies
  {
    hide Process, Declared, Resize;
    var request: seq<byte> := [];
    final := Server(reg.registers, [], true);
    while true
      invariant final.defined && final.registers == reg.registers
      invariant conn.written == old(conn.written) + final.replies
      invariant Serve(conn.incoming, request, final)
             == Serve(old(conn.incoming), [], Server(old(reg.registers), [], true))
      decreases |conn.incoming|
    {
      ghost var s := conn.incoming;
      var ok, mbap := conn.ReadExact(6);
      if !ok {
        return;
      }
      ghost var buffer := request;
      var length := Declared(mbap);
      request := Resize(request, length);
      var _, data := conn.ReadExact(length);
      request := mbap + data + request[|data|..];
      assert request == Assemble(s[..6], buffer, s[6..]);
      assert conn.incoming == s[6 + Min(length, |s| - 6)..];
      ghost var before := final;
      final := React(final, request);
      var defined := ProcessRequest(conn, request, reg);
      assert Serve(conn.incoming, request, final) == Serve(s, buffer, before);
      if !defined {
        return;
      }
    }
  }
}
