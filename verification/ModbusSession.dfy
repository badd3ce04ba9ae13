/** A list of calls over one Modbus connection. The client takes one read per call and never looks at the
    transaction id of a reply, so bytes that one call leaves unread are the beginning of what the next call
    takes for its own reply. */
module ModbusSession {
  import opened Bytes
  import opened Modbus
  import opened ModbusServer

  /** The registers of the server, and the bytes written by it that the client has not read. */
  datatype Session = Session(registers: seq<word16>, unread: seq<byte>)

  /** What a call returns. `Throws` and `Verdict(false)` stand for a failed read of the connection too. */
  datatype Answer = Values(values: seq<word16>) | Throws | Verdict(confirmed: bool)

  /** Within the length field of a request. */
  predicate Sendable(m: Sent) {
    m.call.WriteMany? ==> |m.call.values| <= 32764
  }

  /** What the client makes of the bytes of its one read. */
  function Understand(m: Sent, response: seq<byte>): Answer {
    match m.call
    case Read(_, count) =>
      var values := ParseRegisters(response, count);
      if values.Some? then Values(values.value) else Throws
    case WriteOne(address, value) => Verdict(ValidWrite(response, address, value))
    case WriteMany(address, values) => Verdict(ValidWrite(response, address, Cut(|values|)))
  }

  /** The bytes one call reads when `k` of those waiting are handed over. */
  function Taken(s: Session, m: Sent, k: nat): seq<byte> {
    InOneRead(s.unread + ResponseTo(s.registers, m), k)
  }

  function AnswerTo(s: Session, m: Sent, k: nat): Answer {
    Understand(m, Taken(s, m, k))
  }

  function After(s: Session, m: Sent, k: nat): Session {
    Session(Meaning(s.registers, m.call), (s.unread + ResponseTo(s.registers, m))[|Taken(s, m, k)|..])
  }

  // ---------------------------------------------------------------- what the answers should be

  /** The call can be carried out on these registers. */
  predicate Feasible(registers: seq<word16>, call: Call) {
    match call
    case Read(address, count) => address + count <= |registers| && count <= 123
    case WriteOne(address, _) => address < |registers|
    case WriteMany(address, values) => address + |values| <= |registers| && |values| <= 127
  }

  /** The true values, or success, for a call that can be carried out; failure for another. */
  function Truth(registers: seq<word16>, call: Call): Answer {
    match call
    case Read(address, count) =>
      if Feasible(registers, call) then Values(registers[address..address + count]) else Throws
    case _ => Verdict(Feasible(registers, call))
  }

  function Failure(call: Call): Answer {
    if call.Read? then Throws else Verdict(false)
  }

  /** The reply fits one read and arrives whole in it. */
  predicate Prompt(reply: seq<byte>, k: nat) {
    |reply| <= 255 && |reply| <= k
  }

  /** The outcomes of a call with nothing left unread before. */
  lemma InStep(s: Session, m: Sent, k: nat)
    requires s.unread == [] && Sendable(m)
    ensures var reply := ResponseTo(s.registers, m);
            && AnswerTo(s, m, k) == (if Prompt(reply, k) then Truth(s.registers, m.call) else Failure(m.call))
            && (After(s, m, k).unread == [] <==> Prompt(reply, k))
  {
    hide Process, ReadRequest, WriteOneRequest, WriteManyRequest, ParseRegisters, ValidWrite, InOneRead;
    var reply, request := ResponseTo(s.registers, m), RequestOf(m);
    assert s.unread + reply == reply;
    TakenAll(reply, k);
    match m.call
    case Read(address, count) =>
      ReadTrueOrThrows(request, m.tid, m.unit, address, count, s.registers, k);
      ReadReplySize(request, m.tid, m.unit, address, count, s.registers);
    case WriteOne(address, value) =>
      WriteOneVerdict(m.tid, m.unit, address, value, s.registers);
      ShortReply(reply, k, address, value);
    case WriteMany(address, values) =>
      CutExactly(|values|);
      WriteVerdict(request, m.tid, m.unit, address, values, s.registers);
      ShortReply(reply, k, address, |values|);
  }

  lemma TakenAll(reply: seq<byte>, k: nat)
    ensures reply[|InOneRead(reply, k)|..] == [] <==> Prompt(reply, k)
  {
  }

  lemma ReadReplySize(request: seq<byte>, tid: word16, unit: byte, address: word16, count: word16,
                      registers: seq<word16>)
    requires request == ReadRequest(tid, unit, address, count)
    ensures var r := Process(request, registers);
            r.Reply? && |r.response| == if address + count <= |registers| then 9 + 2 * count else 3
  {
    ReadReaction(request, tid, unit, address, count, registers);
    hide Process, ReadRequest, High, Low;
  }

  lemma ShortReply(reply: seq<byte>, k: nat, address: word16, value: word16)
    requires |reply| <= 12
    ensures ValidWrite(InOneRead(reply, k), address, value) <==> k >= |reply| && ValidWrite(reply, address, value)
  {
    hide Word;
    if k >= |reply| {
      assert InOneRead(reply, k) == reply;
    }
  }

  // ---------------------------------------------------------------- sessions

  function EndOf(s: Session, calls: seq<(Sent, nat)>): Session
    decreases |calls|
  {
    if calls == [] then s else EndOf(After(s, calls[0].0, calls[0].1), calls[1..])
  }

  function AnswersTo(s: Session, calls: seq<(Sent, nat)>): (r: seq<Answer>)
    ensures |r| == |calls|
    decreases |calls|
  {
    if calls == [] then []
    else [AnswerTo(s, calls[0].0, calls[0].1)] + AnswersTo(After(s, calls[0].0, calls[0].1), calls[1..])
  }

  function Truths(registers: seq<word16>, calls: seq<(Sent, nat)>): (r: seq<Answer>)
    ensures |r| == |calls|
    decreases |calls|
  {
    if calls == [] then []
    else [Truth(registers, calls[0].0.call)] + Truths(Meaning(registers, calls[0].0.call), calls[1..])
  }

  predicate AllPrompt(registers: seq<word16>, calls: seq<(Sent, nat)>)
    decreases |calls|
  {
    calls == []
    || (&& Sendable(calls[0].0) && Prompt(ResponseTo(registers, calls[0].0), calls[0].1)
        && AllPrompt(Meaning(registers, calls[0].0.call), calls[1..]))
  }

  /** As long as every reply fits one read and arrives whole in it, every answer is right and the client
      stays in step. The call after that is right or fails. */
  lemma {:induction false} SessionInStep(s: Session, calls: seq<(Sent, nat)>, m: Sent, k: nat)
    requires s.unread == [] && AllPrompt(s.registers, calls) && Sendable(m)
    ensures AnswersTo(s, calls) == Truths(s.registers, calls)
    ensures EndOf(s, calls).unread == []
    ensures var end := EndOf(s, calls);
            AnswerTo(end, m, k) == Truth(end.registers, m.call) || AnswerTo(end, m, k) == Failure(m.call)
    decreases |calls|
  {
    hide AnswerTo, Truth, Failure, ResponseTo, Meaning, Prompt;
    if calls == [] {
      InStep(s, m, k);
    } else {
      InStep(s, calls[0].0, calls[0].1);
      SessionInStep(After(s, calls[0].0, calls[0].1), calls[1..], m, k);
    }
  }

  /** Every call whose reply arrives in time gets the right answer. */
  ghost predicate NextIsRight(s: Session) {
    forall m: Sent, k: nat | Sendable(m) && Prompt(ResponseTo(s.registers, m), k) ::
      AnswerTo(s, m, k) == Truth(s.registers, m.call)
  }

  /** A client that has fallen out of step cannot be relied on: with any bytes left unread there is a call
      that is answered wrongly although everything has arrived. */
  lemma RightExactlyInStep(s: Session)
    requires s.registers != []
    ensures NextIsRight(s) <==> s.unread == []
  {
    hide AnswerTo, Truth, ResponseTo;
    if s.unread == [] {
      forall m: Sent, k: nat | Sendable(m) && Prompt(ResponseTo(s.registers, m), k)
        ensures AnswerTo(s, m, k) == Truth(s.registers, m.call)
      {
        InStep(s, m, k);
      }
    } else {
      var m := WrongCall(s);
      assert AnswerTo(s, m, 255) != Truth(s.registers, m.call);
    }
  }

  /** A write of register 0 that is carried out and reported as failed. */
  lemma WrongCall(s: Session) returns (m: Sent)
    requires s.registers != [] && s.unread != []
    ensures Sendable(m) && Prompt(ResponseTo(s.registers, m), 255)
    ensures AnswerTo(s, m, 255) != Truth(s.registers, m.call)
  {
    var x := if |s.unread| > 10 then s.unread[10] else HEAD[10 - |s.unread|];
    var high: byte := if x == 1 then 2 else 1;
    m := Sent(0, 0, WriteOne(0, 256 * high));
    WriteZero(s.registers, high);
    hide ResponseTo, Word;
    var reply := ResponseTo(s.registers, m);
    var waiting := s.unread + reply;
    var taken := Taken(s, m, 255);
    assert |taken| >= 12 && taken[10] == waiting[10];
    assert waiting[10] == x by {
      if |s.unread| <= 10 {
        assert waiting[10] == reply[10 - |s.unread|] == HEAD[10 - |s.unread|];
      }
    }
    HighOfWord(taken[10], taken[11], high);
  }

  const HEAD: seq<byte> := [0, 0, 0, 0, 0, 6, 0, 6, 0, 0]

  lemma WriteZero(registers: seq<word16>, high: byte)
    requires registers != []
    ensures ResponseTo(registers, Sent(0, 0, WriteOne(0, 256 * high))) == HEAD + [high, 0]
  {
    WriteOneVerdict(0, 0, 0, 256 * high, registers);
    hide Process;
    ZeroRequest(high);
    hide WriteOneRequest;
  }

  lemma ZeroRequest(high: byte)
    ensures WriteOneRequest(0, 0, 0, 256 * high) == HEAD + [high, 0]
  {
    hide High, Low, WriteOneRequest;
    HighAlone(high);
    SmallWord(0);
    SmallWord(6);
    WriteOneBytes(0, 0, 0, 256 * high);
  }

  lemma WriteOneBytes(tid: word16, unit: byte, address: word16, value: word16)
    ensures WriteOneRequest(tid, unit, address, value)
            == [High(tid), Low(tid), 0, 0, High(6), Low(6), unit, 6, High(address), Low(address), High(value), Low(value)]
  {
    hide High, Low, Cut;
    CutExactly(6);
  }

  lemma HighAlone(high: byte)
    ensures High(256 * high) == high && Low(256 * high) == 0
  {
  }

  lemma HighOfWord(h: byte, l: byte, high: byte)
    requires h != high
    ensures Word(h, l) != 256 * high
  {
  }

  // ---------------------------------------------------------------- out of step

  /** A read of 124 registers, whose reply has 257 bytes, throws and leaves two of them unread. */
  lemma TwoBytesLeft(s: Session, m: Sent)
    requires s.unread == [] && |s.registers| >= 124 && m == Sent(1, 2, Read(0, 124))
    ensures AnswerTo(s, m, 255) == Throws
    ensures |After(s, m, 255).unread| == 2 && After(s, m, 255).registers == s.registers
  {
    hide Process, ReadRequest, ParseRegisters;
    InStep(s, m, 255);
    ReadReplySize(RequestOf(m), 1, 2, 0, 124, s.registers);
    assert s.unread + ResponseTo(s.registers, m) == ResponseTo(s.registers, m);
  }

  lemma OneRegisterReply(m: Sent, registers: seq<word16>)
    requires m == Sent(2, 2, Read(0, 1)) && registers != []
    ensures var reply := ResponseTo(registers, m); |reply| == 11 && reply[6] == 2 && reply[7] == 3 && reply[8] == 2
  {
    hide Process, ReadRequest, ReadHead, ValueBytes;
    ReadReaction(RequestOf(m), 2, 2, 0, 1, registers);
    ReadReplySize(RequestOf(m), 2, 2, 0, 1, registers);
    HeadFields(2, 2, 1);
  }

  lemma HeadFields(tid: word16, unit: byte, count: word16)
    requires count <= 127
    ensures var head := ReadHead(tid, unit, count);
            |head| == 9 && head[6] == unit && head[7] == 3 && head[8] == 2 * count
  {
    hide High;
    ByteCount(count);
  }

  lemma LeftoverParsed(left: seq<byte>, reply: seq<byte>)
    requires |left| == 2 && |reply| == 11 && reply[6] == 2 && reply[7] == 3 && reply[8] == 2
    ensures ParseRegisters(InOneRead(left + reply, 255), 1) == Some([770])
  {
    var taken := left + reply;
    assert InOneRead(taken, 255) == taken;
    assert Carried(taken, 9, 1) == [Word(3, 2)];
  }

  /** After that a read of register 0 returns 770 whatever the register holds. */
  lemma LeftoverIsTakenForValue(s: Session, m: Sent)
    requires |s.unread| == 2 && s.registers != [] && m == Sent(2, 2, Read(0, 1))
    ensures AnswerTo(s, m, 255) == Values([770])
  {
    OneRegisterReply(m, s.registers);
    hide ResponseTo, InOneRead, ParseRegisters;
    LeftoverParsed(s.unread, ResponseTo(s.registers, m));
  }

  lemma FirstPart(a: seq<byte>, b: seq<byte>)
    requires |a| <= 255
    ensures InOneRead(a + b, |a|) == a && (a + b)[|a|..] == b
  {
  }

  /** When the bytes left over are read alone, every later call is answered by the reply to the call
      before. */
  lemma OneBehind(s: Session, m: Sent, m': Sent, reply: seq<byte>)
    requires |s.unread| <= 255 && reply == ResponseTo(s.registers, m) && |reply| <= 255
    ensures var next := After(s, m, |s.unread|);
            && next == Session(Meaning(s.registers, m.call), reply)
            && AnswerTo(next, m', |reply|) == Understand(m', reply)
            && After(next, m', |reply|).unread == ResponseTo(next.registers, m')
  {
    hide ResponseTo, Understand, Meaning, InOneRead;
    FirstPart(s.unread, reply);
    var next := After(s, m, |s.unread|);
    FirstPart(reply, ResponseTo(next.registers, m'));
  }

  /** So a read of one register returns another one. */
  lemma OtherRegister(s: Session, m: Sent, m': Sent)
    requires 0 < |s.unread| <= 255 && m.call.Read? && m'.call.Read? && m.call.count == m'.call.count == 1
    requires m.call.address < |s.registers|
    ensures AnswerTo(After(s, m, |s.unread|), m', |ResponseTo(s.registers, m)|) == Values([s.registers[m.call.address]])
  {
    hide Process, ReadRequest, ParseRegisters, AnswerTo, After;
    var a := m.call.address;
    ReadBack(RequestOf(m), m.tid, m.unit, a, 1, s.registers);
    assert s.registers[a..a + 1] == [s.registers[a]];
    OneBehind(s, m, m', ResponseTo(s.registers, m));
  }

  /** And the confirmation of a single write is taken for that of a write of several registers at the same
      address that the server refuses. */
  lemma OtherConfirmation(s: Session, m: Sent, m': Sent)
    requires 0 < |s.unread| <= 255 && m.call.WriteOne? && m'.call.WriteMany? && Sendable(m')
    requires m.call.address == m'.call.address < |s.registers| && m.call.value == |m'.call.values|
    requires m'.call.address + |m'.call.values| > |s.registers|
    ensures AnswerTo(After(s, m, |s.unread|), m', |ResponseTo(s.registers, m)|) == Verdict(true)
    ensures !Feasible(After(s, m, |s.unread|).registers, m'.call)
  {
    hide Process, WriteOneRequest, ValidWrite, Cut, AnswerTo, After;
    CutExactly(m.call.value);
    WriteOneVerdict(m.tid, m.unit, m.call.address, m.call.value, s.registers);
    OneBehind(s, m, m', ResponseTo(s.registers, m));
  }
}
