/** Modbus TCP: the client's requests, the server's register store and replies, and the client's view of
    the replies. */
module Modbus {
  import opened Bytes

  type word16 = x: int | 0 <= x < 0x1_0000

  function High(n: word16): byte { n / 256 }
  function Low(n: nat): byte { n % 256 }

  /** Conversion to `uint16_t`. */
  function Cut(n: nat): word16 { n % TWO_16 }

  function Word(high: byte, low: byte): (w: word16) {
    256 * (high as int) + low
  }

  // ---------------------------------------------------------------- requests

  /** `makeRequest`. The length field holds the low 16 bits of the length. */
  function Request(tid: word16, unit: byte, code: byte, data: seq<byte>): seq<byte> {
    var length := Cut(|data| + 2);
    [High(tid), Low(tid), 0, 0, High(length), Low(length), unit, code] + data
  }

  function ValueBytes(values: seq<word16>): (r: seq<byte>)
    ensures |r| == 2 * |values|
  {
    if values == [] then []
    else
      var last := |values| - 1;
      ValueBytes(values[..last]) + [High(values[last]), Low(values[last])]
  }

  function ReadRequest(tid: word16, unit: byte, address: word16, count: word16): seq<byte> {
    Request(tid, unit, 0x03, [High(address), Low(address), High(count), Low(count)])
  }

  function WriteOneRequest(tid: word16, unit: byte, address: word16, value: word16): seq<byte> {
    Request(tid, unit, 0x06, [High(address), Low(address), High(value), Low(value)])
  }

  /** The register count and the byte count are cut to 16 and 8 bits. */
  function WriteManyRequest(tid: word16, unit: byte, address: word16, values: seq<word16>): seq<byte> {
    var n := |values|;
    Request(tid, unit, 0x10, [High(address), Low(address), High(Cut(n)), Low(Cut(n)), Low(2 * n)] + ValueBytes(values))
  }

  // ---------------------------------------------------------------- the server on one request

  /** `OutOfBounds`: the code reads behind the end of the request. Otherwise one reply is written. */
  datatype Reaction = Reply(response: seq<byte>, registers: seq<word16>) | OutOfBounds

  function Exception(address: byte, code: byte, kind: byte): seq<byte> {
    [address, if code < 0x80 then code + 0x80 else code, kind]
  }

  /** The values a write request carries from `at` on. */
  function Carried(request: seq<byte>, at: nat, n: nat): seq<word16>
    requires at + 2 * n <= |request|
  {
    seq(n, i requires 0 <= i < n => Word(request[at + 2 * i], request[at + 2 * i + 1]))
  }

  function ReadReply(request: seq<byte>, start: word16, quantity: word16, registers: seq<word16>): Reaction
    requires |request| >= 12
  {
    if start + quantity > |registers| then Reply(Exception(request[6], request[7], 2), registers)
    else
      var length := Cut(3 + quantity * 2);
      var head := request[..4] + [High(length), Low(length), request[6], request[7], Low(quantity * 2)];
      Reply(head + ValueBytes(registers[start..start + quantity]), registers)
  }

  function WriteOneReply(request: seq<byte>, start: word16, value: word16, registers: seq<word16>): Reaction
    requires |request| >= 12
  {
    if start >= |registers| then Reply(Exception(request[6], request[7], 2), registers)
    else Reply(request, registers[start := value])
  }

  function WriteManyReply(request: seq<byte>, start: word16, quantity: word16, registers: seq<word16>): Reaction
    requires |request| >= 12
  {
    if |request| < 13 then OutOfBounds
    else if start + quantity > |registers| || request[12] != quantity * 2 then
      Reply(Exception(request[6], request[7], 2), registers)
    else if |request| < 13 + 2 * quantity then OutOfBounds
    else
      var response := request[..6]
        + [request[7], request[7], High(start), Low(start), High(quantity), Low(quantity)];
      Reply(response, Overwrite(registers, start, Carried(request, 13, quantity)))
  }

  function Overwrite(registers: seq<word16>, start: nat, values: seq<word16>): (r: seq<word16>)
    requires start + |values| <= |registers|
    ensures |r| == |registers|
  {
    registers[..start] + values + registers[start + |values|..]
  }

  function Process(request: seq<byte>, registers: seq<word16>): Reaction {
    if |request| < 12 then OutOfBounds
    else
      var code, start, quantity := request[7], Word(request[8], request[9]), Word(request[10], request[11]);
      if code == 0x03 then ReadReply(request, start, quantity, registers)
      else if code == 0x06 then WriteOneReply(request, start, quantity, registers)
      else if code == 0x10 then WriteManyReply(request, start, quantity, registers)
      else Reply(Exception(request[0], code, 1), registers)
  }

  // ---------------------------------------------------------------- the client on a response

  /** `None` stands for the exception. */
  function ParseRegisters(response: seq<byte>, count: word16): Option<seq<word16>> {
    if |response| < 9 + count * 2 then None
    else if response[8] != count * 2 then None
    else Some(Carried(response, 9, count))
  }

  function ValidWrite(response: seq<byte>, address: word16, value: word16): bool {
    |response| >= 12 && Word(response[8], response[9]) == address && Word(response[10], response[11]) == value
  }

  /** The client takes one read of at most 255 bytes for the whole response; `k` says how many arrive. */
  function InOneRead(response: seq<byte>, k: nat): seq<byte> {
    response[..Min(Min(k, 255), |response|)]
  }

  // ---------------------------------------------------------------- read

  lemma WordRoundTrip(n: word16)
    ensures Word(High(n), Low(n)) == n
  {
  }

  lemma CutExactly(n: nat)
    ensures Cut(n) == n <==> n < TWO_16
    ensures TWO_16 <= n < 2 * TWO_16 ==> Cut(n) == n - TWO_16
  {
  }

  /** The byte count fits its octet for up to 127 registers. */
  lemma ByteCount(n: nat)
    ensures Low(2 * n) == 2 * n <==> n <= 127
  {
  }

  lemma {:induction false} ValueBytesAt(values: seq<word16>, i: nat)
    requires i < |values|
    ensures ValueBytes(values)[2 * i] == High(values[i]) && ValueBytes(values)[2 * i + 1] == Low(values[i])
  {
    hide High, Low;
    var last := |values| - 1;
    if i < last {
      ValueBytesAt(values[..last], i);
    }
  }

  lemma ValueBytesSize(values: seq<word16>)
    ensures |ValueBytes(values)| == 2 * |values|
  {
  }

  lemma {:induction false} ValuesRoundTrip(prefix: seq<byte>, values: seq<word16>)
    ensures Carried(prefix + ValueBytes(values), |prefix|, |values|) == values
    decreases |values|
  {
    hide High, Low, Word;
    if values != [] {
      var last := |values| - 1;
      var shorter, value := values[..last], values[last];
      var s, t := prefix + ValueBytes(values), prefix + ValueBytes(shorter);
      assert s == t + [High(value), Low(value)];
      ValuesRoundTrip(prefix, shorter);
      CarriedSnoc(s, |prefix|, last);
      assert Carried(s, |prefix|, last) == Carried(t, |prefix|, last);
      WordRoundTrip(value);
    }
  }

  lemma ValueBytesSnoc(values: seq<word16>, value: word16)
    ensures ValueBytes(values + [value]) == ValueBytes(values) + [High(value), Low(value)]
  {
    assert (values + [value])[..|values|] == values;
  }

  lemma CarriedSnoc(request: seq<byte>, at: nat, n: nat)
    requires at + 2 * (n + 1) <= |request|
    ensures Carried(request, at, n + 1)
            == Carried(request, at, n) + [Word(request[at + 2 * n], request[at + 2 * n + 1])]
  {
    hide Word;
  }

  /** What the server makes of a request for a range. */
  lemma ReadReaction(request: seq<byte>, tid: word16, unit: byte, address: word16, count: word16, registers: seq<word16>)
    requires request == ReadRequest(tid, unit, address, count)
    ensures Process(request, registers) == Reply(
              if address + count > |registers| then [unit, 0x83, 2]
              else ReadHead(tid, unit, count) + ValueBytes(registers[address..address + count]),
              registers)
  {
    WordRoundTrip(address);
    WordRoundTrip(count);
    hide High, Low, Word, ValueBytes;
  }

  function ReadHead(tid: word16, unit: byte, count: word16): seq<byte> {
    var length := Cut(3 + count * 2);
    [High(tid), Low(tid), 0, 0, High(length), Low(length), unit, 3, Low(count * 2)]
  }

  lemma ParseReply(head: seq<byte>, values: seq<word16>, count: word16, k: nat)
    requires |head| == 9 && head[8] == Low(count * 2) && |values| == count
    ensures ParseRegisters(InOneRead(head + ValueBytes(values), k), count)
            == if count <= 123 && k >= 9 + 2 * count then Some(values) else None
  {
    ByteCount(count);
    ValuesRoundTrip(head, values);
    hide High, Low, Word, ValueBytes, Carried;
    var response := head + ValueBytes(values);
    if count <= 123 && k >= |response| {
      assert InOneRead(response, k) == response;
    }
  }

  /** A read of any number of registers returns the true values or throws; it returns them exactly when
      the range exists, at most 123 registers are asked for, and the reply arrives whole. */
  lemma ReadTrueOrThrows(request: seq<byte>, tid: word16, unit: byte, address: word16, count: word16,
                         registers: seq<word16>, k: nat)
    requires request == ReadRequest(tid, unit, address, count)
    ensures var r := Process(request, registers);
            && r.Reply? && r.registers == registers
            && ParseRegisters(InOneRead(r.response, k), count)
               == if address + count <= |registers| && count <= 123 && k >= |r.response|
                  then Some(registers[address..address + count]) else None
  {
    ReadReaction(request, tid, unit, address, count, registers);
    hide Process, ParseRegisters, ReadRequest;
    if address + count <= |registers| {
      ParseReply(ReadHead(tid, unit, count), registers[address..address + count], count, k);
      hide ValueBytes, High, Low;
    } else {
      ShortReplyThrows(Process(request, registers).response, count, k);
    }
  }

  lemma ShortReplyThrows(response: seq<byte>, count: word16, k: nat)
    requires |response| < 9
    ensures ParseRegisters(InOneRead(response, k), count) == None
  {
  }

  // ---------------------------------------------------------------- write

  function WriteManyPrefix(tid: word16, unit: byte, address: word16, n: nat): seq<byte> {
    var length := Cut(2 * n + 7);
    [High(tid), Low(tid), 0, 0, High(length), Low(length), unit, 0x10,
     High(address), Low(address), High(Cut(n)), Low(Cut(n)), Low(2 * n)]
  }

  lemma WriteManyShape(tid: word16, unit: byte, address: word16, values: seq<word16>)
    ensures WriteManyRequest(tid, unit, address, values)
            == WriteManyPrefix(tid, unit, address, |values|) + ValueBytes(values)
  {
    hide High, Low;
    ShapeOf(tid, unit, address, |values|, ValueBytes(values));
  }

  lemma ShapeOf(tid: word16, unit: byte, address: word16, n: nat, tail: seq<byte>)
    requires |tail| == 2 * n
    ensures Request(tid, unit, 0x10, [High(address), Low(address), High(Cut(n)), Low(Cut(n)), Low(2 * n)] + tail)
            == WriteManyPrefix(tid, unit, address, n) + tail
  {
    hide High, Low;
  }

  lemma WriteManyReaction(request: seq<byte>, prefix: seq<byte>, values: seq<word16>, registers: seq<word16>, start: word16)
    requires |prefix| == 13 && |values| < TWO_16 && request == prefix + ValueBytes(values)
    ensures WriteManyReply(request, start, |values|, registers)
            == if start + |values| > |registers| || prefix[12] != 2 * |values| then
                 Reply(Exception(prefix[6], prefix[7], 2), registers)
               else Reply(prefix[..6] + [prefix[7], prefix[7], High(start), Low(start), High(|values|), Low(|values|)],
                          Overwrite(registers, start, values))
  {
    ValuesRoundTrip(prefix, values);
    ValueBytesSize(values);
    hide High, Low, ValueBytes, Carried, Overwrite, Exception;
    assert request[..6] == prefix[..6];
  }

  lemma WriteManyUnfold(request: seq<byte>, registers: seq<word16>)
    requires |request| >= 13 && request[7] == 0x10
    ensures Process(request, registers)
            == WriteManyReply(request, Word(request[8], request[9]), Word(request[10], request[11]), registers)
  {
    hide WriteManyReply, Word;
  }

  /** What the server makes of a whole request to write up to 65535 registers. */
  lemma WriteReaction(request: seq<byte>, tid: word16, unit: byte, address: word16, values: seq<word16>,
                      registers: seq<word16>)
    requires |values| < TWO_16 && request == WriteManyRequest(tid, unit, address, values)
    ensures Process(request, registers)
            == if address + |values| > |registers| || |values| > 127 then Reply([unit, 0x90, 2], registers)
               else Reply(WriteManyAnswer(tid, address, |values|), Overwrite(registers, address, values))
  {
    hide WriteManyRequest, ValueBytes, Carried, Overwrite, WriteManyReply, WriteManyAnswer, High, Low, Word, Cut;
    var n := |values|;
    var prefix := WriteManyPrefix(tid, unit, address, n);
    CutExactly(n);
    WordRoundTrip(address);
    WordRoundTrip(n);
    ByteCount(n);
    WriteManyShape(tid, unit, address, values);
    WriteManyReaction(request, prefix, values, registers, address);
    WriteManyUnfold(request, registers);
    AnswerShape(tid, unit, address, n);
  }

  lemma AnswerShape(tid: word16, unit: byte, address: word16, n: word16)
    ensures var prefix := WriteManyPrefix(tid, unit, address, n);
            prefix[..6] + [0x10, 0x10, High(address), Low(address), High(n), Low(n)] == WriteManyAnswer(tid, address, n)
  {
    hide High, Low;
  }

  function WriteManyAnswer(tid: word16, address: word16, n: word16): seq<byte> {
    var length := Cut(2 * n + 7);
    [High(tid), Low(tid), 0, 0, High(length), Low(length), 0x10, 0x10, High(address), Low(address), High(n), Low(n)]
  }

  /** A write request that is processed whole: the reply confirms the write exactly when the range exists
      and at most 127 registers are written; then they, and no others, are changed, and otherwise none. */
  lemma WriteVerdict(request: seq<byte>, tid: word16, unit: byte, address: word16, values: seq<word16>,
                     registers: seq<word16>)
    requires |values| < TWO_16 && request == WriteManyRequest(tid, unit, address, values)
    ensures var r := Process(request, registers);
            var good := address + |values| <= |registers| && |values| <= 127;
            && r.Reply? && |r.response| <= 12
            && (ValidWrite(r.response, address, |values|) <==> good)
            && r.registers == if good then Overwrite(registers, address, values) else registers
  {
    WriteReaction(request, tid, unit, address, values, registers);
    WordRoundTrip(address);
    WordRoundTrip(|values|);
    hide Process, High, Low, Word, Overwrite, WriteManyRequest;
  }

  /** A reply of at most twelve bytes that arrives in part is not taken for a confirmation. */
  lemma PartialReplyConfirmsNothing(response: seq<byte>, k: nat, address: word16, value: word16)
    requires |response| <= 12 && ValidWrite(InOneRead(response, k), address, value)
    ensures k >= |response| == 12
  {
    hide Word;
  }

  /** `Overwrite` changes the range and nothing else. */
  lemma OverwriteAt(registers: seq<word16>, start: nat, values: seq<word16>, i: nat)
    requires start + |values| <= |registers| && i < |registers|
    ensures Overwrite(registers, start, values)[i]
            == if start <= i < start + |values| then values[i - start] else registers[i]
  {
  }

  lemma OverwriteSnoc(registers: seq<word16>, start: nat, values: seq<word16>, value: word16)
    requires start + |values| < |registers|
    ensures Overwrite(registers, start, values + [value])
            == Overwrite(registers, start, values)[start + |values| := value]
  {
  }

  /** Write, then read the same range: the client gets the written values back. */
  lemma WriteThenRead(write: seq<byte>, read: seq<byte>, tid: word16, tid': word16, unit: byte, address: word16,
                      values: seq<word16>, registers: seq<word16>)
    requires |values| <= 123 && address + |values| <= |registers|
    requires write == WriteManyRequest(tid, unit, address, values)
    requires read == ReadRequest(tid', unit, address, |values|)
    ensures var w := Process(write, registers);
            && w.Reply? && ValidWrite(w.response, address, |values|)
            && w.registers == Overwrite(registers, address, values)
            && var r := Process(read, w.registers);
               r.Reply? && |r.response| <= 255 && ParseRegisters(r.response, |values|) == Some(values)
  {
    var n := |values|;
    hide Process, ParseRegisters, ValidWrite, WriteManyRequest, ReadRequest;
    WriteReaction(write, tid, unit, address, values, registers);
    WriteVerdict(write, tid, unit, address, values, registers);
    var after := Overwrite(registers, address, values);
    assert after[address..address + n] == values;
    ReadBack(read, tid', unit, address, n, after);
  }

  /** A read of at most 123 registers whose reply arrives whole. */
  lemma ReadBack(request: seq<byte>, tid: word16, unit: byte, address: word16, count: word16, registers: seq<word16>)
    requires count <= 123 && address + count <= |registers| && request == ReadRequest(tid, unit, address, count)
    ensures var r := Process(request, registers);
            && r.Reply? && |r.response| <= 255
            && ParseRegisters(r.response, count) == Some(registers[address..address + count])
  {
    hide Process, ParseRegisters, ReadRequest, High, Low;
    ReadReaction(request, tid, unit, address, count, registers);
    var response := Process(request, registers).response;
    ReadTrueOrThrows(request, tid, unit, address, count, registers, |response|);
    assert |response| == 9 + 2 * count;
    assert InOneRead(response, |response|) == response;
  }

  /** The single-register write: success exactly for an existing register. */
  lemma WriteOneVerdict(tid: word16, unit: byte, address: word16, value: word16, registers: seq<word16>)
    ensures var r := Process(WriteOneRequest(tid, unit, address, value), registers);
            && r.Reply? && |r.response| <= 12
            && (ValidWrite(r.response, address, value) <==> address < |registers|)
            && r.registers == (if address < |registers| then registers[address := value] else registers)
            && (address < |registers| ==> r.response == WriteOneRequest(tid, unit, address, value))
  {
    WordRoundTrip(address);
    WordRoundTrip(value);
    hide High, Low, Word;
  }

  /** Any other function code: the registers stay, and the reply is the three-byte exception. */
  lemma OtherCodeRefused(request: seq<byte>, registers: seq<word16>)
    requires |request| >= 12 && request[7] !in {3, 6, 16}
    ensures Process(request, registers)
            == Reply([request[0], if request[7] < 128 then request[7] + 128 else request[7], 1], registers)
  {
  }

  // ---------------------------------------------------------------- octet by octet

  /** A number in two octets, the higher one first. */
  predicate Spells(high: byte, low: byte, n: nat) {
    256 * (high as nat) + low == n
  }

  lemma WordSpelled(n: word16)
    ensures Spells(High(n), Low(n), n)
  {
  }

  lemma WordSpells(high: byte, low: byte)
    ensures Spells(high, low, Word(high, low))
  {
  }

  /** The header of a request, whatever it asks for: transaction, protocol 0, length, unit, function code. */
  lemma RequestOnWire(tid: word16, unit: byte, code: byte, data: seq<byte>)
    requires |data| + 2 < TWO_16
    ensures var r := Request(tid, unit, code, data);
            && |r| == 8 + |data| && Spells(r[0], r[1], tid) && r[2] == 0 && r[3] == 0
            && Spells(r[4], r[5], |data| + 2) && r[6] == unit && r[7] == code && r[8..] == data
  {
    hide High, Low, Cut, Spells;
    WordSpelled(tid);
    CutExactly(|data| + 2);
    WordSpelled(|data| + 2);
  }

  /** The three requests. */
  lemma CallsOnWire(tid: word16, unit: byte, address: word16, count: word16, values: seq<word16>)
    requires |values| <= 127
    ensures var r := ReadRequest(tid, unit, address, count);
            |r| == 12 && r[7] == 0x03 && Spells(r[8], r[9], address) && Spells(r[10], r[11], count)
    ensures var r := WriteOneRequest(tid, unit, address, count);
            |r| == 12 && r[7] == 0x06 && Spells(r[8], r[9], address) && Spells(r[10], r[11], count)
    ensures var r := WriteManyRequest(tid, unit, address, values);
            && |r| == 13 + 2 * |values| && r[7] == 0x10 && Spells(r[8], r[9], address)
            && Spells(r[10], r[11], |values|) && r[12] == 2 * |values|
            && forall i :: 0 <= i < |values| ==> Spells(r[13 + 2 * i], r[14 + 2 * i], values[i])
  {
    hide High, Low, Cut, Spells, ValueBytes;
    WordSpelled(address);
    WordSpelled(count);
    CutExactly(|values|);
    WordSpelled(|values|);
    ByteCount(|values|);
    ValueBytesSize(values);
    WriteManyShape(tid, unit, address, values);
    hide WriteManyRequest;
    var r := WriteManyPrefix(tid, unit, address, |values|) + ValueBytes(values);
    forall i | 0 <= i < |values|
      ensures Spells(r[13 + 2 * i], r[14 + 2 * i], values[i])
    {
      ValueBytesAt(values, i);
      WordSpelled(values[i]);
    }
  }

  /** The reply to a read: the transaction, the unit, and the registers two octets each. */
  lemma ReplyOnWire(request: seq<byte>, tid: word16, unit: byte, address: word16, count: word16, registers: seq<word16>)
    requires request == ReadRequest(tid, unit, address, count) && count <= 127 && address + count <= |registers|
    ensures Process(request, registers).Reply?
    ensures var r := Process(request, registers).response;
            && |r| == 9 + 2 * count && Spells(r[0], r[1], tid) && r[2] == 0 && r[3] == 0 && Spells(r[4], r[5], 3 + 2 * count)
            && r[6] == unit && r[7] == 0x03 && r[8] == 2 * count
            && forall i :: 0 <= i < count ==> Spells(r[9 + 2 * i], r[10 + 2 * i], registers[address + i])
  {
    hide High, Low, Cut, Spells, ValueBytes, Process, ReadRequest, ReadHead;
    ReadReaction(request, tid, unit, address, count, registers);
    var values := registers[address..address + count];
    HeadOnWire(tid, unit, count);
    ValueBytesSize(values);
    var head, r := ReadHead(tid, unit, count), ReadHead(tid, unit, count) + ValueBytes(values);
    assert r[..9] == head;
    forall i | 0 <= i < count
      ensures Spells(r[9 + 2 * i], r[10 + 2 * i], registers[address + i])
    {
      ValueBytesAt(values, i);
      WordSpelled(values[i]);
    }
  }

  lemma HeadOnWire(tid: word16, unit: byte, count: word16)
    requires count <= 127
    ensures var r := ReadHead(tid, unit, count);
            && |r| == 9 && Spells(r[0], r[1], tid) && r[2] == 0 && r[3] == 0 && Spells(r[4], r[5], 3 + 2 * count)
            && r[6] == unit && r[7] == 0x03 && r[8] == 2 * count
  {
    hide High, Low, Cut, Spells;
    WordSpelled(tid);
    CutExactly(3 + count * 2);
    WordSpelled(3 + count * 2);
    ByteCount(count);
  }

  /** What the client parses are the numbers the octets spell. */
  lemma ParsedSpelled(response: seq<byte>, count: word16, i: nat)
    requires ParseRegisters(response, count).Some? && i < count
    ensures |response| >= 9 + 2 * count && response[8] == 2 * count
    ensures var values := ParseRegisters(response, count).value;
            |values| == count && Spells(response[9 + 2 * i], response[10 + 2 * i], values[i])
  {
    hide Word, Spells;
    WordSpells(response[9 + 2 * i], response[10 + 2 * i]);
  }

  // ---------------------------------------------------------------- wide values

  /** The number that consecutive registers hold, most significant first. */
  function WordsValue(words: seq<word16>): nat {
    if words == [] then 0 else WordsValue(words[..|words| - 1]) * TWO_16 + words[|words| - 1]
  }
}
