/** The Modbus TCP client: building requests and reading one response per call. */
module ModbusClient {
  import opened Bytes
  import opened Transport
  import opened Modbus

  /** `makeRequest`. */
  method MakeRequest(tid: word16, unit: byte, code: byte, data: seq<byte>) returns (r: seq<byte>)
    ensures r == Request(tid, unit, code, data)
  {
    hide High, Low;
    var request := new byte[8 + |data|];
    request[0], request[1], request[2], request[3] := High(tid), Low(tid), 0, 0;
    var length := Cut(|data| + 2);
    request[4], request[5], request[6], request[7] := High(length), Low(length), unit, code;
    assert request[..8] == [High(tid), Low(tid), 0, 0, High(length), Low(length), unit, code];
    var i := 0;
    while i < |data|
      invariant 0 <= i <= |data|
      invariant request[..8] == [High(tid), Low(tid), 0, 0, High(length), Low(length), unit, code]
      invariant request[8..8 + i] == data[..i]
    {
      request[8 + i] := data[i];
      i := i + 1;
    }
    r := request[..];
    assert r == request[..8] + request[8..8 + |data|];
  }

  method ParseRegistersResponse(response: seq<byte>, count: word16) returns (r: Option<seq<word16>>)
    ensures r == ParseRegisters(response, count)
  {
    if |response| < 9 + count * 2 || response[8] != count * 2 {
      return None;
    }
    hide Word;
    var registers: seq<word16> := [];
    var i := 0;
    while i < count
      invariant 0 <= i <= count
      invariant registers == Carried(response, 9, i)
    {
      CarriedSnoc(response, 9, i);
      registers := registers + [Word(response[9 + i * 2], response[9 + i * 2 + 1])];
      i := i + 1;
    }
    r := Some(registers);
  }

  class Client {
    const conn: Connection
    var nextTransactionId: word16

    constructor (conn: Connection)
      ensures this.conn == conn && nextTransactionId == 1
    {
      this.conn := conn;
      nextTransactionId := 1;
    }

    /** One read of at most 255 bytes; `None` stands for the exception. */
    method ReceiveResponse() returns (r: Option<seq<byte>>)
      modifies conn`incoming
      ensures r.Some? ==> |r.value| <= 255 && r.value + conn.incoming == old(conn.incoming)
      ensures r == None ==> old(conn.incoming) == [] && conn.incoming == []
      ensures r.Some? && r.value == [] ==> old(conn.incoming) == []
    {
      var data := conn.Read(255);
      var failed: bool := *;
      r := if data == [] && failed then None else Some(data);
    }

    /** The call sends `request` under the next transaction id and consumes `response`, which is empty exactly
        if the write fails or the stream has ended. */
    twostate predicate Exchanged(request: seq<byte>, response: seq<byte>)
      reads this, conn
    {
      && nextTransactionId == (old(nextTransactionId) + 1) % TWO_16
      && conn.written == old(conn.written) + [request]
      && response + conn.incoming == old(conn.incoming) && |response| <= 255
      && (response == [] <==> !conn.accepts(|old(conn.written)|) || old(conn.incoming) == [])
    }

    method ReadHoldingRegisters(address: word16, count: word16, unit: byte)
      returns (r: Option<seq<word16>>, ghost response: seq<byte>)
      modifies this, conn
      ensures Exchanged(ReadRequest(old(nextTransactionId), unit, address, count), response)
      ensures r == ParseRegisters(response, count)
    {
      var tid := NextTransactionId();
      var request := MakeRequest(tid, unit, 0x03, [High(address), Low(address), High(count), Low(count)]);
      response := [];
      var sent := conn.Write(request);
      if !sent {
        return None, [];
      }
      var received := ReceiveResponse();
      if received == None {
        return None, [];
      }
      response := received.value;
      r := ParseRegistersResponse(received.value, count);
    }

    method NextTransactionId() returns (tid: word16)
      modifies this
      ensures tid == old(nextTransactionId) && nextTransactionId == (tid + 1) % TWO_16
    {
      tid := nextTransactionId;
      nextTransactionId := (nextTransactionId + 1) % TWO_16;
    }

    /** `None` stands for the exception; no response, or one that does not match, is `false` or `None`. */
    method WriteSingleRegister(address: word16, value: word16, unit: byte)
      returns (r: Option<bool>, ghost response: seq<byte>)
      modifies this, conn
      ensures Exchanged(WriteOneRequest(old(nextTransactionId), unit, address, value), response)
      ensures r == Some(true) <==> ValidWrite(response, address, value)
    {
      var tid := NextTransactionId();
      var request := MakeRequest(tid, unit, 0x06, [High(address), Low(address), High(value), Low(value)]);
      r, response := Confirm(request, address, value);
    }

    method Confirm(request: seq<byte>, address: word16, value: word16)
      returns (r: Option<bool>, ghost response: seq<byte>)
      modifies conn
      ensures conn.written == old(conn.written) + [request]
      ensures response + conn.incoming == old(conn.incoming) && |response| <= 255
      ensures response == [] <==> !conn.accepts(|old(conn.written)|) || old(conn.incoming) == []
      ensures r == Some(true) <==> ValidWrite(response, address, value)
    {
      response := [];
      var sent := conn.Write(request);
      if !sent {
        return Some(false), [];
      }
      var received := ReceiveResponse();
      if received == None {
        return None, [];
      }
      response := received.value;
      r := Some(ValidWrite(received.value, address, value));
    }

    /** The confirmed count is compared with the low 16 bits of the number of values. */
    method WriteMultipleRegisters(address: word16, values: seq<word16>, unit: byte)
      returns (r: Option<bool>, ghost response: seq<byte>)
      modifies this, conn
      ensures Exchanged(WriteManyRequest(old(nextTransactionId), unit, address, values), response)
      ensures r == Some(true) <==> ValidWrite(response, address, |values| % TWO_16)
    {
      var n := |values|;
      var tid := NextTransactionId();
      var data := AppendValues([High(address), Low(address), High(Cut(n)), Low(Cut(n)), Low(2 * n)], values);
      hide High, Low, ValueBytes, Request;
      var request := MakeRequest(tid, unit, 0x10, data);
      r, response := Confirm(request, address, n % TWO_16);
    }

    method AppendValues(head: seq<byte>, values: seq<word16>) returns (data: seq<byte>)
      ensures data == head + ValueBytes(values)
    {
      hide High, Low, ValueBytes;
      data := head;
      var i := 0;
      assert ValueBytes([]) == [];
      while i < |values|
        invariant 0 <= i <= |values|
        invariant data == head + ValueBytes(values[..i])
      {
        ValueBytesSnoc(values[..i], values[i]);
        assert values[..i + 1] == values[..i] + [values[i]];
        data := data + [High(values[i]), Low(values[i])];
        i := i + 1;
      }
      assert values[..|values|] == values;
    }
  }
}
