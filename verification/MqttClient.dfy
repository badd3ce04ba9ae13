/** The subscriber's side: the client's receive loop on what the broker wrote. */
module MqttClient {
  import opened Bytes
  import opened Transport
  import opened MqttCodec
  import MqttBroker

  /** A call of a subscription callback. */
  datatype Call = Call(topic: seq<byte>, message: seq<byte>)

  function OnPacket(header: byte, payload: seq<byte>, callbacks: set<seq<byte>>): seq<Call> {
    if header / 16 != PUBLISH / 16 then []
    else match ParsePublish(header, payload)
      case None => []
      case Some((topic, message)) => if topic in callbacks then [Call(topic, message)] else []
  }

  /** The calls one pass over the stream makes. `table` tells which topics have a callback when the k-th
      packet is handled; `subscribe` and `unsubscribe` change them at any time. */
  function Calls(s: seq<byte>, k: nat, table: nat -> set<seq<byte>>): seq<Call>
    decreases |s|
  {
    match FirstPacket(s)
    case None => []
    case Some(p) => OnPacket(p.header, p.payload, table(k)) + Calls(s[p.size..], k + 1, table)
  }

  /** The receive loop of `run`, however the stream is cut. */
  method Run(conn: Connection, table: nat -> set<seq<byte>>) returns (calls: seq<Call>)
    modifies conn`incoming
    ensures calls == Calls(old(conn.incoming), 0, table)
  {
    hide FirstPacket, ParsePublish;
    calls := [];
    var k := 0;
    while true
      invariant calls + Calls(conn.incoming, k, table) == Calls(old(conn.incoming), 0, table)
      decreases |conn.incoming|
    {
      ghost var before := conn.incoming;
      ghost var p := FirstPacket(before);
      PacketSize(before);
      var packet := ReadPacket(conn);
      if packet.None? {
        return;
      }
      var (header, payload) := packet.value;
      var mine := OnPacket(header, payload, table(k));
      k := k + 1;
      assert calls + (mine + Calls(conn.incoming, k, table)) == (calls + mine) + Calls(conn.incoming, k, table);
      calls := calls + mine;
    }
  }

  lemma PacketSize(s: seq<byte>)
    ensures var r := FirstPacket(s); r.Some? ==> 0 < r.value.size <= |s|
  {
  }

  // ---------------------------------------------------------------- end to end

  function Packets(share: seq<Call>): seq<seq<byte>> {
    seq(|share|, i requires 0 <= i < |share| => PublishPacket(share[i].topic, share[i].message))
  }

  /** What the broker writes to a client: the PUBLISH packets of its share of the log, and between them the
      answers (CONNACK, SUBACK, UNSUBACK, PINGRESP) of the client's own thread. */
  datatype Item = Published(packet: seq<byte>) | Answer(header: byte, payload: seq<byte>)

  predicate IsAnswer(x: Item) {
    x.Answer? ==> x.header / 16 != PUBLISH / 16 && |x.payload| <= MAX_REMAINING
  }

  function ItemBytes(x: Item): seq<byte> {
    match x
    case Published(packet) => packet
    case Answer(header, payload) => Packet(header, payload)
  }

  function StreamOf(items: seq<Item>): seq<byte> {
    if items == [] then [] else ItemBytes(items[0]) + StreamOf(items[1..])
  }

  function PublishedOf(items: seq<Item>): seq<seq<byte>> {
    if items == [] then []
    else (if items[0].Published? then [items[0].packet] else []) + PublishedOf(items[1..])
  }

  /** Each entry of the share, at the place of its packet, if its topic has a callback then. */
  function CallsAlong(items: seq<Item>, share: seq<Call>, k: nat, table: nat -> set<seq<byte>>): seq<Call> {
    if items == [] || share == [] then []
    else if items[0].Answer? then CallsAlong(items[1..], share, k + 1, table)
    else (if share[0].topic in table(k) then [share[0]] else []) + CallsAlong(items[1..], share[1..], k + 1, table)
  }

  /** A packet that is no PUBLISH is skipped. */
  lemma AnswerSkipped(header: byte, payload: seq<byte>, rest: seq<byte>, k: nat, table: nat -> set<seq<byte>>)
    requires header / 16 != PUBLISH / 16 && |payload| <= MAX_REMAINING
    ensures Calls(Packet(header, payload) + rest, k, table) == Calls(rest, k + 1, table)
  {
    hide FirstPacket, Packet, ParsePublish;
    var s := Packet(header, payload) + rest;
    PacketRoundTrip(header, payload, rest);
    assert s[|Packet(header, payload)|..] == rest;
  }

  lemma PublishHandled(x: Call, rest: seq<byte>, k: nat, table: nat -> set<seq<byte>>)
    requires Publishable(x.topic, x.message)
    ensures Calls(PublishPacket(x.topic, x.message) + rest, k, table)
            == (if x.topic in table(k) then [x] else []) + Calls(rest, k + 1, table)
  {
    hide FirstPacket, PublishPacket, ParsePublish;
    var packet := PublishPacket(x.topic, x.message);
    PublishEndToEnd(x.topic, x.message, rest);
    assert (packet + rest)[|packet|..] == rest;
  }

  lemma {:induction false} RunOnItems(items: seq<Item>, share: seq<Call>, k: nat, table: nat -> set<seq<byte>>)
    requires PublishedOf(items) == Packets(share)
    requires (forall x :: x in items ==> IsAnswer(x)) && forall x :: x in share ==> Publishable(x.topic, x.message)
    ensures Calls(StreamOf(items), k, table) == CallsAlong(items, share, k, table)
    decreases |items|
  {
    hide Publishable, PublishPacket, Packet, Calls;
    if items == [] {
      NoPacket(k, table);
    } else {
      var x, rest := items[0], StreamOf(items[1..]);
      assert x in items;
      if x.Answer? {
        AnswerSkipped(x.header, x.payload, rest, k, table);
        RunOnItems(items[1..], share, k + 1, table);
        if share == [] {
          NoCalls(items[1..], k + 1, table);
        }
      } else {
        assert Packets(share) != [] && x.packet == Packets(share)[0];
        assert share[0] in share;
        assert Packets(share)[1..] == Packets(share[1..]) && PublishedOf(items)[1..] == PublishedOf(items[1..]);
        PublishHandled(share[0], rest, k, table);
        RunOnItems(items[1..], share[1..], k + 1, table);
      }
    }
  }

  lemma NoCalls(items: seq<Item>, k: nat, table: nat -> set<seq<byte>>)
    ensures CallsAlong(items, [], k, table) == []
  {
  }

  lemma NoPacket(k: nat, table: nat -> set<seq<byte>>)
    ensures Calls([], k, table) == []
  {
  }

  /** The entries of the broker's log that client `c` was served, as often as it was served. */
  function ShareOf(log: seq<MqttBroker.Entry>, c: MqttBroker.Client): seq<Call> {
    if log == [] then []
    else
      var e := log[|log| - 1];
      ShareOf(log[..|log| - 1], c) + MqttBroker.Copies(MqttBroker.Count(e.written, c), Call(e.topic, e.message))
  }

  lemma {:induction false} SharePackets(log: seq<MqttBroker.Entry>, c: MqttBroker.Client)
    requires forall e :: e in log ==> Publishable(e.topic, e.message)
    ensures MqttBroker.Share(log, c) == Packets(ShareOf(log, c))
    ensures forall x :: x in ShareOf(log, c) ==> Publishable(x.topic, x.message)
    decreases |log|
  {
    hide PublishPacket;
    if log != [] {
      var e := log[|log| - 1];
      assert e in log;
      SharePackets(log[..|log| - 1], c);
      var n := MqttBroker.Count(e.written, c);
      assert Packets(MqttBroker.Copies(n, Call(e.topic, e.message)))
             == MqttBroker.Copies(n, PublishPacket(e.topic, e.message));
      PacketsAppend(ShareOf(log[..|log| - 1], c), MqttBroker.Copies(n, Call(e.topic, e.message)));
    }
  }

  lemma PacketsAppend(a: seq<Call>, b: seq<Call>)
    ensures Packets(a + b) == Packets(a) + Packets(b)
  {
    hide PublishPacket;
  }

  /** In any run of the broker, whatever answers stand between the packets of the log and however the
      callbacks change, the receive loop calls exactly the callbacks of the entries the client was served
      whose topic has one when the packet is handled, in log order. */
  lemma BrokerToClient(run: seq<MqttBroker.State>, i: nat, c: MqttBroker.Client, items: seq<Item>,
                       stream: seq<byte>, table: nat -> set<seq<byte>>)
    requires MqttBroker.IsRun(run) && i < |run|
    requires (forall x :: x in items ==> IsAnswer(x)) && PublishedOf(items) == MqttBroker.Out(run[i], c)
    requires stream == StreamOf(items)
    ensures Calls(stream, 0, table) == CallsAlong(items, ShareOf(run[i].log, c), 0, table)
  {
    hide MqttBroker.Share, Calls, CallsAlong;
    MqttBroker.Always(run, i);
    SharePackets(run[i].log, c);
    RunOnItems(items, ShareOf(run[i].log, c), 0, table);
  }

  function CallsFor(share: seq<Call>, callbacks: set<seq<byte>>): seq<Call> {
    if share == [] then []
    else (if share[0].topic in callbacks then [share[0]] else []) + CallsFor(share[1..], callbacks)
  }

  /** With callbacks that stay the same the answers leave no trace in the calls. */
  lemma {:induction false} SameCallbacks(items: seq<Item>, share: seq<Call>, k: nat, callbacks: set<seq<byte>>)
    requires |PublishedOf(items)| == |share|
    ensures CallsAlong(items, share, k, _ => callbacks) == CallsFor(share, callbacks)
    decreases |items|
  {
    if items != [] {
      SameCallbacks(items[1..], if items[0].Answer? then share else share[1..], k + 1, callbacks);
    }
  }
}
