/** MQTT 3.1.1 packets as the client builds them, the broker takes them apart and rebuilds them, and the
    receiving client reads them. Strings are byte strings. */
module MqttCodec {
  import opened Bytes
  import opened Transport

  const CONNECT := 0x10
  const PUBLISH := 0x30
  const SUBSCRIBE := 0x82
  const UNSUBSCRIBE := 0xA2

  /** The largest number four groups of seven bits can hold. */
  const MAX_REMAINING := 268_435_455

  // ---------------------------------------------------------------- Remaining Length (section 2.2.3)

  function EncodeLength(len: nat): seq<byte> {
    if len < 128 then [len] else [len % 128 + 128] + EncodeLength(len / 128)
  }

  /** `encodeRemainingLength`. */
  method EncodeRemainingLength(length: nat) returns (bytes: seq<byte>)
    ensures bytes == EncodeLength(length)
  {
    var len := length;
    bytes := [];
    var more := true;
    while more
      invariant more ==> bytes + EncodeLength(len) == EncodeLength(length)
      invariant !more ==> bytes == EncodeLength(length)
      decreases more, len
    {
      var b: byte := len % 128;
      ghost var rest := EncodeLength(len);
      len := len / 128;
      if len > 0 {
        b := b + 128;
      }
      assert rest == [b] + if len > 0 then EncodeLength(len) else [];
      bytes := bytes + [b];
      more := len > 0;
    }
  }

  /** The groups of seven bits the decoding loop reads once `i` have been read, least significant first,
      and the bytes they take. A stream that ends inside the field gives nothing. */
  function DecodeGroups(s: seq<byte>, i: nat): (r: (Option<nat>, nat))
    ensures r.1 <= |s| && (i <= 4 ==> r.1 <= 4 - i)
    decreases 4 - i
  {
    if i >= 4 then (Some(0), 0)
    else if s == [] then (None, 0)
    else if s[0] < 128 then (Some(s[0]), 1)
    else
      var (high, used) := DecodeGroups(s[1..], i + 1);
      (if high.Some? then Some(s[0] - 128 + 128 * high.value) else None, used + 1)
  }

  /** Value and number of bytes taken; 0 stands for a stream that ends inside the field as well. */
  function DecodeLength(s: seq<byte>): (r: (nat, nat))
    ensures r.1 <= |s|
  {
    var (len, used) := DecodeGroups(s, 0);
    (if len.Some? then len.value else 0, used)
  }

  /** `decodeRemainingLength`, whatever pieces the stream arrives in. */
  method DecodeRemainingLength(conn: Connection) returns (remLen: nat)
    modifies conn`incoming
    ensures var (len, used) := DecodeLength(old(conn.incoming));
            remLen == len && conn.incoming == old(conn.incoming)[used..]
  {
    hide DecodeGroups;
    ghost var all := conn.incoming;
    ghost var goal := DecodeLength(all);
    remLen := 0;
    var multiplier: nat, i: nat := 1, 0;
    assert all[0..] == all;
    while i < 4
      invariant 0 <= i <= 4 && i <= |all| && conn.incoming == all[i..]
      invariant goal == Completed(DecodeGroups(all[i..], i), i, remLen, multiplier)
      decreases 4 - i
    {
      ghost var before := conn.incoming;
      var ok, enc := conn.ReadExact(1);
      DecodeStep(before, i, remLen, multiplier);
      if !ok {
        return 0;
      }
      assert enc == [before[0]];
      var b: nat := enc[0];
      remLen := remLen + (b % 128) * multiplier;
      i := i + 1;
      if b < 128 {
        return remLen;
      }
      multiplier := multiplier * 128;
    }
    DecodeDone(all[i..], remLen, multiplier);
  }

  /** The result when `i` groups add up to `sum` and the next one counts `multiplier`. */
  function Completed(r: (Option<nat>, nat), i: nat, sum: nat, multiplier: nat): (nat, nat) {
    (if r.0.Some? then sum + r.0.value * multiplier else 0, i + r.1)
  }

  /** One turn of the decoding loop. */
  lemma DecodeStep(s: seq<byte>, i: nat, sum: nat, multiplier: nat)
    requires i < 4
    ensures var goal := Completed(DecodeGroups(s, i), i, sum, multiplier);
            && (s == [] ==> goal == (0, i))
            && (s != [] && s[0] < 128 ==> goal == (sum + (s[0] % 128) * multiplier, i + 1))
            && (s != [] && s[0] >= 128 ==>
                  goal == Completed(DecodeGroups(s[1..], i + 1), i + 1, sum + (s[0] % 128) * multiplier, multiplier * 128))
  {
    if s != [] && s[0] >= 128 {
      var r := DecodeGroups(s[1..], i + 1);
      if r.0.Some? {
        CarryOver(s[0] - 128, r.0.value, multiplier);
      }
    }
  }

  lemma CarryOver(low: nat, high: nat, multiplier: nat)
    ensures (low + 128 * high) * multiplier == low * multiplier + high * (multiplier * 128)
  {
  }

  lemma DecodeDone(s: seq<byte>, sum: nat, multiplier: nat)
    ensures DecodeGroups(s, 4) == (Some(0), 0)
    ensures Completed(DecodeGroups(s, 4), 4, sum, multiplier) == (sum, 4)
  {
  }

  /** 128 to the power `k`. */
  function Pow128(k: nat): (p: nat)
    ensures p > 0
  {
    if k == 0 then 1 else 128 * Pow128(k - 1)
  }

  /** Decoding an encoding from the middle of the loop: at most `4 - i` groups are read. */
  lemma {:induction false} DecodeOfEncode(len: nat, rest: seq<byte>, i: nat)
    requires i < 4
    ensures var r := DecodeGroups(EncodeLength(len) + rest, i);
            if len < Pow128(4 - i) then r == (Some(len), |EncodeLength(len)|)
            else r == (Some(len % Pow128(4 - i)), 4 - i) && |EncodeLength(len)| > 4 - i
    decreases 4 - i
  {
    var p, d := Pow128(3 - i), Pow128(4 - i);
    assert d == 128 * p && (i == 3 ==> d == 128);
    hide Pow128;
    if len >= 128 {
      hide EncodeLength, DecodeGroups;
      FirstGroup(len, rest, i);
      if i == 3 {
        DecodeDone(EncodeLength(len / 128) + rest, 0, 1);
      } else {
        Regroup(len, p, d);
        DecodeOfEncode(len / 128, rest, i + 1);
      }
    } else {
      assert d >= 128;
    }
  }

  lemma FirstGroup(len: nat, rest: seq<byte>, i: nat)
    requires len >= 128 && i < 4
    ensures var (high, used) := DecodeGroups(EncodeLength(len / 128) + rest, i + 1);
            DecodeGroups(EncodeLength(len) + rest, i)
            == (if high.Some? then Some(len % 128 + 128 * high.value) else None, used + 1)
    ensures |EncodeLength(len)| == 1 + |EncodeLength(len / 128)| && |EncodeLength(len / 128)| > 0
  {
    var s := EncodeLength(len) + rest;
    assert s[1..] == EncodeLength(len / 128) + rest;
    assert s[0] == len % 128 + 128;
  }

  /** Splitting off the low seven bits commutes with taking a number of groups. */
  lemma Regroup(len: nat, p: nat, d: nat)
    requires p > 0 && d == 128 * p
    ensures len < d <==> len / 128 < p
    ensures len % d == len % 128 + 128 * ((len / 128) % p)
  {
    var low, high := len % 128, len / 128;
    var q, r := high / p, high % p;
    assert high == p * q + r;
    assert len == d * q + (low + 128 * r) by {
      assert 128 * (p * q) == d * q;
    }
    RemainderUnique(len, d, q, low + 128 * r);
  }

  lemma RemainderUnique(n: nat, d: nat, q: nat, r: nat)
    requires d > 0 && r < d && n == d * q + r
    ensures n % d == r
  {
    AddMultiple(r, q, d);
  }

  /** The decoder gets back the length and stops right behind it exactly for lengths the standard
      allows; a larger one loses its high groups. */
  lemma LengthRoundTrip(len: nat, rest: seq<byte>)
    ensures DecodeLength(EncodeLength(len) + rest) == (len, |EncodeLength(len)|) <==> len <= MAX_REMAINING
    ensures len > MAX_REMAINING ==> DecodeLength(EncodeLength(len) + rest) == (len % (MAX_REMAINING + 1), 4)
  {
    FourGroups();
    DecodeOfEncode(len, rest, 0);
    hide EncodeLength, DecodeGroups, Pow128;
  }

  lemma FourGroups()
    ensures Pow128(4) == MAX_REMAINING + 1
  {
    assert Pow128(1) == 128 && Pow128(2) == 16384 && Pow128(3) == 2097152;
  }

  /** A complete length field: every group but the last has the continuation bit. */
  predicate Terminated(s: seq<byte>) {
    s != [] && s[|s| - 1] < 128 && forall i :: 0 <= i < |s| - 1 ==> s[i] >= 128
  }

  function Groups(s: seq<byte>): nat {
    if s == [] then 0 else s[0] % 128 + 128 * Groups(s[1..])
  }

  lemma {:induction false} EncodingTerminated(len: nat)
    ensures Terminated(EncodeLength(len)) && Groups(EncodeLength(len)) == len
  {
    if len >= 128 {
      var rest := EncodeLength(len / 128);
      EncodingTerminated(len / 128);
      assert EncodeLength(len)[1..] == rest;
    }
  }

  /** No complete field stands for the same number in fewer bytes. */
  lemma {:induction false} EncodingShortest(s: seq<byte>)
    requires Terminated(s)
    ensures |EncodeLength(Groups(s))| <= |s|
  {
    if |s| > 1 {
      var low, high := s[0] % 128, Groups(s[1..]);
      EncodingShortest(s[1..]);
      assert (low + 128 * high) / 128 == high;
    }
  }

  /** No encoding is the beginning of another one. */
  lemma EncodingPrefixFree(a: nat, b: nat)
    requires EncodeLength(a) <= EncodeLength(b)
    ensures a == b
  {
    EncodingTerminated(a);
    EncodingTerminated(b);
    var s, t := EncodeLength(a), EncodeLength(b);
    assert t[|s| - 1] == s[|s| - 1];
    assert s == t;
  }

  lemma {:induction false} EncodingSize(len: nat, k: nat)
    ensures |EncodeLength(len)| <= k + 1 <==> len < Pow128(k + 1)
    decreases k
  {
    if k > 0 && len >= 128 {
      EncodingSize(len / 128, k - 1);
    }
  }

  /** One to four bytes for every allowed length. */
  lemma AtMostFourBytes(len: nat)
    ensures 1 <= |EncodeLength(len)|
    ensures |EncodeLength(len)| <= 4 <==> len <= MAX_REMAINING
  {
    FourGroups();
    EncodingSize(len, 3);
  }

  // ---------------------------------------------------------------- packets

  function ShortString(s: seq<byte>): seq<byte> {
    [(|s| / 256) % 256, |s| % 256] + s
  }

  function Packet(header: byte, payload: seq<byte>): seq<byte> {
    [header] + EncodeLength(|payload|) + payload
  }

  /** Fixed header byte and payload of the first packet of a stream, and the bytes it takes. */
  datatype Parsed = Parsed(header: byte, payload: seq<byte>, size: nat)

  function FirstPacket(s: seq<byte>): (r: Option<Parsed>)
    ensures r.Some? ==> 0 < r.value.size <= |s|
  {
    if s == [] then None
    else
      var (len, used) := DecodeLength(s[1..]);
      if |s| < 1 + used + len then None
      else Some(Parsed(s[0], s[1 + used..1 + used + len], 1 + used + len))
  }

  /** The head of the broker's and the client's read loop. */
  method ReadPacket(conn: Connection) returns (r: Option<(byte, seq<byte>)>)
    modifies conn`incoming
    ensures var p := FirstPacket(old(conn.incoming));
            if p.Some?
            then r == Some((p.value.header, p.value.payload)) && conn.incoming == old(conn.incoming)[p.value.size..]
            else r == None
    ensures r.None? ==> conn.incoming == []
  {
    hide DecodeLength;
    ghost var s := conn.incoming;
    var ok, header := conn.ReadExact(1);
    if !ok {
      return None;
    }
    assert header == [s[0]];
    var remLen := DecodeRemainingLength(conn);
    var ok', payload := conn.ReadExact(remLen);
    if remLen > 0 && !ok' {
      return None;
    }
    ghost var used := DecodeLength(s[1..]).1;
    assert s[1..][used..] == s[1 + used..];
    assert payload == s[1 + used..1 + used + remLen];
    assert conn.incoming == s[1 + used + remLen..];
    r := Some((header[0], payload));
  }

  lemma PacketRoundTrip(header: byte, payload: seq<byte>, rest: seq<byte>)
    requires |payload| <= MAX_REMAINING
    ensures FirstPacket(Packet(header, payload) + rest) == Some(Parsed(header, payload, |Packet(header, payload)|))
  {
    var s := Packet(header, payload) + rest;
    LengthRoundTrip(|payload|, payload + rest);
    hide DecodeLength;
    assert s[1..] == EncodeLength(|payload|) + (payload + rest);
  }

  // ---------------------------------------------------------------- PUBLISH

  function PublishPayload(topic: seq<byte>, message: seq<byte>): seq<byte> {
    ShortString(topic) + message
  }

  /** The PUBLISH packet of the client's `publish` and of the broker's fan-out. */
  function PublishPacket(topic: seq<byte>, message: seq<byte>): seq<byte> {
    Packet(PUBLISH, PublishPayload(topic, message))
  }

  method BuildPublish(topic: seq<byte>, message: seq<byte>) returns (packet: seq<byte>)
    ensures packet == PublishPacket(topic, message)
  {
    var t: seq<byte> := [(|topic| / 256) % 256] + [|topic| % 256];
    t := t + topic;
    var payload := t + message;
    packet := [PUBLISH];
    var len := EncodeRemainingLength(|payload|);
    packet := packet + len;
    packet := packet + payload;
    assert t == ShortString(topic);
  }

  /** What `handlePublish` of the broker and `run` of the client take out of a PUBLISH. */
  function ParsePublish(header: byte, buf: seq<byte>): Option<(seq<byte>, seq<byte>)> {
    if |buf| < 2 then None
    else
      var end := 2 + Word16(buf[0], buf[1]);
      var qos := (header / 2) % 4;
      var start := end + if qos > 0 then 2 else 0;
      if start > |buf| then None else Some((buf[2..end], buf[start..]))
  }

  /** Topic and length bounds under which `publish` makes a well-formed packet. */
  predicate Publishable(topic: seq<byte>, message: seq<byte>) {
    |topic| < TWO_16 && 2 + |topic| + |message| <= MAX_REMAINING
  }

  /** What comes out of a received packet can be sent on. */
  lemma ParsedIsPublishable(header: byte, buf: seq<byte>)
    requires |buf| <= MAX_REMAINING && ParsePublish(header, buf).Some?
    ensures var (topic, message) := ParsePublish(header, buf).value; Publishable(topic, message)
  {
  }

  lemma {:induction false} DecodeBound(s: seq<byte>, i: nat)
    requires i <= 4
    ensures var r := DecodeGroups(s, i).0; r.Some? ==> r.value < Pow128(4 - i)
    decreases 4 - i
  {
    if i < 4 {
      assert Pow128(4 - i) == 128 * Pow128(3 - i);
      if s != [] {
        DecodeBound(s[1..], i + 1);
      }
    }
  }

  /** No packet read from a stream has a payload beyond the standard's limit. */
  lemma ReceivedBound(s: seq<byte>)
    requires FirstPacket(s).Some?
    ensures |FirstPacket(s).value.payload| <= MAX_REMAINING
  {
    FourGroups();
    DecodeBound(s[1..], 0);
  }

  /** A topic survives if and only if its length fits two bytes. */
  lemma PublishParses(topic: seq<byte>, message: seq<byte>)
    ensures ParsePublish(PUBLISH, PublishPayload(topic, message)) == Some((topic, message)) <==> |topic| < TWO_16
  {
    var buf := PublishPayload(topic, message);
    var end := 2 + Word16(buf[0], buf[1]);
    if |topic| < TWO_16 {
      assert end == 2 + |topic|;
      assert buf[2..end] == topic && buf[end..] == message;
    }
  }

  /** Client to broker to client: the broker's packet is the publisher's, and the subscriber's client
      recovers topic and message from it. */
  lemma PublishEndToEnd(topic: seq<byte>, message: seq<byte>, rest: seq<byte>)
    requires Publishable(topic, message)
    ensures var packet := PublishPacket(topic, message);
            var first := FirstPacket(packet + rest);
            && first.Some? && first.value.size == |packet| && first.value.header == PUBLISH
            && ParsePublish(first.value.header, first.value.payload) == Some((topic, message))
            && var (t, m) := ParsePublish(first.value.header, first.value.payload).value;
               PublishPacket(t, m) == packet
  {
    PacketRoundTrip(PUBLISH, PublishPayload(topic, message), rest);
    PublishParses(topic, message);
  }

  // ---------------------------------------------------------------- CONNECT, SUBSCRIBE, UNSUBSCRIBE

  const MQTT_NAME: seq<byte> := [0x4D, 0x51, 0x54, 0x54]

  function ConnectPayload(clientId: seq<byte>): seq<byte> {
    ShortString(MQTT_NAME) + [0x04, 0x02, 0x00, 0x3C] + ShortString(clientId)
  }

  /** The client identifier the broker takes out of a CONNECT payload. */
  function ParseConnect(buf: seq<byte>): Option<seq<byte>> {
    if |buf| < 2 then None
    else
      var pos := 2 + Word16(buf[0], buf[1]) + 4;
      if pos > |buf| || pos + 2 > |buf| then None
      else
        var end := pos + 2 + Word16(buf[pos], buf[pos + 1]);
        if end > |buf| then None else Some(buf[pos + 2..end])
  }

  function SubscribePayload(topic: seq<byte>): seq<byte> {
    [0x00, 0x01] + ShortString(topic) + [0x00]
  }

  function UnsubscribePayload(pid: nat, topic: seq<byte>): seq<byte> {
    [(pid / 256) % 256, pid % 256] + ShortString(topic)
  }

  /** Packet identifier and topic; SUBSCRIBE carries one more byte, the requested QoS. */
  function ParseFilter(buf: seq<byte>, trailing: nat): Option<(nat, seq<byte>)> {
    if |buf| < 4 + trailing then None
    else
      var end := 4 + Word16(buf[2], buf[3]);
      if end + trailing > |buf| then None else Some((Word16(buf[0], buf[1]), buf[4..end]))
  }

  lemma ConnectParses(clientId: seq<byte>)
    requires |clientId| < TWO_16
    ensures ParseConnect(ConnectPayload(clientId)) == Some(clientId)
  {
    var head, id := ShortString(MQTT_NAME) + [0x04, 0x02, 0x00, 0x3C], ShortString(clientId);
    var buf := ConnectPayload(clientId);
    assert head == [0x00, 0x04] + MQTT_NAME + [0x04, 0x02, 0x00, 0x3C];
    assert buf == head + id && |head| == 10;
    assert buf[10] == id[0] && buf[11] == id[1];
    assert buf[12..12 + |clientId|] == clientId;
  }

  lemma FilterParses(pid: nat, topic: seq<byte>)
    requires |topic| < TWO_16 && pid < TWO_16
    ensures ParseFilter(SubscribePayload(topic), 1) == Some((1, topic))
    ensures ParseFilter(UnsubscribePayload(pid, topic), 0) == Some((pid, topic))
  {
    var sub, uns := SubscribePayload(topic), UnsubscribePayload(pid, topic);
    assert sub[2..4] == ShortString(topic)[..2] && uns[2..4] == ShortString(topic)[..2];
    assert sub[2] == sub[2..4][0] && sub[3] == sub[2..4][1] && uns[2] == uns[2..4][0] && uns[3] == uns[2..4][1];
    assert sub[4..4 + |topic|] == topic && uns[4..4 + |topic|] == topic;
  }

  /** The client's `connect`, `subscribe` and `unsubscribe`. */
  method BuildConnect(clientId: seq<byte>) returns (packet: seq<byte>)
    ensures packet == Packet(CONNECT, ConnectPayload(clientId))
  {
    var payload := ShortString(MQTT_NAME) + [0x04] + [0x02] + [0x00] + [0x3C];
    payload := payload + ShortString(clientId);
    assert payload == ConnectPayload(clientId);
    var len := EncodeRemainingLength(|payload|);
    packet := [CONNECT] + len + payload;
  }

  method BuildSubscribe(topic: seq<byte>) returns (packet: seq<byte>)
    ensures packet == Packet(SUBSCRIBE, SubscribePayload(topic))
  {
    var payload := [0x00] + [0x01];
    payload := payload + ShortString(topic) + [0x00];
    assert payload == SubscribePayload(topic);
    var len := EncodeRemainingLength(|payload|);
    packet := [SUBSCRIBE] + len + payload;
  }

  method BuildUnsubscribe(pid: nat, topic: seq<byte>) returns (packet: seq<byte>)
    requires pid < TWO_16
    ensures packet == Packet(UNSUBSCRIBE, UnsubscribePayload(pid, topic))
  {
    var payload := [(pid / 256) % 256] + [pid % 256];
    payload := payload + ShortString(topic);
    assert payload == UnsubscribePayload(pid, topic);
    var len := EncodeRemainingLength(|payload|);
    packet := [UNSUBSCRIBE] + len + payload;
  }

  // ---------------------------------------------------------------- octet by octet

  /** The first two forms of the remaining length. */
  lemma ShortLengths(len: nat)
    ensures len < 128 ==> EncodeLength(len) == [len]
    ensures 128 <= len < 16384 ==> EncodeLength(len) == [len % 128 + 128, len / 128]
  {
  }

  /** A string is preceded by its length in two octets, the higher one first. */
  lemma StringOnWire(s: seq<byte>)
    requires |s| < TWO_16
    ensures var w := ShortString(s); |w| == 2 + |s| && 256 * (w[0] as nat) + w[1] == |s| && w[2..] == s
  {
  }

  /** The packets the client builds, and the broker for PUBLISH. */
  lemma ConnectOnWire(id: seq<byte>)
    ensures Packet(CONNECT, ConnectPayload(id))
            == [0x10] + EncodeLength(12 + |id|)
               + ([0x00, 0x04, 0x4D, 0x51, 0x54, 0x54, 0x04, 0x02, 0x00, 0x3C] + ShortString(id))
  {
    hide EncodeLength, ConnectPayload;
    ConnectOctets(id);
    StringSize(id);
    hide ShortString;
  }

  lemma ConnectOctets(id: seq<byte>)
    ensures ConnectPayload(id)
            == [0x00, 0x04, 0x4D, 0x51, 0x54, 0x54, 0x04, 0x02, 0x00, 0x3C] + ShortString(id)
  {
    NameOnWire();
    hide ShortString;
  }

  lemma StringSize(s: seq<byte>)
    ensures |ShortString(s)| == 2 + |s|
  {
  }

  lemma SubscribeOnWire(topic: seq<byte>, a: byte, b: byte)
    ensures Packet(SUBSCRIBE, SubscribePayload(topic))
            == [0x82] + EncodeLength(5 + |topic|) + ([0x00, 0x01] + ShortString(topic) + [0x00])
    ensures Packet(UNSUBSCRIBE, UnsubscribePayload(256 * (a as nat) + b, topic))
            == [0xA2] + EncodeLength(4 + |topic|) + ([a, b] + ShortString(topic))
  {
    hide EncodeLength, ShortString;
    StringSize(topic);
    IdentifierOctets(a, b);
  }

  lemma PublishOnWire(topic: seq<byte>, message: seq<byte>)
    ensures PublishPacket(topic, message) == [0x30] + EncodeLength(2 + |topic| + |message|) + (ShortString(topic) + message)
  {
    hide EncodeLength, ShortString;
    StringSize(topic);
  }

  lemma NameOnWire()
    ensures ShortString(MQTT_NAME) == [0x00, 0x04, 0x4D, 0x51, 0x54, 0x54]
  {
  }

  lemma IdentifierOctets(a: byte, b: byte)
    ensures var pid := 256 * (a as nat) + b; (pid / 256) % 256 == a && pid % 256 == b
  {
  }

  /** A PUBLISH with quality of service 1 or 2 carries a packet identifier, which is skipped. */
  lemma IdentifierSkipped(header: byte, topic: seq<byte>, a: byte, b: byte, message: seq<byte>)
    requires |topic| < TWO_16 && header % 8 >= 2
    ensures ParsePublish(header, ShortString(topic) + [a, b] + message) == Some((topic, message))
  {
    StringOnWire(topic);
    QualityBits(header);
    hide ShortString;
    var buf := ShortString(topic) + [a, b] + message;
    assert Word16(buf[0], buf[1]) == |topic|;
    assert buf[2..2 + |topic|] == topic && buf[4 + |topic|..] == message;
  }

  lemma QualityBits(header: byte)
    ensures (header / 2) % 4 > 0 <==> header % 8 >= 2
  {
  }
}
