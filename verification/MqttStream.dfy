/** What the bytes a client sends ask of the broker: changes of the shared state, and answers to the client
    itself. */
module MqttStream {
  import opened Bytes
  import opened MqttCodec

  /** What a packet asks of the broker's shared state. */
  datatype Wish = Pub(topic: seq<byte>, message: seq<byte>) | Sub(topic: seq<byte>) | Unsub(topic: seq<byte>)

  function WishOf(hdr: byte, buf: seq<byte>): seq<Wish> {
    if hdr / 16 == PUBLISH / 16 then PublishWish(hdr, buf)
    else if hdr == SUBSCRIBE then FilterWish(buf, 1)
    else if hdr == UNSUBSCRIBE then FilterWish(buf, 0)
    else []
  }

  function PublishWish(hdr: byte, buf: seq<byte>): seq<Wish> {
    match ParsePublish(hdr, buf)
    case None => []
    case Some((topic, message)) => [Pub(topic, message)]
  }

  function FilterWish(buf: seq<byte>, trailing: nat): seq<Wish> {
    match ParseFilter(buf, trailing)
    case None => []
    case Some((_, topic)) => [if trailing == 1 then Sub(topic) else Unsub(topic)]
  }

  /** What a stream asks for, up to its end or a DISCONNECT. */
  function Wishes(s: seq<byte>): seq<Wish>
    decreases |s|
  {
    match FirstPacket(s)
    case None => []
    case Some(p) =>
      if p.header / 16 == 0xE then [] else WishOf(p.header, p.payload) + Wishes(s[p.size..])
  }

  lemma SizeOfFirst(s: seq<byte>)
    ensures FirstPacket(s).Some? ==> 0 < FirstPacket(s).value.size <= |s|
  {
  }

  // ---------------------------------------------------------------- answers

  /** SUBACK and UNSUBACK with the packet identifier that was sent, PINGRESP. */
  function AnswerOf(hdr: byte, buf: seq<byte>): seq<seq<byte>> {
    if hdr == SUBSCRIBE && ParseFilter(buf, 1).Some? then [[0x90, 0x03, buf[0], buf[1], 0x00]]
    else if hdr == UNSUBSCRIBE && ParseFilter(buf, 0).Some? then [[0xB0, 0x02, buf[0], buf[1]]]
    else if hdr == 0xC0 then [[0xD0, 0x00]]
    else []
  }

  function Answers(s: seq<byte>): seq<seq<byte>>
    decreases |s|
  {
    match FirstPacket(s)
    case None => []
    case Some(p) =>
      if p.header / 16 == 0xE then [] else AnswerOf(p.header, p.payload) + Answers(s[p.size..])
  }

  // ---------------------------------------------------------------- the loop with everything that can end it

  /** What the loop does with a stream. `cut`: it ended before the stream did. */
  datatype Life = Life(wishes: seq<Wish>, answers: seq<seq<byte>>, cut: bool)

  /** From the k-th turn and the w-th write to the client on. `stop` tells before which turns the stop flag is
      set or an exception ends the loop, `accepts` which writes succeed. */
  function LoopLife(s: seq<byte>, k: nat, stop: nat -> bool, w: nat, accepts: nat -> bool): Life
    decreases |s|
  {
    if stop(k) then Life([], [], true)
    else match FirstPacket(s)
      case None => Life([], [], false)
      case Some(p) =>
        if p.header / 16 == 0xE then Life([], [], false)
        else
          var wish, answer := WishOf(p.header, p.payload), AnswerOf(p.header, p.payload);
          if answer != [] && !accepts(w) then Life(wish, answer, true)
          else Earlier(wish, answer, LoopLife(s[p.size..], k + 1, stop, w + |answer|, accepts))
  }

  function Earlier(wish: seq<Wish>, answer: seq<seq<byte>>, later: Life): Life {
    Life(wish + later.wishes, answer + later.answers, later.cut)
  }

  /** All that the stream asks for, unless the loop is cut short, and then the beginning of it; and it is cut
      short only where the stop flag, an exception or a failed write says so. */
  lemma {:induction false} LifeExactly(s: seq<byte>, k: nat, stop: nat -> bool, w: nat, accepts: nat -> bool)
    ensures var life := LoopLife(s, k, stop, w, accepts);
            && life.wishes <= Wishes(s) && life.answers <= Answers(s)
            && (!life.cut ==> life.wishes == Wishes(s) && life.answers == Answers(s))
            && (life.cut ==> (exists i :: i >= k && stop(i)) || exists i :: i >= w && !accepts(i))
    decreases |s|
  {
    hide FirstPacket, WishOf, AnswerOf;
    SizeOfFirst(s);
    if !stop(k) && FirstPacket(s).Some? && FirstPacket(s).value.header / 16 != 0xE {
      var p := FirstPacket(s).value;
      LifeExactly(s[p.size..], k + 1, stop, w + |AnswerOf(p.header, p.payload)|, accepts);
    }
  }

  // ---------------------------------------------------------------- what the client's own packets ask for

  lemma AskedByPacket(header: byte, payload: seq<byte>, rest: seq<byte>)
    requires |payload| <= MAX_REMAINING
    ensures var s := Packet(header, payload) + rest;
            if header / 16 == 0xE then Wishes(s) == [] && Answers(s) == []
            else && Wishes(s) == WishOf(header, payload) + Wishes(rest)
                 && Answers(s) == AnswerOf(header, payload) + Answers(rest)
  {
    hide FirstPacket, Packet, WishOf, AnswerOf;
    var s := Packet(header, payload) + rest;
    PacketRoundTrip(header, payload, rest);
    assert s[|Packet(header, payload)|..] == rest;
  }

  lemma AskedBySubscribe(topic: seq<byte>, rest: seq<byte>)
    requires |topic| < TWO_16
    ensures var s := Packet(0x82, SubscribePayload(topic)) + rest;
            Wishes(s) == [Sub(topic)] + Wishes(rest) && Answers(s) == [[0x90, 0x03, 0x00, 0x01, 0x00]] + Answers(rest)
  {
    hide ParseFilter, Packet, Wishes, Answers;
    FilterParses(0, topic);
    AskedByPacket(0x82, SubscribePayload(topic), rest);
  }

  lemma AskedByUnsubscribe(pid: nat, topic: seq<byte>, rest: seq<byte>)
    requires |topic| < TWO_16 && pid < TWO_16
    ensures var s := Packet(0xA2, UnsubscribePayload(pid, topic)) + rest;
            && Wishes(s) == [Unsub(topic)] + Wishes(rest)
            && Answers(s) == [[0xB0, 0x02, pid / 256, pid % 256]] + Answers(rest)
  {
    hide ParseFilter, Packet, Wishes, Answers;
    FilterParses(pid, topic);
    AskedByPacket(0xA2, UnsubscribePayload(pid, topic), rest);
  }

  lemma AskedByPublish(topic: seq<byte>, message: seq<byte>, rest: seq<byte>)
    requires Publishable(topic, message)
    ensures var s := Packet(0x30, PublishPayload(topic, message)) + rest;
            Wishes(s) == [Pub(topic, message)] + Wishes(rest) && Answers(s) == Answers(rest)
  {
    hide ParsePublish, Packet, Wishes, Answers;
    PublishParses(topic, message);
    AskedByPacket(0x30, PublishPayload(topic, message), rest);
  }

  lemma AskedByPing(rest: seq<byte>)
    ensures var s := Packet(0xC0, []) + rest;
            Wishes(s) == Wishes(rest) && Answers(s) == [[0xD0, 0x00]] + Answers(rest)
  {
    hide Packet, Wishes, Answers;
    AskedByPacket(0xC0, [], rest);
  }

  lemma NothingAfterDisconnect(rest: seq<byte>)
    ensures var s := Packet(0xE0, []) + rest;
            Wishes(s) == [] && Answers(s) == []
  {
    hide Packet, Wishes, Answers;
    AskedByPacket(0xE0, [], rest);
  }

  // ---------------------------------------------------------------- CONNECT

  predicate StartsWithConnect(s: seq<byte>) {
    var p := FirstPacket(s);
    p.Some? && p.value.header == CONNECT && ParseConnect(p.value.payload).Some?
  }

  /** The stream behind the CONNECT packet. */
  function AfterConnect(s: seq<byte>): seq<byte> {
    var p := FirstPacket(s);
    if p.Some? then s[p.value.size..] else []
  }

  /** The client's own CONNECT is one. */
  lemma ConnectStarts(clientId: seq<byte>, rest: seq<byte>)
    requires |clientId| < TWO_16
    ensures var s := Packet(0x10, ConnectPayload(clientId)) + rest;
            StartsWithConnect(s) && AfterConnect(s) == rest
  {
    ConnectParses(clientId);
    var payload := ConnectPayload(clientId);
    var s := Packet(0x10, payload) + rest;
    assert |payload| <= MAX_REMAINING;
    hide FirstPacket, Packet, ParseConnect, ConnectPayload;
    PacketRoundTrip(0x10, payload, rest);
    assert s[|Packet(0x10, payload)|..] == rest;
  }
}
