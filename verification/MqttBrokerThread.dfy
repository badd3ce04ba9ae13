/** The thread the broker runs for each client, from the accepted connection to cleanup. The critical
    sections are those of `MqttBroker`; between them the threads of all other clients may take any number of
    steps. `h` is the history of the whole broker so far. */
module MqttBrokerThread {
  import opened Bytes
  import opened Transport
  import opened MqttCodec
  import opened MqttBroker
  import opened MqttHistory
  import opened MqttStream

  const SUBACK := 0x90
  const UNSUBACK := 0xB0
  const PINGRESP := 0xD0
  const CONNACK := 0x20

  /** `h` is a history that ends in the present state of the broker. */
  ghost predicate UpTo(h: seq<Move>, b: Broker)
    reads b
  {
    IsHistory(h) && Last(h) == b.S()
  }

  /** One step of the transition system. */
  method Take(b: Broker, c: Client, a: Action, ghost h: seq<Move>) returns (ghost h': seq<Move>)
    requires UpTo(h, b) && Enabled(b.S(), c, a)
    modifies b
    ensures b.S() == Do(old(b.S()), c, a)
    ensures UpTo(h', b) && h' == h + [Move(c, a, old(b.S()), b.S())]
  {
    hide IsHistory, Do, Enabled;
    var s := Do(b.S(), c, a);
    b.subscribers, b.topics, b.output, b.phase, b.log, b.lost
      := s.subscribers, s.topics, s.output, s.phase, s.log, s.lost;
    h' := h + [Move(c, a, old(b.S()), s)];
    HistorySnoc(h, c, a, s);
  }

  /** Records a step that a critical section has taken. */
  ghost method Extend(b: Broker, c: Client, a: Action, before: State, h: seq<Move>) returns (h': seq<Move>)
    requires IsHistory(h) && Last(h) == before && Step(before, c, a, b.S())
    ensures UpTo(h', b) && h' == h + [Move(c, a, before, b.S())]
    ensures Own(h', c) == Own(h, c) + [Move(c, a, before, b.S())]
  {
    h' := h + [Move(c, a, before, b.S())];
    HistorySnoc(h, c, a, b.S());
    OwnSnoc(h, Move(c, a, before, b.S()), c);
  }

  /** The thread of `c` is where it was. */
  predicate SamePlace(s: State, s': State, c: Client) {
    if c in s.phase then c in s'.phase && s'.phase[c] == s.phase[c] else c !in s'.phase
  }

  lemma OthersDoNotMove(s: State, d: Client, a: Action, c: Client)
    requires d != c && Enabled(s, d, a)
    ensures SamePlace(s, Do(s, d, a), c)
  {
  }

  /** Any number of steps of other threads. */
  method Others(b: Broker, c: Client, ghost h: seq<Move>) returns (ghost h': seq<Move>)
    requires UpTo(h, b)
    modifies b
    ensures UpTo(h', b) && h <= h' && Own(h', c) == Own(h, c) && SamePlace(old(b.S()), b.S(), c)
  {
    hide UpTo, Do, Enabled, Own;
    h' := h;
    var n: nat := *;
    while n > 0
      invariant UpTo(h', b) && h <= h' && Own(h', c) == Own(h, c) && SamePlace(old(b.S()), b.S(), c)
    {
      var d: Client := *;
      var a: Action := *;
      if d != c && Enabled(b.S(), d, a) {
        OthersDoNotMove(b.S(), d, a, c);
        ghost var so := h';
        ghost var before := b.S();
        h' := Take(b, d, a, h');
        OwnSnoc(so, Move(d, a, before, b.S()), c);
      }
      n := n - 1;
    }
  }

  predicate IsServing(s: State, c: Client) {
    c in s.phase && s.phase[c].Serving?
  }

  /** The head of `handlePublish`, with its cursor. */
  method TopicAndMessage(hdr: byte, buf: seq<byte>) returns (r: Option<(seq<byte>, seq<byte>)>)
    ensures r == ParsePublish(hdr, buf)
  {
    var p := 0;
    if |buf| < 2 {
      return None;
    }
    var tlen: nat := Word16(buf[p], buf[p + 1]);
    p := p + 2;
    if p + tlen > |buf| {
      return None;
    }
    var topic := buf[p..p + tlen];
    p := p + tlen;
    if (hdr / 2) % 4 > 0 {
      if p + 2 > |buf| {
        return None;
      }
      p := p + 2;
    }
    r := Some((topic, buf[p..]));
  }

  /** `handlePublish`: the two critical sections, with anything happening in between. A topic without an
      entry at the first one ends it there. */
  method HandlePublish(b: Broker, c: Client, hdr: byte, buf: seq<byte>, ghost h: seq<Move>)
    returns (ghost h': seq<Move>, ghost did: seq<Move>)
    requires UpTo(h, b) && IsServing(b.S(), c) && |buf| <= MAX_REMAINING
    modifies b
    ensures UpTo(h', b) && h <= h' && IsServing(b.S(), c)
    ensures Own(h', c) == Own(h, c) + did && Fulfils(did, PublishWish(hdr, buf), b.reach)
  {
    hide UpTo, ParsePublish, Own, DoPublish;
    h', did := h, [];
    var parsed := TopicAndMessage(hdr, buf);
    if parsed.None? {
      return;
    }
    var (topic, message) := parsed.value;
    ghost var looked := Move(c, Lookup(hdr, buf), b.S(), Do(b.S(), c, Lookup(hdr, buf)));
    h' := Take(b, c, Lookup(hdr, buf), h');
    OwnSnoc(h, looked, c);
    did := [looked];
    if topic !in b.subscribers {
      return;
    }
    h' := Others(b, c, h');
    ghost var published;
    h', published := PublishNow(b, c, topic, message, h');
    did := [looked, published];
    assert did[2..] == [];
    assert Own(h, c) + [looked] + [published] == Own(h, c) + did;
  }

  /** The second critical section. */
  method PublishNow(b: Broker, c: Client, topic: Topic, message: seq<byte>, ghost h: seq<Move>)
    returns (ghost h': seq<Move>, ghost published: Move)
    requires UpTo(h, b) && c in b.phase && b.phase[c] == Publishing(topic, message)
    modifies b
    ensures UpTo(h', b) && h <= h' && IsServing(b.S(), c)
    ensures Own(h', c) == Own(h, c) + [published] && Publishes(published, topic, message, b.reach)
  {
    hide Do, Enabled, IsHistory;
    ghost var before := b.S();
    var failure := b.PublishSection(c, topic, message);
    h' := Extend(b, c, Publish(failure), before, h);
    published := Move(c, Publish(failure), before, b.S());
    PublishReturns(before, c, failure);
  }

  lemma PublishReturns(s: State, c: Client, failure: Option<nat>)
    requires Enabled(s, c, Publish(failure))
    ensures IsServing(Do(s, c, Publish(failure)), c)
  {
  }

  /** `handleSubscriber`. A failed SUBACK ends the loop. */
  method HandleSubscriber(b: Broker, c: Client, conn: Connection, buf: seq<byte>, ghost h: seq<Move>)
    returns (running: bool, ghost h': seq<Move>, ghost did: seq<Move>)
    requires UpTo(h, b) && IsServing(b.S(), c)
    modifies b, conn`written
    ensures UpTo(h', b) && h <= h' && IsServing(b.S(), c)
    ensures Own(h', c) == Own(h, c) + did && Fulfils(did, FilterWish(buf, 1), b.reach)
    ensures conn.written == old(conn.written) + AnswerOf(SUBSCRIBE, buf)
    ensures running <==> AnswerOf(SUBSCRIBE, buf) == [] || conn.accepts(|old(conn.written)|)
  {
    hide IsHistory, Own;
    IdentifierEchoed(buf, 1);
    hide ParseFilter;
    running, h', did := true, h, [];
    var filter := ParseFilter(buf, 1);
    if filter.None? {
      return;
    }
    var (pid, topic) := filter.value;
    ghost var before := b.S();
    b.AddSubscriber(c, topic);
    h' := Extend(b, c, Subscribe(topic), before, h');
    did := [Move(c, Subscribe(topic), before, b.S())];
    running := conn.Write([SUBACK, 0x03, (pid / 256) % 256, pid % 256, 0x00]);
  }

  lemma IdentifierEchoed(buf: seq<byte>, trailing: nat)
    ensures ParseFilter(buf, trailing).Some? ==>
              |buf| >= 4 && var pid := ParseFilter(buf, trailing).value.0; (pid / 256) % 256 == buf[0] && pid % 256 == buf[1]
  {
  }

  method HandleUnsubscribe(b: Broker, c: Client, conn: Connection, buf: seq<byte>, ghost h: seq<Move>)
    returns (running: bool, ghost h': seq<Move>, ghost did: seq<Move>)
    requires UpTo(h, b) && IsServing(b.S(), c)
    modifies b, conn`written
    ensures UpTo(h', b) && h <= h' && IsServing(b.S(), c)
    ensures Own(h', c) == Own(h, c) + did && Fulfils(did, FilterWish(buf, 0), b.reach)
    ensures conn.written == old(conn.written) + AnswerOf(UNSUBSCRIBE, buf)
    ensures running <==> AnswerOf(UNSUBSCRIBE, buf) == [] || conn.accepts(|old(conn.written)|)
  {
    hide IsHistory, Own;
    IdentifierEchoed(buf, 0);
    hide ParseFilter;
    running, h', did := true, h, [];
    var filter := ParseFilter(buf, 0);
    if filter.None? {
      return;
    }
    var (pid, topic) := filter.value;
    ghost var before := b.S();
    b.RemoveSubscriber(c, topic);
    h' := Extend(b, c, Unsubscribe(topic), before, h');
    did := [Move(c, Unsubscribe(topic), before, b.S())];
    running := conn.Write([UNSUBACK, 0x02, (pid / 256) % 256, pid % 256]);
  }

  /** The switch of `clientLoop`, for every packet but DISCONNECT. */
  method HandlePacket(b: Broker, c: Client, conn: Connection, hdr: byte, buf: seq<byte>, ghost h: seq<Move>)
    returns (running: bool, ghost h': seq<Move>, ghost did: seq<Move>)
    requires UpTo(h, b) && IsServing(b.S(), c) && |buf| <= MAX_REMAINING && hdr / 16 != 0xE
    modifies b, conn`written
    ensures UpTo(h', b) && h <= h' && IsServing(b.S(), c)
    ensures Own(h', c) == Own(h, c) + did && Fulfils(did, WishOf(hdr, buf), b.reach)
    ensures conn.written == old(conn.written) + AnswerOf(hdr, buf)
    ensures running <==> AnswerOf(hdr, buf) == [] || conn.accepts(|old(conn.written)|)
  {
    hide UpTo, PublishWish, FilterWish, ParseFilter, Do, Own;
    running, h', did := true, h, [];
    var kind, flags := hdr / 16, hdr % 16;
    if kind == PUBLISH / 16 {
      h', did := HandlePublish(b, c, hdr, buf, h);
    } else if kind == SUBSCRIBE / 16 {
      if flags == 2 {
        running, h', did := HandleSubscriber(b, c, conn, buf, h);
      }
    } else if kind == UNSUBSCRIBE / 16 {
      if flags == 2 {
        running, h', did := HandleUnsubscribe(b, c, conn, buf, h);
      }
    } else if kind == 0xC && flags == 0 {
      running := conn.Write([PINGRESP, 0x00]);
    }
  }

  /** How a turn of the loop ends: `Over` at the end of the stream or a DISCONNECT, `Cut` by the stop flag, an
      exception or a failed answer. */
  datatype Turn = Again | Over | Cut

  /** The k-th turn of the loop. */
  method OneTurn(b: Broker, c: Client, conn: Connection, stop: bool, ghost h: seq<Move>)
    returns (turn: Turn, ghost h': seq<Move>, ghost did: seq<Move>, ghost wish: seq<Wish>, ghost answer: seq<seq<byte>>)
    requires UpTo(h, b) && IsServing(b.S(), c)
    modifies b, conn
    ensures UpTo(h', b) && h <= h' && IsServing(b.S(), c)
    ensures Own(h', c) == Own(h, c) + did && Fulfils(did, wish, b.reach)
    ensures conn.written == old(conn.written) + answer
    ensures IsTurn(old(conn.incoming), stop, conn.accepts(|old(conn.written)|), turn, wish, answer)
    ensures turn.Again? ==> conn.incoming == BehindFirst(old(conn.incoming))
  {
    turn, did, wish, answer := Cut, [], [], [];
    assert Fulfils([], [], b.reach);
    hide UpTo, FirstPacket, WishOf, AnswerOf, Own, Fulfils;
    h' := Others(b, c, h);
    if stop {
      return;
    }
    ghost var before := conn.incoming;
    SizeOfFirst(before);
    var packet := ReadPacket(conn);
    if packet.None? {
      turn := Over;
      return;
    }
    var (hdr, buf) := packet.value;
    if hdr / 16 == 0xE {
      turn := Over;
      return;
    }
    ReceivedBound(before);
    var running;
    running, h', did := HandlePacket(b, c, conn, hdr, buf, h');
    wish, answer := WishOf(hdr, buf), AnswerOf(hdr, buf);
    turn := if running then Again else Cut;
  }

  predicate IsTurn(s: seq<byte>, stop: bool, accepted: bool, turn: Turn, wish: seq<Wish>, answer: seq<seq<byte>>) {
    if stop then turn == Cut && wish == [] && answer == []
    else match FirstPacket(s)
      case None => turn == Over && wish == [] && answer == []
      case Some(p) =>
        if p.header / 16 == 0xE then turn == Over && wish == [] && answer == []
        else
          && wish == WishOf(p.header, p.payload) && answer == AnswerOf(p.header, p.payload)
          && turn == if answer == [] || accepted then Again else Cut
  }

  function BehindFirst(s: seq<byte>): seq<byte> {
    var p := FirstPacket(s);
    if p.Some? then s[p.value.size..] else s
  }

  lemma TurnOfLife(s: seq<byte>, k: nat, stop: nat -> bool, w: nat, accepts: nat -> bool, turn: Turn,
                   wish: seq<Wish>, answer: seq<seq<byte>>)
    requires IsTurn(s, stop(k), accepts(w), turn, wish, answer)
    ensures !turn.Again? ==> LoopLife(s, k, stop, w, accepts) == Life(wish, answer, turn.Cut?)
    ensures turn.Again? ==>
              && |BehindFirst(s)| < |s|
              && LoopLife(s, k, stop, w, accepts)
                 == Earlier(wish, answer, LoopLife(BehindFirst(s), k + 1, stop, w + |answer|, accepts))
  {
    hide FirstPacket, WishOf, AnswerOf, Earlier;
    SizeOfFirst(s);
  }

  /** `clientLoop`, with the stop flag, exceptions and the results of the writes as inputs: its own moves and
      its answers are those of `LoopLife`. */
  method ClientLoop(b: Broker, c: Client, conn: Connection, stop: nat -> bool, ghost h: seq<Move>)
    returns (ghost h': seq<Move>, ghost did: seq<Move>, ghost life: Life)
    requires UpTo(h, b) && IsServing(b.S(), c)
    modifies b, conn
    ensures UpTo(h', b) && h <= h' && IsServing(b.S(), c)
    ensures Own(h', c) == Own(h, c) + did && Fulfils(did, life.wishes, b.reach)
    ensures life == LoopLife(old(conn.incoming), 0, stop, |old(conn.written)|, conn.accepts)
    ensures conn.written == old(conn.written) + life.answers
  {
    h', did, life := h, [], Life([], [], false);
    ghost var whole, w0 := LoopLife(conn.incoming, 0, stop, |conn.written|, conn.accepts), conn.written;
    EarlierNothing(whole);
    assert Fulfils([], [], b.reach) && Progress(whole, life, Again, whole);
    hide UpTo, Own, Fulfils, LoopLife, Progress;
    var turn, k := Again, 0;
    while turn.Again?
      invariant UpTo(h', b) && h <= h' && IsServing(b.S(), c)
      invariant Own(h', c) == Own(h, c) + did && Fulfils(did, life.wishes, b.reach)
      invariant conn.written == w0 + life.answers
      invariant Progress(whole, life, turn, LoopLife(conn.incoming, k, stop, |conn.written|, conn.accepts))
      decreases turn.Again?, |conn.incoming|
    {
      turn, h', did, life := RecordedTurn(b, c, conn, k, stop, h, h', did, life, whole, w0);
      k := k + 1;
    }
    Finished(whole, life, turn, LoopLife(conn.incoming, k, stop, |conn.written|, conn.accepts));
  }

  /** The k-th turn, added to what has been done before. */
  method RecordedTurn(b: Broker, c: Client, conn: Connection, k: nat, stop: nat -> bool, ghost h0: seq<Move>,
                      ghost h: seq<Move>, ghost did: seq<Move>, ghost life: Life, ghost whole: Life,
                      ghost w0: seq<seq<byte>>)
    returns (turn: Turn, ghost h': seq<Move>, ghost did': seq<Move>, ghost life': Life)
    requires UpTo(h, b) && h0 <= h && IsServing(b.S(), c)
    requires Own(h, c) == Own(h0, c) + did && Fulfils(did, life.wishes, b.reach)
    requires conn.written == w0 + life.answers
    requires Progress(whole, life, Again, LoopLife(conn.incoming, k, stop, |conn.written|, conn.accepts))
    modifies b, conn
    ensures UpTo(h', b) && h0 <= h' && IsServing(b.S(), c)
    ensures Own(h', c) == Own(h0, c) + did' && Fulfils(did', life'.wishes, b.reach)
    ensures conn.written == w0 + life'.answers
    ensures Progress(whole, life', turn, LoopLife(conn.incoming, k + 1, stop, |conn.written|, conn.accepts))
    ensures turn.Again? ==> |conn.incoming| < |old(conn.incoming)|
  {
    hide UpTo, Own, Fulfils, LoopLife, IsTurn, BehindFirst, Progress;
    ghost var now, wish, answer;
    ghost var s, w := conn.incoming, |conn.written|;
    turn, h', now, wish, answer := OneTurn(b, c, conn, stop(k), h);
    Progresses(whole, life, s, k, stop, w, conn.accepts, turn, wish, answer,
               LoopLife(conn.incoming, k + 1, stop, |conn.written|, conn.accepts), conn.incoming);
    FulfilsAppend(did, life.wishes, now, wish, b.reach);
    Assoc(Own(h0, c), did, now);
    Assoc(w0, life.answers, answer);
    did' := did + now;
    life' := Life(life.wishes + wish, life.answers + answer, turn.Cut?);
  }

  /** `life` is what has been done so far, `rest` what the loop will do if it goes on. */
  predicate Progress(whole: Life, life: Life, turn: Turn, rest: Life) {
    whole == if turn.Again? then Earlier(life.wishes, life.answers, rest) else life
  }

  lemma Finished(whole: Life, life: Life, turn: Turn, rest: Life)
    requires Progress(whole, life, turn, rest) && !turn.Again?
    ensures whole == life
  {
  }

  lemma Progresses(whole: Life, life: Life, s: seq<byte>, k: nat, stop: nat -> bool, w: nat, accepts: nat -> bool,
                   turn: Turn, wish: seq<Wish>, answer: seq<seq<byte>>, rest: Life, s': seq<byte>)
    requires Progress(whole, life, Again, LoopLife(s, k, stop, w, accepts))
    requires IsTurn(s, stop(k), accepts(w), turn, wish, answer)
    requires turn.Again? ==> s' == BehindFirst(s) && rest == LoopLife(s', k + 1, stop, w + |answer|, accepts)
    ensures Progress(whole, Life(life.wishes + wish, life.answers + answer, turn.Cut?), turn, rest)
    ensures turn.Again? ==> |s'| < |s|
  {
    hide LoopLife, IsTurn, BehindFirst, Earlier;
    TurnOfLife(s, k, stop, w, accepts, turn, wish, answer);
    EarlierTwice(life.wishes, life.answers, wish, answer, rest);
    EarlierLast(life.wishes, life.answers, wish, answer, turn.Cut?);
  }

  lemma EarlierNothing(life: Life)
    ensures Earlier([], [], life) == life
  {
    assert [] + life.wishes == life.wishes && [] + life.answers == life.answers;
  }

  lemma EarlierLast(v: seq<Wish>, a: seq<seq<byte>>, w: seq<Wish>, b: seq<seq<byte>>, cut: bool)
    ensures Earlier(v, a, Life(w, b, cut)) == Life(v + w, a + b, cut)
  {
  }

  lemma EarlierTwice(v: seq<Wish>, a: seq<seq<byte>>, w: seq<Wish>, b: seq<seq<byte>>, life: Life)
    ensures Earlier(v, a, Earlier(w, b, life)) == Earlier(v + w, a + b, life)
  {
    Assoc(v, w, life.wishes);
    Assoc(a, b, life.answers);
  }

  /** The CONNECT exchange: true if the loop is to be entered. */
  method Connect(conn: Connection) returns (ok: bool)
    modifies conn
    ensures conn.written == old(conn.written) + if StartsWithConnect(old(conn.incoming)) then [[0x20, 0x02, 0x00, 0x00]] else []
    ensures ok <==> StartsWithConnect(old(conn.incoming)) && conn.accepts(|old(conn.written)|)
    ensures ok ==> conn.incoming == AfterConnect(old(conn.incoming))
  {
    hide FirstPacket, ParseConnect;
    SizeOfFirst(conn.incoming);
    var packet := ReadPacket(conn);
    if packet.None? || packet.value.0 != CONNECT || ParseConnect(packet.value.1).None? {
      return false;
    }
    ok := conn.Write([CONNACK, 0x02, 0x00, 0x00]);
  }

  /** The moves of a client's thread: refused, or admitted, then what its stream asks for, then cleanup. */
  predicate Lifetime(did: seq<Move>, served: bool, done: seq<Wish>, reach: Reach) {
    if !served then |did| == 2 && did[0].action == Accept && did[1].action == Refuse
    else
      && |did| >= 3 && did[0].action == Accept && did[1].action == Admit && did[|did| - 1].action == Cleanup
      && Fulfils(did[2..|did| - 1], done, reach)
  }

  /** `handleClient`: whatever the client sends, in whatever pieces, whatever the other threads do, and
      whichever writes fail. A client is served if and only if it sends a CONNECT and the CONNACK gets
      through; its moves in the broker's history and the answers it gets are then what the rest of its
      stream asks for; what it adds to the log are its PUBLISH packets, in order; and it is in no list when
      the thread returns. */
  method HandleClient(b: Broker, c: Client, conn: Connection, stop: nat -> bool, ghost h: seq<Move>)
    returns (ghost h': seq<Move>, ghost did: seq<Move>, served: bool, ghost life: Life)
    requires UpTo(h, b) && c !in b.phase
    modifies b, conn
    ensures UpTo(h', b) && h <= h' && Own(h', c) == Own(h, c) + did && Lifetime(did, served, life.wishes, b.reach)
    ensures served <==> StartsWithConnect(old(conn.incoming)) && conn.accepts(|old(conn.written)|)
    ensures life == if served
                    then LoopLife(AfterConnect(old(conn.incoming)), 0, stop, |old(conn.written)| + 1, conn.accepts)
                    else Life([], [], true)
    ensures conn.written == old(conn.written)
                            + (if StartsWithConnect(old(conn.incoming)) then [[0x20, 0x02, 0x00, 0x00]] else [])
                            + life.answers
    ensures EntriesBy(b.log, c) == EntriesBy(old(b.log), c) + LoggedBy(did)
    ensures Subsequence(LoggedBy(did), life.wishes)
    ensures c in b.phase && b.phase[c].Gone? && (served ==> !conn.open)
    ensures forall t :: t in b.subscribers ==> c !in b.subscribers[t]
  {
    hide UpTo, Do, Enabled, Own, LoopLife, Fulfils, EntriesBy, LoggedBy, Subsequence, Lifetime, StartsWithConnect, AfterConnect;
    life := Life([], [], true);
    UpToMeans(h, b);
    ghost var first, second;
    h', first := Outside(b, c, Accept, h);
    h' := Others(b, c, h');
    served := Connect(conn);
    h', second := Outside(b, c, if served then Admit else Refuse, h');
    did := [first, second];
    OwnTwo(Own(h, c), first, second);
    if served {
      ghost var inner, last;
      h', inner, life := ClientLoop(b, c, conn, stop, h');
      h', last := Finish(b, c, conn, h');
      Assoc(Own(h, c), did, inner);
      Assoc(Own(h, c), did + inner, [last]);
      did := did + inner + [last];
      ServedLifetime(first, second, inner, last, life.wishes, b.reach);
    } else {
      RefusedLifetime(first, second, b.reach);
    }
    NotListed(b, c, h');
    UpToMeans(h', b);
    LogOfLifetime(h, h', c, did, served, life.wishes, b.reach);
  }

  /** A step of the thread outside its loop. */
  method Outside(b: Broker, c: Client, a: Action, ghost h: seq<Move>) returns (ghost h': seq<Move>, ghost m: Move)
    requires UpTo(h, b) && (a == Accept || a == Admit || a == Refuse)
    requires if a == Accept then c !in b.phase else c in b.phase && b.phase[c].Connecting?
    modifies b
    ensures UpTo(h', b) && h <= h' && Own(h', c) == Own(h, c) + [m] && m.action == a
    ensures b.phase == old(b.phase)[c := if a == Accept then Connecting else if a == Admit then Serving else Gone]
    ensures b.log == old(b.log)
  {
    hide UpTo, Own;
    m := Move(c, a, b.S(), Do(b.S(), c, a));
    OwnSnoc(h, m, c);
    h' := Take(b, c, a, h);
  }

  lemma OwnTwo(own: seq<Move>, first: Move, second: Move)
    ensures own + [first] + [second] == own + [first, second]
  {
  }

  lemma ServedLifetime(first: Move, second: Move, inner: seq<Move>, last: Move, done: seq<Wish>, reach: Reach)
    requires first.action == Accept && second.action == Admit && last.action == Cleanup && Fulfils(inner, done, reach)
    ensures Lifetime([first, second] + inner + [last], true, done, reach)
  {
    var did := [first, second] + inner + [last];
    assert did[2..|did| - 1] == inner;
  }

  lemma RefusedLifetime(first: Move, second: Move, reach: Reach)
    requires first.action == Accept && second.action == Refuse
    ensures Lifetime([first, second], false, [], reach)
  {
  }

  lemma UpToMeans(h: seq<Move>, b: Broker)
    requires UpTo(h, b)
    ensures IsHistory(h) && Last(h) == b.S()
  {
  }

  lemma LogOfLifetime(h: seq<Move>, h': seq<Move>, c: Client, did: seq<Move>, served: bool, done: seq<Wish>,
                       reach: Reach)
    requires IsHistory(h) && IsHistory(h') && Own(h', c) == Own(h, c) + did && Lifetime(did, served, done, reach)
    requires !served ==> done == []
    ensures EntriesBy(Last(h').log, c) == EntriesBy(Last(h).log, c) + LoggedBy(did)
    ensures Subsequence(LoggedBy(did), done)
  {
    hide IsHistory, Own, EntriesBy, LoggedBy, Subsequence, Fulfils, Last;
    LogMatches(h, c);
    LogMatches(h', c);
    LoggedAppend(Own(h, c), did);
    if served {
      var first, inner, last := did[..2], did[2..|did| - 1], did[|did| - 1..];
      assert did == first + inner + last;
      LoggedInside(first, inner, last);
      LoggedAreWishes(inner, done, reach);
    } else {
      NothingLogged(did);
      NothingWished();
    }
  }

  /** `cleanupClient`, which closes the connection as well. */
  method Finish(b: Broker, c: Client, conn: Connection, ghost h: seq<Move>)
    returns (ghost h': seq<Move>, ghost last: Move)
    requires UpTo(h, b) && IsServing(b.S(), c)
    modifies b, conn`open
    ensures UpTo(h', b) && h <= h' && c in b.phase && b.phase[c].Gone? && !conn.open
    ensures Own(h', c) == Own(h, c) + [last] && last.action == Cleanup
  {
    hide IsHistory, Own;
    ghost var before := b.S();
    b.CleanupClient(c);
    h' := Extend(b, c, Cleanup, before, h);
    last := Move(c, Cleanup, before, b.S());
    conn.Close();
  }

  lemma NotListed(b: Broker, c: Client, h: seq<Move>)
    requires UpTo(h, b) && c in b.phase && b.phase[c].Gone?
    ensures forall t :: t in b.subscribers ==> c !in b.subscribers[t]
  {
    StatesAreRun(h);
    forall t | t in b.subscribers
      ensures c !in b.subscribers[t]
    {
      RegistrySafety(States(h), |h|, c, t);
      assert Subs(b.S(), t) == b.subscribers[t];
    }
  }
}
