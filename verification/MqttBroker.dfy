/** The broker: one thread per client, a subscriber index shared under one mutex. A step is one critical
    section, or one decision of a client thread. */
module MqttBroker {
  import opened Bytes
  import opened MqttCodec

  type Client = nat
  type Topic = seq<byte>

  /** Where a client's thread is in `handleClient`. `Publishing`: between the two critical sections of
      `handlePublish`. */
  datatype Phase =
    | Connecting
    | Serving
    | Publishing(topic: Topic, message: seq<byte>)
    | Gone

  /** One entry of the global publish log: `written` is the part of the subscriber list that was served. */
  datatype Entry = Entry(publisher: Client, topic: Topic, message: seq<byte>, written: seq<Client>)

  /** `lost` is the set of pairs (c, t) for which a publish on t has failed since c last subscribed to t.
      `output` holds the PUBLISH packets written to each client. */
  datatype State = State(
    subscribers: map<Topic, seq<Client>>,
    topics: map<Client, set<Topic>>,
    phase: map<Client, Phase>,
    output: map<Client, seq<seq<byte>>>,
    log: seq<Entry>,
    lost: set<(Client, Topic)>)

  const START := State(map[], map[], map[], map[], [], {})

  predicate Alive(s: State, c: Client) {
    c in s.phase && (s.phase[c].Serving? || s.phase[c].Publishing?)
  }

  function Subs(s: State, t: Topic): seq<Client> {
    if t in s.subscribers then s.subscribers[t] else []
  }

  function Out(s: State, c: Client): seq<seq<byte>> {
    if c in s.output then s.output[c] else []
  }

  // ---------------------------------------------------------------- list operations

  /** `std::erase`. */
  function Erase(list: seq<Client>, c: Client): seq<Client> {
    if list == [] then []
    else (if list[0] == c then [] else [list[0]]) + Erase(list[1..], c)
  }

  lemma {:induction false} EraseMembers(list: seq<Client>, c: Client)
    ensures forall d :: d in Erase(list, c) <==> d in list && d != c
  {
    if list != [] {
      EraseMembers(list[1..], c);
    }
  }

  lemma EraseStep(list: seq<Client>, i: nat, c: Client)
    requires i <= |list|
    ensures i == |list| ==> Erase(list[i..], c) == []
    ensures i < |list| ==> Erase(list[i..], c) == (if list[i] == c then [] else [list[i]]) + Erase(list[i + 1..], c)
  {
    assert i < |list| ==> list[i..][1..] == list[i + 1..];
  }

  /** Every topic of `ts` loses `c`; as in the code, missing entries come into being empty. */
  function EraseFrom(index: map<Topic, seq<Client>>, ts: set<Topic>, c: Client): map<Topic, seq<Client>> {
    map t | t in index.Keys + ts :: var list := if t in index then index[t] else []; if t in ts then Erase(list, c) else list
  }

  lemma EraseFromNothing(index: map<Topic, seq<Client>>, c: Client)
    ensures EraseFrom(index, {}, c) == index
  {
  }

  lemma EraseFromStep(index: map<Topic, seq<Client>>, ts: set<Topic>, t: Topic, c: Client)
    requires t !in ts
    ensures var before := EraseFrom(index, ts, c);
            EraseFrom(index, ts + {t}, c) == before[t := Erase(if t in before then before[t] else [], c)]
  {
  }

  function Deliver(output: map<Client, seq<seq<byte>>>, written: seq<Client>, packet: seq<byte>)
    : map<Client, seq<seq<byte>>>
    decreases |written|
  {
    if written == [] then output
    else
      var n := |written| - 1;
      var before := Deliver(output, written[..n], packet);
      var c := written[n];
      before[c := (if c in before then before[c] else []) + [packet]]
  }

  // ---------------------------------------------------------------- steps

  /** `failure` is the position in the list whose write fails, if any. */
  datatype Action =
    | Accept
    | Refuse           // handleClient returns before the loop
    | Admit            // CONNACK written
    | Subscribe(topic: Topic)
    | Unsubscribe(topic: Topic)
    | Lookup(header: byte, buf: seq<byte>)  // a PUBLISH packet has been read
    | Publish(failure: Option<nat>)
    | Cleanup          // normal end of the loop or an exception

  predicate Enabled(s: State, c: Client, a: Action) {
    match a
    case Accept => c !in s.phase
    case Refuse => c in s.phase && s.phase[c].Connecting?
    case Admit => c in s.phase && s.phase[c].Connecting?
    case Subscribe(_) => c in s.phase && s.phase[c].Serving?
    case Unsubscribe(_) => c in s.phase && s.phase[c].Serving?
    case Lookup(_, buf) => c in s.phase && s.phase[c].Serving? && |buf| <= MAX_REMAINING
    case Publish(failure) =>
      && c in s.phase && s.phase[c].Publishing?
      && (failure.Some? ==> failure.value < |Subs(s, s.phase[c].topic)|)
    case Cleanup => Alive(s, c)
  }

  function Topics(s: State, c: Client): set<Topic> {
    if c in s.topics then s.topics[c] else {}
  }

  /** The second critical section of `handlePublish`. One failed write erases the whole topic entry. */
  function DoPublish(s: State, c: Client, topic: Topic, message: seq<byte>, failure: Option<nat>): State
    requires failure.Some? ==> failure.value < |Subs(s, topic)|
  {
    if topic !in s.subscribers then s
    else
      var list := s.subscribers[topic];
      var written := if failure.Some? then list[..failure.value] else list;
      s.(subscribers := if failure.Some? then s.subscribers - {topic} else s.subscribers,
         output := Deliver(s.output, written, PublishPacket(topic, message)),
         log := s.log + [Entry(c, topic, message, written)],
         lost := if failure.Some? then s.lost + (set d | d in s.phase.Keys :: (d, topic)) else s.lost)
  }

  function Do(s: State, c: Client, a: Action): State
    requires Enabled(s, c, a)
  {
    match a
    case Accept => s.(phase := s.phase[c := Connecting], topics := s.topics[c := {}])
    case Refuse => s.(phase := s.phase[c := Gone])
    case Admit => s.(phase := s.phase[c := Serving])
    case Subscribe(t) =>
      s.(subscribers := s.subscribers[t := Subs(s, t) + [c]],
         topics := s.topics[c := Topics(s, c) + {t}],
         lost := s.lost - {(c, t)})
    case Unsubscribe(t) =>
      s.(subscribers := s.subscribers[t := Erase(Subs(s, t), c)],
         topics := s.topics[c := Topics(s, c) - {t}])
    case Lookup(header, buf) =>
      (match ParsePublish(header, buf)
       case None => s
       case Some((t, m)) => if t in s.subscribers then s.(phase := s.phase[c := Publishing(t, m)]) else s)
    case Publish(failure) =>
      DoPublish(s, c, s.phase[c].topic, s.phase[c].message, failure).(phase := s.phase[c := Serving])
    case Cleanup =>
      s.(subscribers := EraseFrom(s.subscribers, Topics(s, c), c), phase := s.phase[c := Gone])
  }

  ghost predicate Next(s: State, s': State) {
    exists c, a :: Step(s, c, a, s')
  }

  predicate Step(s: State, c: Client, a: Action, s': State) {
    Enabled(s, c, a) && s' == Do(s, c, a)
  }

  ghost predicate IsRun(run: seq<State>) {
    && run != [] && run[0] == START
    && forall i :: 0 < i < |run| ==> Next(run[i - 1], run[i])
  }

  // ---------------------------------------------------------------- registry

  /** The index and the clients' own topic sets describe each other, up to lost subscriptions. */
  ghost predicate Registry(s: State) {
    forall c, t :: c in Subs(s, t) <==> Alive(s, c) && t in Topics(s, c) && (c, t) !in s.lost
  }

  /** Clients that never got to the loop, or are not known, have no topics. */
  ghost predicate Idle(s: State) {
    forall c :: c !in s.phase || s.phase[c].Connecting? ==> Topics(s, c) == {}
  }

  ghost predicate Listed(s: State, c: Client, t: Topic) {
    Alive(s, c) && t in Topics(s, c) && (c, t) !in s.lost
  }

  lemma RegistryAfterPublish(s: State, c: Client, failure: Option<nat>)
    requires Registry(s) && Enabled(s, c, Publish(failure))
    ensures Registry(Do(s, c, Publish(failure)))
  {
    var topic, s' := s.phase[c].topic, Do(s, c, Publish(failure));
    forall d, t
      ensures d in Subs(s', t) <==> Listed(s', d, t)
    {
      assert Alive(s', d) <==> Alive(s, d);
      assert Topics(s', d) == Topics(s, d);
      assert d in Subs(s, t) <==> Listed(s, d, t);
      if failure.Some? {
        assert topic in s.subscribers;
        assert (d, t) in s'.lost <==> (d, t) in s.lost || (t == topic && d in s.phase);
      }
    }
  }

  lemma RegistryAfterCleanup(s: State, c: Client)
    requires Registry(s) && Enabled(s, c, Cleanup)
    ensures Registry(Do(s, c, Cleanup))
  {
    var s' := Do(s, c, Cleanup);
    forall d, t
      ensures d in Subs(s', t) <==> Listed(s', d, t)
    {
      EraseMembers(Subs(s, t), c);
      assert d in Subs(s, t) <==> Listed(s, d, t);
      assert c in Subs(s, t) <==> Listed(s, c, t);
      assert d != c ==> (Alive(s', d) <==> Alive(s, d));
    }
  }

  lemma RegistryAfterSubscribe(s: State, c: Client, topic: Topic)
    requires Registry(s) && Enabled(s, c, Subscribe(topic))
    ensures Registry(Do(s, c, Subscribe(topic)))
  {
    var s' := Do(s, c, Subscribe(topic));
    forall d, t
      ensures d in Subs(s', t) <==> Listed(s', d, t)
    {
      assert d in Subs(s, t) <==> Listed(s, d, t);
    }
  }

  lemma RegistryAfterUnsubscribe(s: State, c: Client, topic: Topic)
    requires Registry(s) && Enabled(s, c, Unsubscribe(topic))
    ensures Registry(Do(s, c, Unsubscribe(topic)))
  {
    var s' := Do(s, c, Unsubscribe(topic));
    EraseMembers(Subs(s, topic), c);
    forall d, t
      ensures d in Subs(s', t) <==> Listed(s', d, t)
    {
      assert d in Subs(s, t) <==> Listed(s, d, t);
    }
  }

  /** Steps that touch neither the index nor the topics of a live client. */
  lemma RegistryUnaffected(s: State, c: Client, a: Action)
    requires Registry(s) && Idle(s) && Enabled(s, c, a) && (a.Accept? || a.Refuse? || a.Admit? || a.Lookup?)
    ensures Registry(Do(s, c, a))
  {
    var s' := Do(s, c, a);
    forall d, t
      ensures d in Subs(s', t) <==> Listed(s', d, t)
    {
      assert d in Subs(s, t) <==> Listed(s, d, t);
    }
  }

  /** Every message on its way, and every logged one, fits a packet. */
  ghost predicate Bounded(s: State) {
    && (forall c :: c in s.phase && s.phase[c].Publishing? ==> Publishable(s.phase[c].topic, s.phase[c].message))
    && forall e :: e in s.log ==> Publishable(e.topic, e.message)
  }

  lemma BoundedPreserved(s: State, c: Client, a: Action)
    requires Bounded(s) && Enabled(s, c, a)
    ensures Bounded(Do(s, c, a))
  {
    hide Publishable, ParsePublish;
    if a.Lookup? && ParsePublish(a.header, a.buf).Some? {
      ParsedIsPublishable(a.header, a.buf);
    }
  }

  lemma IdlePreserved(s: State, c: Client, a: Action)
    requires Idle(s) && Enabled(s, c, a)
    ensures Idle(Do(s, c, a))
  {
  }

  lemma RegistryPreserved(s: State, c: Client, a: Action)
    requires Registry(s) && Idle(s) && Enabled(s, c, a)
    ensures Registry(Do(s, c, a)) && Idle(Do(s, c, a))
  {
    hide Registry, Idle, Do, Enabled;
    IdlePreserved(s, c, a);
    match a
    case Subscribe(t) => RegistryAfterSubscribe(s, c, t);
    case Unsubscribe(t) => RegistryAfterUnsubscribe(s, c, t);
    case Publish(failure) => RegistryAfterPublish(s, c, failure);
    case Cleanup => RegistryAfterCleanup(s, c);
    case _ => RegistryUnaffected(s, c, a);
  }

  // ---------------------------------------------------------------- output

  /** How often `c` occurs in a list. */
  function Count(list: seq<Client>, c: Client): nat {
    if list == [] then 0
    else Count(list[..|list| - 1], c) + if list[|list| - 1] == c then 1 else 0
  }

  function Copies<T>(n: nat, x: T): seq<T> {
    seq(n, _ => x)
  }

  /** The part of the log that `c` gets: each entry as often as `c` occurs in its written part. */
  function Share(log: seq<Entry>, c: Client): seq<seq<byte>> {
    if log == [] then []
    else
      var e := log[|log| - 1];
      Share(log[..|log| - 1], c) + Copies(Count(e.written, c), PublishPacket(e.topic, e.message))
  }

  ghost predicate Shared(s: State) {
    forall c :: Out(s, c) == Share(s.log, c)
  }

  lemma {:induction false} DeliverCopies(output: map<Client, seq<seq<byte>>>, written: seq<Client>,
                                         packet: seq<byte>, c: Client)
    ensures var after := Deliver(output, written, packet);
            (if c in after then after[c] else [])
            == (if c in output then output[c] else []) + Copies(Count(written, c), packet)
    decreases |written|
  {
    if written != [] {
      var n := |written| - 1;
      DeliverCopies(output, written[..n], packet, c);
      CopiesSnoc(Count(written[..n], c), packet);
    }
  }

  lemma CopiesSnoc<T>(n: nat, x: T)
    ensures Copies(n + 1, x) == Copies(n, x) + [x]
  {
  }

  lemma SharedPreserved(s: State, c: Client, a: Action)
    requires Shared(s) && Enabled(s, c, a)
    ensures Shared(Do(s, c, a))
  {
    hide PublishPacket;
    var s' := Do(s, c, a);
    if a.Publish? && s.phase[c].topic in s.subscribers {
      var e := s'.log[|s.log|];
      assert s'.log == s.log + [e];
      forall d
        ensures Out(s', d) == Share(s'.log, d)
      {
        assert s'.log[..|s.log|] == s.log;
        DeliverCopies(s.output, e.written, PublishPacket(e.topic, e.message), d);
      }
    }
  }

  // ---------------------------------------------------------------- over whole runs

  lemma {:induction false} Always(run: seq<State>, i: nat)
    requires IsRun(run) && i < |run|
    ensures Registry(run[i]) && Idle(run[i]) && Shared(run[i]) && Bounded(run[i])
  {
    hide Registry, Idle, Shared, Bounded, Do, Enabled;
    if i == 0 {
      AtStart();
    } else {
      Always(run, i - 1);
      var c, a :| Step(run[i - 1], c, a, run[i]);
      RegistryPreserved(run[i - 1], c, a);
      SharedPreserved(run[i - 1], c, a);
      BoundedPreserved(run[i - 1], c, a);
    }
  }

  lemma AtStart()
    ensures Registry(START) && Idle(START) && Shared(START) && Bounded(START)
  {
  }

  /** Whoever is in the index is alive and has the topic; so nobody is left in it once `handleClient`
      has returned, by whatever path. Conversely a live client with the topic is missing only if a
      publish on it has failed since it subscribed. */
  lemma RegistrySafety(run: seq<State>, i: nat, c: Client, t: Topic)
    requires IsRun(run) && i < |run|
    ensures c in Subs(run[i], t) ==> Alive(run[i], c) && t in Topics(run[i], c)
    ensures c in run[i].phase && run[i].phase[c].Gone? ==> c !in Subs(run[i], t)
    ensures Alive(run[i], c) && t in Topics(run[i], c) ==> (c in Subs(run[i], t) <==> (c, t) !in run[i].lost)
  {
    Always(run, i);
  }

  /** Positions in the log of what `c` got, in the order it got it. */
  function Positions(log: seq<Entry>, c: Client): seq<nat> {
    if log == [] then []
    else
      var n := |log| - 1;
      Positions(log[..n], c) + Copies(Count(log[n].written, c), n)
  }

  lemma {:induction false} PositionsMatch(log: seq<Entry>, c: Client)
    ensures |Positions(log, c)| == |Share(log, c)|
    ensures forall k :: 0 <= k < |Positions(log, c)| ==>
              && Positions(log, c)[k] < |log|
              && var e := log[Positions(log, c)[k]]; Share(log, c)[k] == PublishPacket(e.topic, e.message)
    ensures forall j, k :: 0 <= j < k < |Positions(log, c)| ==> Positions(log, c)[j] <= Positions(log, c)[k]
    decreases |log|
  {
    if log != [] {
      PositionsMatch(log[..|log| - 1], c);
    }
  }

  /** Total order: everything `c` gets comes from one global log, in log order; so if `c` sees entry `x`
      before another entry `y`, no client `d` sees `y` before `x`. */
  lemma TotalOrder(run: seq<State>, i: nat, c: Client, d: Client)
    requires IsRun(run) && i < |run|
    ensures Out(run[i], c) == Share(run[i].log, c)
    ensures var p, q := Positions(run[i].log, c), Positions(run[i].log, d);
            && |p| == |Out(run[i], c)|
            && (forall k :: 0 <= k < |p| ==>
                  && p[k] < |run[i].log|
                  && var e := run[i].log[p[k]]; Out(run[i], c)[k] == PublishPacket(e.topic, e.message))
            && forall j, k, j', k' :: 0 <= j < k < |p| && 0 <= j' < k' < |q| && p[j] == q[k'] && p[k] == q[j'] ==> p[j] == p[k]
  {
    Always(run, i);
    PositionsMatch(run[i].log, c);
    PositionsMatch(run[i].log, d);
  }

  // ---------------------------------------------------------------- what a step does to whom

  lemma {:induction false} CountMembers(list: seq<Client>, c: Client)
    ensures Count(list, c) > 0 <==> c in list
  {
    if list != [] {
      CountMembers(list[..|list| - 1], c);
    }
  }

  /** A publish writes its packet to each client once for every time it is listed, in front of the first
      write that fails; a failed write, and nothing else, takes the topic out of the index. */
  lemma PublishReaches(s: State, c: Client, failure: Option<nat>, d: Client)
    requires Enabled(s, c, Publish(failure))
    ensures var topic, message := s.phase[c].topic, s.phase[c].message;
            var list, s' := Subs(s, topic), Do(s, c, Publish(failure));
            && Out(s', d) == Out(s, d)
                + Copies(Count(if failure.Some? then list[..failure.value] else list, d), PublishPacket(topic, message))
            && s'.subscribers == if failure.Some? then s.subscribers - {topic} else s.subscribers
  {
    hide PublishPacket;
    var topic, message := s.phase[c].topic, s.phase[c].message;
    var list := Subs(s, topic);
    DeliverCopies(s.output, if failure.Some? then list[..failure.value] else list, PublishPacket(topic, message), d);
  }

  /** A client that is listed gets every publish that does not fail. */
  lemma ListedGetsIt(s: State, c: Client, d: Client)
    requires Enabled(s, c, Publish(None)) && d in Subs(s, s.phase[c].topic)
    ensures var n, packet := Count(Subs(s, s.phase[c].topic), d), PublishPacket(s.phase[c].topic, s.phase[c].message);
            n > 0 && Out(Do(s, c, Publish(None)), d) == Out(s, d) + Copies(n, packet)
  {
    hide PublishPacket;
    PublishReaches(s, c, None, d);
    CountMembers(Subs(s, s.phase[c].topic), d);
  }

  lemma LogGrows(s: State, c: Client, a: Action)
    requires Enabled(s, c, a)
    ensures s.log <= Do(s, c, a).log && |Do(s, c, a).log| <= |s.log| + 1
    ensures |Do(s, c, a).log| > |s.log| ==> a.Publish?
  {
  }

  /** Every log entry stems from a publish step, and its served part is the topic's list in the state of that
      step: all of it, unless a write failed, and then what stands before that write. */
  lemma {:induction false} EntryIsServed(run: seq<State>, i: nat, k: nat) returns (j: nat, failure: Option<nat>)
    requires IsRun(run) && i < |run| && k < |run[i].log|
    ensures j < i && k == |run[j].log| && Step(run[j], run[i].log[k].publisher, Publish(failure), run[j + 1])
    ensures var e, s := run[i].log[k], run[j];
            && s.phase[e.publisher] == Publishing(e.topic, e.message) && e.topic in s.subscribers
            && e.written == if failure.Some? then s.subscribers[e.topic][..failure.value] else s.subscribers[e.topic]
    decreases i
  {
    hide Do, Enabled;
    if i == 0 {
      NoLog();
    } else {
      var c, a :| Step(run[i - 1], c, a, run[i]);
      LogGrows(run[i - 1], c, a);
      if k < |run[i - 1].log| {
        j, failure := EntryIsServed(run, i - 1, k);
        assert run[i].log[k] == run[i - 1].log[k];
      } else {
        j, failure := i - 1, a.failure;
        assert a == Publish(failure);
        NewEntry(run[j], c, failure);
        assert run[i].log[k].publisher == c && Step(run[j], c, Publish(failure), run[i]);
      }
    }
  }

  lemma NoLog()
    ensures START.log == []
  {
  }

  lemma NewEntry(s: State, c: Client, failure: Option<nat>)
    requires Enabled(s, c, Publish(failure)) && |Do(s, c, Publish(failure)).log| > |s.log|
    ensures var e := Do(s, c, Publish(failure)).log[|s.log|];
            && e.topic in s.subscribers && e.publisher == c && s.phase[c] == Publishing(e.topic, e.message)
            && e.written == if failure.Some? then s.subscribers[e.topic][..failure.value] else s.subscribers[e.topic]
  {
  }

  lemma {:induction false} CountErased(list: seq<Client>, c: Client, d: Client)
    ensures Count(Erase(list, c), d) == if d == c then 0 else Count(list, d)
  {
    if list != [] {
      CountErased(list[1..], c, d);
      CountCons(list[0], list[1..], d);
      assert list == [list[0]] + list[1..];
      if list[0] != c {
        CountCons(list[0], Erase(list[1..], c), d);
      } else {
        assert [] + Erase(list[1..], c) == Erase(list[1..], c);
      }
    }
  }

  lemma {:induction false} CountCons(x: Client, list: seq<Client>, d: Client)
    ensures Count([x] + list, d) == (if x == d then 1 else 0) + Count(list, d)
    decreases |list|
  {
    if list == [] {
      assert [x] + list == [x] && [x][..0] == [];
    } else {
      assert ([x] + list)[..|list|] == [x] + list[..|list| - 1];
      CountCons(x, list[..|list| - 1], d);
    }
  }

  /** How often a client is listed: once more for each SUBSCRIBE, not at all after UNSUBSCRIBE or cleanup;
      other clients and other topics are not concerned. */
  lemma ListingCounts(s: State, c: Client, topic: Topic, d: Client, t: Topic)
    requires IsServed(s, c)
    ensures Count(Subs(Do(s, c, Subscribe(topic)), t), d)
            == Count(Subs(s, t), d) + if d == c && t == topic then 1 else 0
    ensures Count(Subs(Do(s, c, Unsubscribe(topic)), t), d) == if d == c && t == topic then 0 else Count(Subs(s, t), d)
    ensures Count(Subs(Do(s, c, Cleanup), t), d) == if d == c && t in Topics(s, c) then 0 else Count(Subs(s, t), d)
  {
    var list := Subs(s, t);
    CountErased(list, c, d);
    assert (list + [c])[..|list|] == list;
  }

  predicate IsServed(s: State, c: Client) {
    c in s.phase && s.phase[c].Serving?
  }

  /** The position of the first of `n` writes that fails. */
  function FirstFailure(n: nat, accepts: nat -> bool): Option<nat> {
    if n == 0 then None
    else
      var earlier := FirstFailure(n - 1, accepts);
      if earlier.Some? then earlier else if accepts(n - 1) then None else Some(n - 1)
  }

  lemma {:induction false} FirstFailureIs(n: nat, accepts: nat -> bool)
    ensures var f := FirstFailure(n, accepts);
            if f.Some? then f.value < n && !accepts(f.value) && forall j :: 0 <= j < f.value ==> accepts(j)
            else forall j :: 0 <= j < n ==> accepts(j)
  {
    if n > 0 {
      FirstFailureIs(n - 1, accepts);
    }
  }

  lemma {:induction false} FailsFirst(n: nat, accepts: nat -> bool, j: nat)
    requires j < n && FirstFailure(j, accepts).None? && !accepts(j)
    ensures FirstFailure(n, accepts) == Some(j)
    decreases n
  {
    if j + 1 < n {
      FailsFirst(n - 1, accepts, j);
    }
  }

  /** Which writes of the n-th publish succeed. */
  type Reach = nat -> nat -> bool

  // ---------------------------------------------------------------- the critical sections

  /** `output`, `phase`, `log` and `lost` are what the model keeps beside the broker's own fields. */
  class Broker {
    var subscribers: map<Topic, seq<Client>>
    var topics: map<Client, set<Topic>>
    var output: map<Client, seq<seq<byte>>>
    var phase: map<Client, Phase>
    var log: seq<Entry>
    var lost: set<(Client, Topic)>
    const reach: Reach

    function S(): State
      reads this
    {
      State(subscribers, topics, phase, output, log, lost)
    }

    constructor (reach: Reach)
      ensures S() == START && this.reach == reach
    {
      this.reach := reach;
      subscribers, topics, output := map[], map[], map[];
      phase, log, lost := map[], [], {};
    }

    method EraseClient(vec: seq<Client>, c: Client) returns (kept: seq<Client>)
      ensures kept == Erase(vec, c)
    {
      hide Erase;
      kept := [];
      EraseStep(vec, |vec|, c);
      for i := 0 to |vec|
        invariant kept + Erase(vec[i..], c) == Erase(vec, c)
      {
        EraseStep(vec, i, c);
        if vec[i] != c {
          kept := kept + [vec[i]];
        }
      }
    }

    method AddSubscriber(c: Client, topic: Topic)
      requires Enabled(S(), c, Subscribe(topic))
      modifies this
      ensures S() == Do(old(S()), c, Subscribe(topic))
    {
      var vec := if topic in subscribers then subscribers[topic] else [];
      subscribers := subscribers[topic := vec + [c]];
      topics := topics[c := (if c in topics then topics[c] else {}) + {topic}];
      lost := lost - {(c, topic)};
    }

    method RemoveSubscriber(c: Client, topic: Topic)
      requires Enabled(S(), c, Unsubscribe(topic))
      modifies this
      ensures S() == Do(old(S()), c, Unsubscribe(topic))
    {
      topics := topics[c := (if c in topics then topics[c] else {}) - {topic}];
      var vec := if topic in subscribers then subscribers[topic] else [];
      vec := EraseClient(vec, c);
      subscribers := subscribers[topic := vec];
    }

    /** One write to a subscriber's connection: the whole packet, or a failure that leaves nothing. */
    method WriteTo(sub: Client, packet: seq<byte>, ok: bool)
      modifies this`output
      ensures output == if ok then Deliver(old(output), [sub], packet) else old(output)
    {
      if ok {
        output := output[sub := (if sub in output then output[sub] else []) + [packet]];
      }
    }

    /** The inner loop: write to the subscribers in order up to the first failure. */
    method WriteToAll(subs: seq<Client>, packet: seq<byte>, accepts: nat -> bool) returns (failure: Option<nat>)
      modifies this`output
      ensures failure == FirstFailure(|subs|, accepts) && (failure.Some? ==> failure.value < |subs|)
      ensures output == Deliver(old(output), if failure.Some? then subs[..failure.value] else subs, packet)
    {
      for j := 0 to |subs|
        invariant FirstFailure(j, accepts).None?
        invariant output == Deliver(old(output), subs[..j], packet)
      {
        WriteTo(subs[j], packet, accepts(j));
        if !accepts(j) {
          FailsFirst(|subs|, accepts, j);
          return Some(j);
        }
        assert subs[..j + 1][..j] == subs[..j];
      }
      assert subs[..|subs|] == subs;
      failure := None;
    }

    /** The second critical section of `handlePublish`. The results of its writes are `reach(|log|)`. */
    method PublishSection(c: Client, topic: Topic, message: seq<byte>) returns (failure: Option<nat>)
      requires c in phase && phase[c] == Publishing(topic, message)
      modifies this
      ensures failure == FirstFailure(|Subs(old(S()), topic)|, reach(|old(log)|))
      ensures Enabled(old(S()), c, Publish(failure)) && S() == Do(old(S()), c, Publish(failure))
    {
      hide PublishPacket, Deliver;
      var packet := BuildPublish(topic, message);
      failure := None;
      var todo := subscribers.Keys;
      while todo != {}
        invariant failure.Some? ==> failure.value < |Subs(old(S()), topic)|
        invariant topic in todo ==> topic in subscribers && failure.None?
        invariant topic !in todo ==> failure == FirstFailure(|Subs(old(S()), topic)|, reach(|old(log)|))
        invariant S() == if topic in todo then old(S()) else DoPublish(old(S()), c, topic, message, failure)
        decreases todo
      {
        var key :| key in todo;
        todo := todo - {key};
        if key == topic {
          var subs := subscribers[key];
          failure := WriteToAll(subs, packet, reach(|log|));
          if failure.Some? {
            subscribers := subscribers - {key};
            lost := lost + set d | d in phase.Keys :: (d, topic);
          }
          log := log + [Entry(c, topic, message, if failure.Some? then subs[..failure.value] else subs)];
        }
      }
      phase := phase[c := Serving];
    }

    /** `cleanupClient`. */
    method CleanupClient(c: Client)
      requires Enabled(S(), c, Cleanup)
      modifies this
      ensures S() == Do(old(S()), c, Cleanup)
    {
      hide Erase, EraseFrom;
      var mine := if c in topics then topics[c] else {};
      EraseFromNothing(subscribers, c);
      var todo := mine;
      assert mine - todo == {};
      while todo != {}
        invariant todo <= mine
        invariant subscribers == EraseFrom(old(subscribers), mine - todo, c)
        invariant unchanged(`topics) && unchanged(`output) && unchanged(`phase) && unchanged(`log) && unchanged(`lost)
        decreases todo
      {
        var topic :| topic in todo;
        EraseFromStep(old(subscribers), mine - todo, topic, c);
        assert mine - (todo - {topic}) == mine - todo + {topic};
        var vec := if topic in subscribers then subscribers[topic] else [];
        vec := EraseClient(vec, c);
        subscribers := subscribers[topic := vec];
        todo := todo - {topic};
      }
      assert mine - todo == mine;
      phase := phase[c := Gone];
    }
  }
}
