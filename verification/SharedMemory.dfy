/** The shared-memory connection: four semaphores, two one-message buffers, and any number of threads on
    either side. A step is one semaphore operation, one access to the shared size, or the copy of one
    byte; `memcpy` may copy in any order. */
module SharedMemory {
  import opened Bytes

  /** A thread of the server or the client process. */
  datatype Thread = Thread(server: bool, id: nat)

  datatype Sent = Sent(thread: Thread, message: seq<byte>)

  /** A finished read: the bytes put into the caller's buffer of `capacity`, or the message that did not
      fit (the caller gets -1). */
  datatype Read = Returned(thread: Thread, capacity: nat, message: seq<byte>)
                | Dropped(thread: Thread, capacity: nat, message: seq<byte>)

  /** Where a thread stands between taking one token and posting the other. */
  datatype At =
    | WriteReady(data: seq<byte>)
    | Storing(data: seq<byte>, done: set<nat>)          // size stored, and the bytes at `done`
    | ReadReady(capacity: nat)
    | Loading(size: nat, capacity: nat, got: map<nat, byte>)  // the size read fits
    | Releasing(result: Read)

  /** One direction. `inside` are the threads between the two semaphore operations of a call; `sent` and
      `taken` log finished writes and reads; `pending` is the written message not yet read. */
  datatype Channel = Channel(
    writeSem: nat,
    readSem: nat,
    size: nat,
    data: seq<byte>,
    inside: map<Thread, At>,
    sent: seq<Sent>,
    taken: seq<Read>,
    pending: seq<seq<byte>>)

  function Fresh(data: seq<byte>): Channel {
    Channel(1, 0, 0, data, map[], [], [], [])
  }

  // ---------------------------------------------------------------- steps

  datatype Action =
    | WriteWait(data: seq<byte>) | StoreSize | StoreByte(i: nat) | WritePost
    | ReadWait(capacity: nat) | LoadSize | LoadByte(i: nat) | ClearSize | ReadPost

  predicate IsWrite(a: Action) {
    a.WriteWait? || a.StoreSize? || a.StoreByte? || a.WritePost?
  }

  predicate Enabled(c: Channel, t: Thread, a: Action) {
    match a
    case WriteWait(data) => t !in c.inside && c.writeSem > 0 && 0 < |data| <= |c.data|
    case StoreSize => t in c.inside && c.inside[t].WriteReady?
    case StoreByte(i) => t in c.inside && c.inside[t].Storing? && i < |c.inside[t].data| && i < |c.data| && i !in c.inside[t].done
    case WritePost => t in c.inside && c.inside[t].Storing? && forall i :: 0 <= i < |c.inside[t].data| ==> i in c.inside[t].done
    case ReadWait(capacity) => t !in c.inside && c.readSem > 0 && capacity > 0
    case LoadSize => t in c.inside && c.inside[t].ReadReady?
    case LoadByte(i) => t in c.inside && c.inside[t].Loading? && i < c.inside[t].size && i < |c.data| && i !in c.inside[t].got
    case ClearSize => t in c.inside && c.inside[t].Loading? && forall i :: 0 <= i < c.inside[t].size ==> i in c.inside[t].got
    case ReadPost => t in c.inside && c.inside[t].Releasing?
  }

  function Buffer(n: nat, got: map<nat, byte>): seq<byte>
    requires forall i :: 0 <= i < n ==> i in got
  {
    seq(n, i requires 0 <= i < n => got[i])
  }

  function Do(c: Channel, t: Thread, a: Action): Channel
    requires Enabled(c, t, a)
  {
    match a
    case WriteWait(data) => c.(writeSem := c.writeSem - 1, inside := c.inside[t := WriteReady(data)])
    case StoreSize =>
      var d := c.inside[t].data;
      c.(size := |d|, inside := c.inside[t := Storing(d, {})])
    case StoreByte(i) =>
      var at := c.inside[t];
      c.(data := c.data[i := at.data[i]], inside := c.inside[t := Storing(at.data, at.done + {i})])
    case WritePost =>
      var d := c.inside[t].data;
      c.(readSem := c.readSem + 1, inside := c.inside - {t}, sent := c.sent + [Sent(t, d)], pending := c.pending + [d])
    case ReadWait(capacity) => c.(readSem := c.readSem - 1, inside := c.inside[t := ReadReady(capacity)])
    case LoadSize =>
      var capacity := c.inside[t].capacity;
      c.(inside := c.inside[t := if c.size > capacity then Releasing(Dropped(t, capacity, c.data[..Min(c.size, |c.data|)]))
                                 else Loading(c.size, capacity, map[])])
    case LoadByte(i) =>
      var at := c.inside[t];
      c.(inside := c.inside[t := at.(got := at.got[i := c.data[i]])])
    case ClearSize =>
      var at := c.inside[t];
      c.(size := 0, inside := c.inside[t := Releasing(Returned(t, at.capacity, Buffer(at.size, at.got)))])
    case ReadPost =>
      c.(writeSem := c.writeSem + 1, inside := c.inside - {t}, taken := c.taken + [c.inside[t].result],
         pending := if c.pending == [] then [] else c.pending[1..])
  }

  // ---------------------------------------------------------------- invariant

  function Messages(taken: seq<Read>): seq<seq<byte>> {
    seq(|taken|, i requires 0 <= i < |taken| => taken[i].message)
  }

  function Written(sent: seq<Sent>): seq<seq<byte>> {
    seq(|sent|, i requires 0 <= i < |sent| => sent[i].message)
  }

  /** What a read says about its message. */
  predicate Honest(r: Read) {
    if r.Returned? then |r.message| <= r.capacity else |r.message| > r.capacity
  }

  predicate AtInv(c: Channel, t: Thread, at: At) {
    match at
    case WriteReady(d) => 0 < |d| <= |c.data| && c.pending == []
    case Storing(d, done) =>
      && c.size == |d| && 0 < |d| <= |c.data| && c.pending == []
      && forall i :: i in done ==> i < |d| && c.data[i] == d[i]
    case ReadReady(_) => c.size <= |c.data| && c.pending == [c.data[..c.size]]
    case Loading(size, capacity, got) =>
      && size == c.size <= |c.data| && c.pending == [c.data[..c.size]] && c.size <= capacity
      && forall i :: i in got ==> i < c.size && got[i] == c.data[i]
    case Releasing(r) => c.pending == [r.message] && Honest(r) && r.thread == t
  }

  /** Token conservation, the content of the slot, and the two logs. */
  predicate Inv(c: Channel) {
    && c.writeSem + c.readSem + |c.inside| == 1
    && c.size <= |c.data|
    && (c.writeSem > 0 ==> c.pending == [])
    && (c.readSem > 0 ==> c.pending == [c.data[..c.size]])
    && (forall t :: t in c.inside ==> AtInv(c, t, c.inside[t]))
    && (forall i :: 0 <= i < |c.taken| ==> Honest(c.taken[i]))
    && Messages(c.taken) + c.pending == Written(c.sent)
  }

  /** Mutual exclusion: whoever is inside is alone. */
  lemma Alone(c: Channel, t: Thread)
    requires Inv(c) && t in c.inside
    ensures c.inside == map[t := c.inside[t]] && c.writeSem == 0 && c.readSem == 0
  {
    assert |c.inside| >= 1 by {
      assert c.inside == (c.inside - {t})[t := c.inside[t]];
    }
    assert |c.inside - {t}| == 0 by {
      assert |c.inside.Keys - {t}| == |c.inside.Keys| - 1;
      assert (c.inside - {t}).Keys == c.inside.Keys - {t};
    }
    assert c.inside - {t} == map[];
  }

  lemma NoOne(c: Channel)
    requires Inv(c) && c.writeSem + c.readSem > 0
    ensures c.inside == map[] && c.writeSem + c.readSem == 1
  {
    assert |c.inside| == 0;
  }

  lemma PreservedByWrite(c: Channel, t: Thread, a: Action)
    requires Inv(c) && IsWrite(a) && Enabled(c, t, a)
    ensures Inv(Do(c, t, a))
  {
    var c' := Do(c, t, a);
    match a
    case WriteWait(data) =>
      NoOne(c);
      assert c'.inside == map[t := WriteReady(data)];
    case StoreSize => Alone(c, t);
    case StoreByte(i) => Alone(c, t);
    case WritePost =>
      Alone(c, t);
      assert c'.inside == map[];
      var d := c.inside[t].data;
      assert c.data[..c.size] == d;
      assert Written(c'.sent) == Written(c.sent) + [d];
  }

  lemma PreservedByRead(c: Channel, t: Thread, a: Action)
    requires Inv(c) && !IsWrite(a) && Enabled(c, t, a)
    ensures Inv(Do(c, t, a))
  {
    var c' := Do(c, t, a);
    match a
    case ReadWait(capacity) =>
      NoOne(c);
      assert c'.inside == map[t := ReadReady(capacity)];
    case LoadSize => Alone(c, t);
    case LoadByte(i) => Alone(c, t);
    case ClearSize =>
      Alone(c, t);
      assert Buffer(c.inside[t].size, c.inside[t].got) == c.data[..c.size];
    case ReadPost =>
      Alone(c, t);
      assert c'.inside == map[];
      var r := c.inside[t].result;
      assert c'.pending == [];
      assert Messages(c'.taken) == Messages(c.taken) + [r.message];
  }

  // ---------------------------------------------------------------- the two directions

  /** Buffer A is written by the server and read by the client, buffer B the other way round. */
  datatype System = System(a: Channel, b: Channel)

  predicate UsesA(t: Thread, action: Action) {
    t.server == IsWrite(action)
  }

  ghost predicate Next(s: System, s': System) {
    exists t, action :: Steps(s, t, action, s')
  }

  predicate Steps(s: System, t: Thread, action: Action, s': System) {
    if UsesA(t, action) then Enabled(s.a, t, action) && s' == s.(a := Do(s.a, t, action))
    else Enabled(s.b, t, action) && s' == s.(b := Do(s.b, t, action))
  }

  ghost predicate IsRun(run: seq<System>) {
    && run != []
    && (exists x, y :: run[0] == System(Fresh(x), Fresh(y)))
    && forall i :: 0 < i < |run| ==> Next(run[i - 1], run[i])
  }

  /** Only one side writes, only the other side reads. */
  predicate OneWay(c: Channel, server: bool) {
    && (forall i :: 0 <= i < |c.sent| ==> c.sent[i].thread.server == server)
    && (forall i :: 0 <= i < |c.taken| ==> c.taken[i].thread.server != server)
    && (forall t :: t in c.inside ==> (t.server == server <==> c.inside[t].WriteReady? || c.inside[t].Storing?))
  }

  predicate SystemInv(s: System) {
    Inv(s.a) && Inv(s.b) && OneWay(s.a, true) && OneWay(s.b, false)
  }

  lemma PreservedOneWay(c: Channel, t: Thread, action: Action, server: bool)
    requires Inv(c) && OneWay(c, server) && Enabled(c, t, action) && (t.server == server <==> IsWrite(action))
    ensures OneWay(Do(c, t, action), server)
  {
  }

  lemma PreservedByStep(s: System, t: Thread, action: Action, s': System)
    requires SystemInv(s) && Steps(s, t, action, s')
    ensures SystemInv(s')
  {
    hide Inv, OneWay, Do, Enabled;
    var c, server := if UsesA(t, action) then s.a else s.b, UsesA(t, action);
    PreservedOneWay(c, t, action, server);
    if IsWrite(action) {
      PreservedByWrite(c, t, action);
    } else {
      PreservedByRead(c, t, action);
    }
  }

  lemma FreshInv(x: seq<byte>, y: seq<byte>)
    ensures SystemInv(System(Fresh(x), Fresh(y)))
  {
  }

  lemma {:induction false} Always(run: seq<System>, i: nat)
    requires IsRun(run) && i < |run|
    ensures SystemInv(run[i])
  {
    hide SystemInv, Steps;
    if i == 0 {
      var x, y :| run[0] == System(Fresh(x), Fresh(y));
      FreshInv(x, y);
    } else {
      Always(run, i - 1);
      var t, action :| Steps(run[i - 1], t, action, run[i]);
      PreservedByStep(run[i - 1], t, action, run[i]);
    }
  }

  // ---------------------------------------------------------------- results

  /** In each direction there is one token: held by a semaphore or by the one thread inside. */
  lemma TokenConservation(run: seq<System>, i: nat)
    requires IsRun(run) && i < |run|
    ensures run[i].a.writeSem + run[i].a.readSem + |run[i].a.inside| == 1
    ensures run[i].b.writeSem + run[i].b.readSem + |run[i].b.inside| == 1
  {
    Always(run, i);
  }

  /** The finished reads are the finished writes, whole and in order, with at most one message still in
      the slot; a read hands its message over if and only if it fits the buffer it was given. */
  predicate Fifo(c: Channel, fromServer: bool) {
    && |c.taken| <= |c.sent| <= |c.taken| + 1
    && forall k :: 0 <= k < |c.taken| ==>
         var w, r := c.sent[k], c.taken[k];
         && r.message == w.message
         && (r.Returned? <==> |w.message| <= r.capacity)
         && w.thread.server == fromServer && r.thread.server != fromServer
  }

  lemma NoTearingAndFifo(run: seq<System>, i: nat)
    requires IsRun(run) && i < |run|
    ensures Fifo(run[i].a, true) && Fifo(run[i].b, false)
  {
    Always(run, i);
    ChannelFifo(run[i].a, true);
    ChannelFifo(run[i].b, false);
  }

  lemma ChannelFifo(c: Channel, server: bool)
    requires Inv(c) && OneWay(c, server)
    ensures Fifo(c, server)
  {
    assert |c.pending| <= 1 by {
      if c.writeSem == 0 && c.readSem == 0 {
        var t :| t in c.inside;
        assert AtInv(c, t, c.inside[t]);
      }
    }
    forall k | 0 <= k < |c.taken|
      ensures c.taken[k].message == c.sent[k].message
    {
      assert Written(c.sent)[k] == Messages(c.taken)[k];
    }
  }

  function DirectionOf(s: System, a: bool): Channel {
    if a then s.a else s.b
  }

  /** No state of the system is stuck in either direction: on an empty slot a thread of the writing side can
      begin with any message that fits, on a full one a thread of the reading side with any buffer, and a
      thread in between can go on. */
  lemma DirectionCanMove(s: System, a: bool, message: seq<byte>, capacity: nat)
    returns (t: Thread, action: Action, s': System)
    requires SystemInv(s) && 0 < |message| <= |DirectionOf(s, a).data| && capacity > 0
    ensures Steps(s, t, action, s') && UsesA(t, action) == a && (t.server == (a == IsWrite(action)))
    ensures DirectionOf(s, a).writeSem > 0 ==> action == WriteWait(message)
    ensures DirectionOf(s, a).readSem > 0 ==> action == ReadWait(capacity)
  {
    var c := DirectionOf(s, a);
    if c.writeSem > 0 {
      NoOne(c);
      t, action := Thread(a, 0), WriteWait(message);
    } else if c.readSem > 0 {
      NoOne(c);
      t, action := Thread(!a, 0), ReadWait(capacity);
    } else {
      t, action := SomeoneInside(c, a);
    }
    s' := if a then s.(a := Do(s.a, t, action)) else s.(b := Do(s.b, t, action));
  }

  lemma SomeoneInside(c: Channel, server: bool) returns (t: Thread, action: Action)
    requires Inv(c) && OneWay(c, server) && c.writeSem == 0 && c.readSem == 0
    ensures Enabled(c, t, action) && (t.server == server <==> IsWrite(action))
  {
    t :| t in c.inside;
    Alone(c, t);
    match c.inside[t]
    case WriteReady(_) => action := StoreSize;
    case Storing(d, done) =>
      if i :| 0 <= i < |d| && i !in done {
        action := StoreByte(i);
      } else {
        action := WritePost;
      }
    case ReadReady(_) => action := LoadSize;
    case Loading(_, _, got) =>
      if i :| 0 <= i < c.size && i !in got {
        action := LoadByte(i);
      } else {
        action := ClearSize;
      }
    case Releasing(_) => action := ReadPost;
  }
}
