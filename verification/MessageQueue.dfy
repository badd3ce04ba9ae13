/** The adapter that lets the broker read a byte stream from WebSocket messages: a queue filled by the
    receive thread and emptied, split and refilled at the front by `read`. */
module MessageQueue {
  import opened Bytes

  // ---------------------------------------------------------------- one read

  function TakeFront(queue: seq<seq<byte>>, size: nat): seq<byte>
    requires queue != []
  {
    queue[0][..Min(size, |queue[0]|)]
  }

  /** The remainder of a message that does not fit goes back to the front. */
  function AfterTake(queue: seq<seq<byte>>, size: nat): seq<seq<byte>>
    requires queue != []
  {
    var n := Min(size, |queue[0]|);
    (if n < |queue[0]| then [queue[0][n..]] else []) + queue[1..]
  }

  /** A read loses no byte and changes no order. */
  lemma TakeConserves(queue: seq<seq<byte>>, size: nat)
    requires queue != []
    ensures TakeFront(queue, size) + Concat(AfterTake(queue, size)) == Concat(queue)
  {
    var n := Min(size, |queue[0]|);
    var rest := AfterTake(queue, size);
    assert queue[0] == queue[0][..n] + queue[0][n..];
    if n < |queue[0]| {
      assert rest[1..] == queue[1..];
    } else {
      assert rest == queue[1..];
    }
  }

  /** A read of positive size returns 0, which callers take for the end, exactly on an empty message. */
  lemma ZeroExactly(queue: seq<seq<byte>>, size: nat)
    requires queue != [] && size > 0
    ensures TakeFront(queue, size) == [] <==> queue[0] == []
    ensures queue[0] == [] ==> AfterTake(queue, size) == queue[1..]
  {
  }

  // ---------------------------------------------------------------- all interleavings

  /** `pushed` and `returned` are all bytes put in and handed out so far. */
  datatype State = State(queue: seq<seq<byte>>, closed: bool, pushed: seq<byte>, returned: seq<byte>, ended: bool)

  const START := State([], false, [], [], false)

  datatype Action = Push(message: seq<byte>) | Close | Read(size: nat)

  /** `read` waits while the queue is open and empty; `ended` records that it has returned -1. */
  predicate Enabled(s: State, a: Action) {
    a.Read? ==> s.closed || s.queue != []
  }

  function Do(s: State, a: Action): State
    requires Enabled(s, a)
  {
    match a
    case Push(m) => s.(queue := s.queue + [m], pushed := s.pushed + m)
    case Close => s.(closed := true)
    case Read(size) =>
      if s.queue == [] then s.(ended := true)
      else s.(queue := AfterTake(s.queue, size), returned := s.returned + TakeFront(s.queue, size))
  }

  predicate Step(s: State, a: Action, s': State) {
    Enabled(s, a) && s' == Do(s, a)
  }

  ghost predicate Next(s: State, s': State) {
    exists a :: Step(s, a, s')
  }

  ghost predicate IsRun(run: seq<State>) {
    && run != [] && run[0] == START
    && forall i :: 0 < i < |run| ==> Next(run[i - 1], run[i])
  }

  lemma StepConserves(s: State, a: Action)
    requires Enabled(s, a) && s.returned + Concat(s.queue) == s.pushed
    ensures var s' := Do(s, a); s'.returned + Concat(s'.queue) == s'.pushed
  {
    match a
    case Push(m) => ConcatSnoc(s.queue, m);
    case Close =>
    case Read(size) =>
      if s.queue != [] {
        TakeConserves(s.queue, size);
      }
  }

  /** Bytes returned followed by bytes queued are all bytes pushed, in order; -1 only after close. */
  lemma {:induction false} QueueIsStream(run: seq<State>, i: nat)
    requires IsRun(run) && i < |run|
    ensures run[i].returned + Concat(run[i].queue) == run[i].pushed
    ensures run[i].ended ==> run[i].closed
  {
    if i > 0 {
      QueueIsStream(run, i - 1);
      var a :| Step(run[i - 1], a, run[i]);
      StepConserves(run[i - 1], a);
    }
  }

  /** Whenever a read returns -1, the first time or later, the queue is closed and everything pushed so far
      has been returned. */
  lemma EndMeansDrained(run: seq<State>, i: nat, size: nat)
    requires IsRun(run) && 0 < i < |run|
    requires Step(run[i - 1], Read(size), run[i]) && run[i - 1].queue == []
    ensures run[i].ended && run[i].closed && run[i].returned == run[i].pushed
  {
    QueueIsStream(run, i);
  }

  // ---------------------------------------------------------------- readExact

  /** What `readExact` does with the messages it finds and those that arrive while it waits, in the order
      they were pushed: the bytes it hands out and the messages it leaves. A read of 0 bytes, like the end,
      makes it give up. */
  datatype Exact = Exact(ok: bool, data: seq<byte>, rest: seq<seq<byte>>)

  function ReadingExact(queue: seq<seq<byte>>, size: nat): Exact
    decreases size
  {
    if size == 0 then Exact(true, [], queue)
    else if queue == [] then Exact(false, [], [])
    else if queue[0] == [] then Exact(false, [], queue[1..])
    else Prepend(TakeFront(queue, size), ReadingExact(AfterTake(queue, size), size - |TakeFront(queue, size)|))
  }

  function Prepend(data: seq<byte>, x: Exact): Exact {
    x.(data := data + x.data)
  }

  /** The bytes that stand before the first empty message. */
  function BeforeEmpty(queue: seq<seq<byte>>): seq<byte> {
    if queue == [] || queue[0] == [] then [] else queue[0] + BeforeEmpty(queue[1..])
  }

  lemma BeforeEmptyCons(msg: seq<byte>, others: seq<seq<byte>>)
    requires msg != []
    ensures BeforeEmpty([msg] + others) == msg + BeforeEmpty(others)
  {
    assert ([msg] + others)[1..] == others;
  }

  lemma TakeBeforeEmpty(queue: seq<seq<byte>>, size: nat)
    requires queue != [] && queue[0] != [] && size > 0
    ensures BeforeEmpty(queue) == TakeFront(queue, size) + BeforeEmpty(AfterTake(queue, size))
  {
    hide BeforeEmpty;
    var n, msg, others := Min(size, |queue[0]|), queue[0], queue[1..];
    assert queue == [msg] + others;
    BeforeEmptyCons(msg, others);
    if n < |msg| {
      BeforeEmptyCons(msg[n..], others);
    } else {
      assert AfterTake(queue, size) == others && msg[..n] == msg;
    }
  }

  lemma PrefixOfSum<T>(front: seq<T>, tail: seq<T>, size: nat, after: seq<T>)
    requires |front| <= size <= |front| + |tail|
    ensures (front + tail)[..size] == front + tail[..size - |front|]
    ensures front + tail[..size - |front|] + after == front + (tail[..size - |front|] + after)
  {
  }

  /** `readExact` succeeds if and only if the bytes asked for stand before the first empty message, and then
      hands out exactly the next ones. */
  lemma {:induction false} ExactSucceedsExactly(queue: seq<seq<byte>>, size: nat)
    ensures ReadingExact(queue, size).ok <==> size <= |BeforeEmpty(queue)|
    ensures ReadingExact(queue, size).ok ==>
              && ReadingExact(queue, size).data == BeforeEmpty(queue)[..size]
              && BeforeEmpty(queue)[..size] + Concat(ReadingExact(queue, size).rest) == Concat(queue)
    decreases size
  {
    if size > 0 && queue != [] && queue[0] != [] {
      var front, rest := TakeFront(queue, size), AfterTake(queue, size);
      hide ReadingExact, BeforeEmpty, TakeFront, AfterTake, Concat;
      OneTake(queue, size);
      TakeBeforeEmpty(queue, size);
      TakeConserves(queue, size);
      ExactSucceedsExactly(rest, size - |front|);
      var x := ReadingExact(rest, size - |front|);
      if x.ok {
        PrefixOfSum(front, BeforeEmpty(rest), size, Concat(x.rest));
      }
    }
  }

  /** A byte is queued, one is asked for, and `readExact` fails. */
  lemma EmptyMessageFails(x: byte)
    ensures Concat([[], [x]]) == [x] && !ReadingExact([[], [x]], 1).ok
  {
    ExactSucceedsExactly([[], [x]], 1);
    assert [[], [x]][1..] == [[x]];
    assert Concat([[x]]) == [x] + Concat([]);
  }

  /** The front of a queue does not depend on what is pushed behind it. */
  lemma TakeAhead(queue: seq<seq<byte>>, more: seq<seq<byte>>, size: nat)
    requires queue != []
    ensures TakeFront(queue + more, size) == TakeFront(queue, size)
    ensures AfterTake(queue + more, size) == AfterTake(queue, size) + more
  {
    assert (queue + more)[1..] == queue[1..] + more;
  }

  /** After `data` has been read off `before`, the rest of the call works on `queue`, whatever arrives. */
  ghost predicate Continues(before: seq<seq<byte>>, data: seq<byte>, queue: seq<seq<byte>>, size: nat) {
    |data| <= size
    && forall more :: ReadingExact(before + more, size) == Prepend(data, ReadingExact(queue + more, size - |data|))
  }

  lemma ContinuesAfterArrival(before: seq<seq<byte>>, data: seq<byte>, queue: seq<seq<byte>>, size: nat,
                              arrived: seq<seq<byte>>)
    requires Continues(before, data, queue, size)
    ensures Continues(before + arrived, data, queue + arrived, size)
  {
    hide ReadingExact;
    forall more
      ensures ReadingExact(before + arrived + more, size)
              == Prepend(data, ReadingExact(queue + arrived + more, size - |data|))
    {
      assert before + arrived + more == before + (arrived + more);
      assert queue + arrived + more == queue + (arrived + more);
    }
  }

  lemma ContinuesAfterTake(before: seq<seq<byte>>, data: seq<byte>, queue: seq<seq<byte>>, size: nat)
    requires Continues(before, data, queue, size) && |data| < size
    requires queue != [] && queue[0] != []
    ensures var n := size - |data|;
            Continues(before, data + TakeFront(queue, n), AfterTake(queue, n), size)
  {
    hide ReadingExact, TakeFront, AfterTake;
    var n := size - |data|;
    var front := TakeFront(queue, n);
    TakesSome(queue, n);
    forall more
      ensures ReadingExact(before + more, size)
              == Prepend(data + front, ReadingExact(AfterTake(queue, n) + more, size - |data + front|))
    {
      TakeAhead(queue, more, n);
      OneTake(queue + more, n);
      var x := ReadingExact(AfterTake(queue, n) + more, n - |front|);
      assert (data + front) + x.data == data + (front + x.data);
    }
  }

  lemma OneTake(queue: seq<seq<byte>>, size: nat)
    requires size > 0 && queue != [] && queue[0] != []
    ensures |TakeFront(queue, size)| <= size
    ensures ReadingExact(queue, size)
            == Prepend(TakeFront(queue, size), ReadingExact(AfterTake(queue, size), size - |TakeFront(queue, size)|))
  {
    hide AfterTake;
  }

  lemma NothingRead(queue: seq<seq<byte>>, size: nat)
    ensures Continues(queue, [], queue, size)
  {
    hide ReadingExact;
    forall more
      ensures ReadingExact(queue + more, size) == Prepend([], ReadingExact(queue + more, size - 0))
    {
      assert [] + ReadingExact(queue + more, size).data == ReadingExact(queue + more, size).data;
    }
  }

  lemma GivesUp(before: seq<seq<byte>>, data: seq<byte>, queue: seq<seq<byte>>, size: nat)
    requires Continues(before, data, queue, size) && |data| < size && (queue == [] || queue[0] == [])
    ensures ReadingExact(before, size) == Exact(false, data, if queue == [] then [] else queue[1..])
  {
    assert before + [] == before && queue + [] == queue && data + [] == data;
  }

  lemma AllRead(before: seq<seq<byte>>, data: seq<byte>, queue: seq<seq<byte>>, size: nat)
    requires Continues(before, data, queue, size) && |data| == size
    ensures ReadingExact(before, size) == Exact(true, data, queue)
  {
    assert before + [] == before && queue + [] == queue && data + [] == data;
  }

  /** A read of positive size that returns bytes met a message with bytes, and adds no empty one. */
  lemma TakesSome(queue: seq<seq<byte>>, size: nat)
    requires queue != [] && size > 0
    ensures |TakeFront(queue, size)| <= size && (TakeFront(queue, size) != [] <==> queue[0] != [])
    ensures queue[0] == [] ==> AfterTake(queue, size) == queue[1..]
    ensures queue[0] != [] && [] in AfterTake(queue, size) ==> [] in queue
  {
  }

  // ---------------------------------------------------------------- the object

  class WsWrapper {
    var queue: seq<seq<byte>>
    var closed: bool
    ghost var pushed: seq<byte>
    ghost var returned: seq<byte>

    ghost predicate Valid()
      reads this
    {
      returned + Concat(queue) == pushed
    }

    constructor ()
      ensures Valid() && queue == [] && !closed && pushed == returned == []
    {
      queue, closed := [], false;
      pushed, returned := [], [];
    }

    method PushBack(msg: seq<byte>)
      requires Valid()
      modifies this
      ensures Valid() && queue == old(queue) + [msg] && pushed == old(pushed) + msg
      ensures returned == old(returned) && closed == old(closed)
    {
      ConcatSnoc(queue, msg);
      queue := queue + [msg];
      pushed := pushed + msg;
    }

    method Close()
      requires Valid()
      modifies this`closed
      ensures Valid() && closed
    {
      closed := true;
    }

    /** The wait on the condition variable: other threads push any messages and may close, until there is
        something to read. */
    method Wait() returns (ghost arrived: seq<seq<byte>>)
      requires Valid()
      modifies this
      ensures Valid() && returned == old(returned) && (closed || queue != [])
      ensures queue == old(queue) + arrived && (old(closed) ==> closed)
    {
      arrived := [];
      while !closed && queue == []
        invariant Valid() && returned == old(returned)
        invariant queue == old(queue) + arrived && (old(closed) ==> closed)
        decreases if closed || queue != [] then 0 else 1
      {
        var message: seq<byte> := *;
        var closes: bool := *;
        if closes {
          Close();
        } else {
          PushBack(message);
          arrived := arrived + [message];
        }
      }
    }

    /** `read`: -1, or the number of bytes copied to the caller's buffer. */
    method Read(size: nat) returns (n: int, data: seq<byte>, ghost arrived: seq<seq<byte>>)
      requires Valid()
      modifies this
      ensures Valid() && returned == old(returned) + data && (old(closed) ==> closed)
      ensures var found := old(queue) + arrived;
              if found == [] then n == -1 && data == [] && closed && queue == [] && returned == pushed
              else n == |data| && data == TakeFront(found, size) && queue == AfterTake(found, size)
    {
      arrived := Wait();
      if queue == [] {
        return -1, [], arrived;
      }
      TakeConserves(queue, size);
      var msg := queue[0];
      queue := queue[1..];
      var toCopy := Min(size, |msg|);
      data := msg[..toCopy];
      if toCopy < |msg| {
        queue := [msg[toCopy..]] + queue;
      }
      assert queue == AfterTake(old(queue) + arrived, size);
      returned := returned + data;
      n := toCopy;
    }

    /** `readExact` on top of it, for everything that arrives while it waits. Without empty messages a
        failure means closed and drained. */
    method ReadExact(size: nat) returns (ok: bool, data: seq<byte>, ghost arrived: seq<seq<byte>>)
      requires Valid()
      modifies this
      ensures Valid() && returned == old(returned) + data
      ensures Exact(ok, data, queue) == ReadingExact(old(queue) + arrived, size)
      ensures !ok && [] !in old(queue) + arrived ==> closed && queue == [] && returned == pushed
    {
      hide Continues, TakeFront, AfterTake, ReadingExact;
      data, arrived := [], [];
      NothingRead(queue, size);
      assert old(queue) + arrived == old(queue);
      while |data| < size
        invariant Valid() && returned == old(returned) + data && |data| <= size
        invariant Continues(old(queue) + arrived, data, queue, size)
        invariant [] in queue ==> [] in old(queue) + arrived
        decreases size - |data|
      {
        ghost var before := queue;
        var n, piece;
        ghost var more;
        n, piece, more := Read(size - |data|);
        ghost var found := before + more;
        ContinuesAfterArrival(old(queue) + arrived, data, before, size, more);
        assert old(queue) + arrived + more == old(queue) + (arrived + more);
        arrived := arrived + more;
        if found != [] {
          TakesSome(found, size - |data|);
        }
        if n <= 0 {
          GivesUp(old(queue) + arrived, data, found, size);
          data := data + piece;
          return false, data, arrived;
        }
        ContinuesAfterTake(old(queue) + arrived, data, found, size);
        data := data + piece;
      }
      AllRead(old(queue) + arrived, data, queue, size);
      ok := true;
    }
  }
}
