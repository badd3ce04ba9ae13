/** Closing a WebSocket connection: the receive thread and the owning thread race through `close`, and
    the destructor follows. One step is one atomic action of one of the two threads, or the arrival of
    bytes or of the end of the stream from the peer. */
module WebSocketClose {

  datatype Thread = Owner | Listener

  /** Where a thread is inside `close(self)`. */
  datatype Stage =
    | Exchange(self: bool)  // about to run closed_.exchange(true)
    | AcquireTx             // won, wants the write lock for the close frame
    | WriteFrame            // holds it
    | CloseConn
    | JoinTest
    | JoinWait
    | OnClose

  /** The receive thread. `frames` counts the complete frames still to be handled in its buffer.
      `locked`: the caller of `close` holds the write lock until `close` returns. `exits`: `listen` returns
      afterwards; otherwise `close` was called from inside `onMessage`. */
  datatype ListenerAt =
    | NotStarted
    | Check                  // about to test closed_
    | Reading                // blocked in read
    | Handling(frames: nat)
    | WaitTx(frames: nat)
    | Reply(frames: nat)
    | InClose(stage: Stage, locked: bool, exits: bool, frames: nat)
    | Exited

  /** The owner. `Assign`: inside `run`, the thread is running but not yet stored in `thread_`. */
  datatype OwnerAt =
    | Idle
    | Assign
    | Closing(stage: Stage, destroying: bool)
    | DtorTest
    | DtorJoin
    | Destroyed

  datatype State = State(
    closed: bool,
    connOpen: bool,
    joinable: bool,
    tx: set<Thread>,  // who holds the write lock
    listener: ListenerAt,
    owner: OwnerAt,
    onClose: nat,     // calls of the onClose callback so far
    selfClosed: bool, // close(true) won the exchange
    goodbyes: nat)    // close frames that close(true) has written

  const INIT := State(false, true, false, {}, NotStarted, Idle, 0, false, 0)

  /** A thread's next position in `close`, when the stage has one more action before returning. */
  datatype Outcome = Blocked | Goto(stage: Stage, s: State) | Return(s: State)

  /** One action of `close` by thread `t`. */
  function CloseStep(s: State, t: Thread, stage: Stage): Outcome {
    match stage
    case Exchange(self) =>
      if s.closed then Return(s)
      else Goto(if self then AcquireTx else CloseConn, s.(closed := true, selfClosed := self))
    case AcquireTx => if s.tx != {} then Blocked else Goto(WriteFrame, s.(tx := {t}))
    case WriteFrame => Goto(CloseConn, s.(tx := {}, goodbyes := s.goodbyes + 1))
    case CloseConn => Goto(JoinTest, s.(connOpen := false))
    case JoinTest => Goto(if s.joinable && t != Listener then JoinWait else OnClose, s)
    case JoinWait => if s.listener != Exited then Blocked else Goto(OnClose, s.(joinable := false))
    case OnClose => Return(s.(onClose := s.onClose + 1))
  }

  /** The receive thread on its own: a read returns by itself only on a closed connection. A frame is
      handled silently, answered or passed to a callback that sends, or to one that closes; a close frame
      is answered and then closes (`1000`, lock released first), a violation closes with the lock held
      (`1002`). */
  predicate ListenerStep(s: State, s': State) {
    match s.listener
    case Check => s' == s.(listener := if s.closed then Exited else Reading)
    case Reading => !s.connOpen && s' == s.(listener := Exited)
    case Handling(n) =>
      if n == 0 then s' == s.(listener := Check)
      else
        || s' == s.(listener := Handling(n - 1))
        || s' == s.(listener := WaitTx(n - 1))
        || s' == s.(listener := InClose(Exchange(true), false, false, n - 1))
    case WaitTx(n) => s.tx == {} && s' == s.(listener := Reply(n), tx := {Listener})
    case Reply(n) =>
      || s' == s.(listener := Handling(n), tx := {})
      || s' == s.(listener := InClose(Exchange(false), false, true, n), tx := {})
      || s' == s.(listener := InClose(Exchange(false), true, true, n))
    case InClose(stage, locked, exits, n) =>
      (match CloseStep(s, Listener, stage)
       case Blocked => false
       case Goto(stage', after) => s' == after.(listener := InClose(stage', locked, exits, n))
       case Return(after) =>
         s' == after.(listener := if exits then Exited else Handling(n), tx := if locked then {} else after.tx))
    case _ => false
  }

  /** Bytes with any number of complete frames arrive, or the stream ends. */
  predicate PeerStep(s: State, s': State) {
    && s.listener == Reading && s.connOpen
    && (s' == s.(listener := Exited) || (s'.listener.Handling? && s' == s.(listener := s'.listener)))
  }

  predicate OwnerStep(s: State, s': State) {
    match s.owner
    case Idle =>
      || (s.listener == NotStarted && s' == s.(listener := Check, owner := Assign))
      || s' == s.(owner := Closing(Exchange(true), false))
      || s' == s.(owner := Closing(Exchange(true), true))
    case Assign => s' == s.(joinable := true, owner := Idle)
    case Closing(stage, destroying) =>
      (match CloseStep(s, Owner, stage)
       case Blocked => false
       case Goto(stage', after) => s' == after.(owner := Closing(stage', destroying))
       case Return(after) => s' == after.(owner := if destroying then DtorTest else Idle))
    case DtorTest => s' == s.(owner := if s.joinable then DtorJoin else Destroyed)
    case DtorJoin => s.listener == Exited && s' == s.(joinable := false, owner := Destroyed)
    case Destroyed => false
  }

  predicate Next(s: State, s': State) {
    ListenerStep(s, s') || OwnerStep(s, s') || PeerStep(s, s')
  }

  ghost predicate IsRun(run: seq<State>) {
    && run != [] && run[0] == INIT
    && forall i :: 0 < i < |run| ==> Next(run[i - 1], run[i])
  }

  // ---------------------------------------------------------------- invariant

  /** `t` has won the exchange and has not called onClose yet. */
  predicate Winning(s: State, t: Thread) {
    match t
    case Owner => s.owner.Closing? && !s.owner.stage.Exchange?
    case Listener => s.listener.InClose? && !s.listener.stage.Exchange?
  }

  /** `t` has won the exchange and has still to close the connection. */
  predicate WillCloseConn(s: State, t: Thread) {
    Winning(s, t) && (if t == Owner then s.owner.stage else s.listener.stage) in {AcquireTx, WriteFrame, CloseConn}
  }

  /** `t` has won the exchange with `close(true)` and has still to write the close frame. */
  predicate WillWrite(s: State, t: Thread) {
    Winning(s, t) && (if t == Owner then s.owner.stage else s.listener.stage) in {AcquireTx, WriteFrame}
  }

  predicate HoldsTx(s: State, t: Thread) {
    match t
    case Owner => s.owner.Closing? && s.owner.stage.WriteFrame?
    case Listener =>
      s.listener.Reply? || (s.listener.InClose? && (s.listener.locked || s.listener.stage.WriteFrame?))
  }

  predicate Inv(s: State) {
    && (s.onClose == if s.closed && !Winning(s, Owner) && !Winning(s, Listener) then 1 else 0)
    && !(Winning(s, Owner) && Winning(s, Listener))
    && (Winning(s, Owner) || Winning(s, Listener) ==> s.closed)
    && (Owner in s.tx <==> HoldsTx(s, Owner)) && (Listener in s.tx <==> HoldsTx(s, Listener))
    && !(HoldsTx(s, Owner) && HoldsTx(s, Listener))
    && (s.closed && s.connOpen ==> WillCloseConn(s, Owner) || WillCloseConn(s, Listener))
    && (s.listener.InClose? && s.listener.locked ==>
          s.listener.exits && s.listener.stage != AcquireTx && s.listener.stage != WriteFrame
          && (s.listener.stage.Exchange? ==> !s.listener.stage.self))
    && (s.listener.InClose? ==> s.listener.stage != JoinWait)
    && (!s.joinable ==> s.listener in {NotStarted, Exited} || s.owner == Assign)
    && (s.joinable ==> s.listener != NotStarted)
    && (s.owner == Assign ==> !s.joinable && s.listener != NotStarted)
    && (s.owner == Closing(JoinWait, s.owner.Closing? && s.owner.destroying) || s.owner == DtorJoin ==> s.joinable)
    && (s.owner in {DtorTest, DtorJoin, Destroyed} ==> s.closed)
    && (s.owner == Destroyed ==> s.listener in {NotStarted, Exited} && !s.joinable)
  }

  /** The close frames of `close(true)`. */
  predicate Counted(s: State) {
    && (s.selfClosed ==> s.closed)
    && (s.goodbyes == if s.selfClosed && !WillWrite(s, Owner) && !WillWrite(s, Listener) then 1 else 0)
    && (WillWrite(s, Owner) || WillWrite(s, Listener) ==> s.selfClosed)
    && (!s.connOpen ==> s.closed && !WillWrite(s, Owner) && !WillWrite(s, Listener))
  }

  lemma CountedByListener(s: State, s': State)
    requires Inv(s) && Counted(s) && ListenerStep(s, s') && !s.listener.InClose?
    ensures Counted(s')
  {
    hide CloseStep;
  }

  lemma CountedInClose(s: State, s': State)
    requires Inv(s) && Counted(s) && ListenerStep(s, s') && s.listener.InClose?
    ensures Counted(s')
  {
  }

  lemma CountedByOwner(s: State, s': State)
    requires Inv(s) && Counted(s) && OwnerStep(s, s')
    ensures Counted(s')
  {
  }

  lemma CountedPreserved(s: State, s': State)
    requires Inv(s) && Counted(s) && Next(s, s')
    ensures Counted(s')
  {
    hide Inv, ListenerStep, OwnerStep;
    if ListenerStep(s, s') {
      if s.listener.InClose? {
        CountedInClose(s, s');
      } else {
        CountedByListener(s, s');
      }
    } else if OwnerStep(s, s') {
      CountedByOwner(s, s');
    }
  }

  lemma TxSet(s: State)
    requires (Owner in s.tx <==> HoldsTx(s, Owner)) && (Listener in s.tx <==> HoldsTx(s, Listener))
    ensures s.tx == {} <==> !HoldsTx(s, Owner) && !HoldsTx(s, Listener)
  {
    if s.tx != {} {
      var t :| t in s.tx;
      assert t == Owner || t == Listener;
    }
  }

  lemma Preserved(s: State, s': State)
    requires Inv(s) && Next(s, s')
    ensures Inv(s')
  {
    hide Inv, ListenerStep, OwnerStep, PeerStep;
    if ListenerStep(s, s') {
      if s.listener.InClose? {
        PreservedInClose(s, s');
      } else if s.listener.Reply? {
        PreservedByReply(s, s');
      } else {
        PreservedByListener(s, s');
      }
    } else if OwnerStep(s, s') {
      if s.owner.Closing? {
        PreservedInOwnersClose(s, s');
      } else {
        PreservedByOwner(s, s');
      }
    } else {
      PreservedByPeer(s, s');
    }
  }

  lemma PreservedByPeer(s: State, s': State)
    requires Inv(s) && PeerStep(s, s')
    ensures Inv(s')
  {
  }

  lemma PreservedByListener(s: State, s': State)
    requires Inv(s) && ListenerStep(s, s') && !s.listener.InClose? && !s.listener.Reply?
    ensures Inv(s')
  {
    TxSet(s);
  }

  lemma PreservedByReply(s: State, s': State)
    requires Inv(s) && ListenerStep(s, s') && s.listener.Reply?
    ensures Inv(s')
  {
    TxSet(s);
  }

  lemma PreservedInClose(s: State, s': State)
    requires Inv(s) && ListenerStep(s, s') && s.listener.InClose?
    ensures Inv(s')
  {
    TxSet(s);
  }

  lemma PreservedByOwner(s: State, s': State)
    requires Inv(s) && OwnerStep(s, s') && !s.owner.Closing?
    ensures Inv(s')
  {
    TxSet(s);
  }

  lemma PreservedInOwnersClose(s: State, s': State)
    requires Inv(s) && OwnerStep(s, s') && s.owner.Closing?
    ensures Inv(s')
  {
    TxSet(s);
  }

  lemma {:induction false} Always(run: seq<State>, i: nat)
    requires IsRun(run) && i < |run|
    ensures Inv(run[i]) && Counted(run[i])
  {
    if i > 0 {
      hide Inv, Counted, Next;
      Always(run, i - 1);
      Preserved(run[i - 1], run[i]);
      CountedPreserved(run[i - 1], run[i]);
    }
  }

  // ---------------------------------------------------------------- results

  /** At no time has onClose been called twice; when the destructor has returned it has been called
      exactly once and the receive thread is gone. */
  lemma OnCloseExactlyOnce(run: seq<State>, i: nat)
    requires IsRun(run) && i < |run|
    ensures run[i].onClose <= 1
    ensures run[i].owner == Destroyed ==> run[i].onClose == 1 && run[i].listener in {NotStarted, Exited}
  {
    Always(run, i);
  }

  /** A `close(true)` that wins has written exactly one close frame by the time the connection is closed, a
      `close(false)` that wins none. */
  lemma OneGoodbye(run: seq<State>, i: nat)
    requires IsRun(run) && i < |run|
    ensures run[i].goodbyes <= 1 && (run[i].goodbyes == 1 ==> run[i].selfClosed)
    ensures !run[i].connOpen ==> run[i].closed && (run[i].goodbyes == 1 <==> run[i].selfClosed)
  {
    Always(run, i);
  }

  /** Only the exchange decides who closes: it records whether the winning call was `close(true)`. */
  lemma WinnerRecorded(s: State, t: Thread, self: bool)
    requires !s.closed
    ensures CloseStep(s, t, Exchange(self)).Goto? && CloseStep(s, t, Exchange(self)).s.selfClosed == self
  {
  }

  /** `join` is only ever called by the owner, on a thread that was started and not joined before. */
  lemma NoSelfJoin(run: seq<State>, i: nat)
    requires IsRun(run) && i < |run|
    ensures run[i].listener.InClose? ==> run[i].listener.stage != JoinWait
    ensures run[i].owner == DtorJoin || (run[i].owner.Closing? && run[i].owner.stage == JoinWait)
            ==> run[i].joinable && run[i].listener != NotStarted
  {
    Always(run, i);
  }

  predicate Joining(s: State) {
    s.owner == DtorJoin || (s.owner.Closing? && s.owner.stage == JoinWait)
  }

  /** When the owner joins, the connection has been closed or the receive thread is inside `close` and about
      to close it. So the thread waits for no byte of the peer. */
  lemma JoinAfterClose(run: seq<State>, i: nat)
    requires IsRun(run) && i < |run| && Joining(run[i])
    ensures !run[i].connOpen || WillCloseConn(run[i], Listener)
    ensures run[i].listener == Reading ==> !run[i].connOpen
  {
    Always(run, i);
  }

  /** Bounds the number of steps the receive thread can take without the peer. */
  function Rank(at: ListenerAt): nat {
    match at
    case NotStarted => 0
    case Exited => 0
    case Reading => 1
    case Check => 2
    case Handling(n) => 3 + 12 * n
    case InClose(stage, _, _, n) => 3 + 12 * n + StageRank(stage)
    case Reply(n) => 3 + 12 * n + 8
    case WaitTx(n) => 3 + 12 * n + 9
  }

  function StageRank(stage: Stage): nat {
    match stage
    case Exchange(_) => 7
    case AcquireTx => 6
    case WriteFrame => 5
    case CloseConn => 4
    case JoinTest => 3
    case JoinWait => 2
    case OnClose => 1
  }

  /** `join` returns: while the owner waits in it, the receive thread can move, nobody else can, and every
      move brings it closer to its end. */
  lemma JoinReturns(run: seq<State>, i: nat) returns (next: State)
    requires IsRun(run) && i < |run| && Joining(run[i]) && run[i].listener != Exited
    ensures ListenerStep(run[i], next)
    ensures forall s' :: Next(run[i], s') ==>
              ListenerStep(run[i], s') && Joining(s') && Rank(s'.listener) < Rank(run[i].listener)
  {
    hide IsRun, Inv;
    Always(run, i);
    JoinAfterClose(run, i);
    JoiningMeans(run[i]);
    next := ListenerMoves(run[i]);
    forall s' | Next(run[i], s')
      ensures ListenerStep(run[i], s') && Joining(s') && Rank(s'.listener) < Rank(run[i].listener)
    {
      RankDecreases(run[i], s');
    }
  }

  lemma JoiningMeans(s: State)
    requires Inv(s) && Joining(s)
    ensures s.joinable && s.listener != NotStarted && !HoldsTx(s, Owner) && s.closed
  {
  }

  lemma RankDecreases(s: State, s': State)
    requires ListenerStep(s, s')
    ensures Rank(s'.listener) < Rank(s.listener) && s'.owner == s.owner
  {
    if s.listener.InClose? {
      RankInClose(s, s');
    } else {
      hide CloseStep;
    }
  }

  lemma RankInClose(s: State, s': State)
    requires ListenerStep(s, s') && s.listener.InClose?
    ensures Rank(s'.listener) < Rank(s.listener) && s'.owner == s.owner
  {
    var at := s.listener;
    StageGoesDown(s, Listener, at.stage);
    hide CloseStep, StageRank;
  }

  lemma StageGoesDown(s: State, t: Thread, stage: Stage)
    ensures var o := CloseStep(s, t, stage);
            && (o.Goto? ==> StageRank(o.stage) < StageRank(stage) && o.s.owner == s.owner)
            && (o.Return? ==> o.s.owner == s.owner)
    ensures StageRank(stage) > 0
  {
  }

  /** The two threads never block each other for good, and need no peer to go on: until the destructor has
      returned, one of them can move. */
  lemma NoDeadlock(run: seq<State>, i: nat) returns (next: State)
    requires IsRun(run) && i < |run| && run[i].owner != Destroyed
    ensures ListenerStep(run[i], next) || OwnerStep(run[i], next)
  {
    Always(run, i);
    var s := run[i];
    TxSet(s);
    var blockedOnTx := s.owner.Closing? && s.owner.stage == AcquireTx && s.tx != {};
    if Joining(s) && s.listener != Exited {
      next := JoinReturns(run, i);
    } else if blockedOnTx {
      next := ListenerMoves(s);
    } else {
      next := OwnerMoves(s);
    }
  }

  lemma OwnerMoves(s: State) returns (next: State)
    requires s.owner != Destroyed
    requires s.owner.Closing? && s.owner.stage == AcquireTx ==> s.tx == {}
    requires Joining(s) ==> s.listener == Exited
    ensures OwnerStep(s, next)
  {
    match s.owner
    case Idle => next := s.(owner := Closing(Exchange(true), false));
    case Assign => next := s.(joinable := true, owner := Idle);
    case Closing(stage, destroying) =>
      var o := CloseStep(s, Owner, stage);
      next := if o.Goto? then o.s.(owner := Closing(o.stage, destroying))
              else o.s.(owner := if destroying then DtorTest else Idle);
    case DtorTest => next := s.(owner := if s.joinable then DtorJoin else Destroyed);
    case DtorJoin => next := s.(joinable := false, owner := Destroyed);
  }

  lemma ListenerMoves(s: State) returns (next: State)
    requires Inv(s) && s.listener !in {NotStarted, Exited} && !HoldsTx(s, Owner)
    requires s.listener == Reading ==> !s.connOpen
    ensures ListenerStep(s, next)
  {
    TxSet(s);
    match s.listener
    case Check => next := s.(listener := if s.closed then Exited else Reading);
    case Reading => next := s.(listener := Exited);
    case Handling(n) => next := s.(listener := if n == 0 then Check else Handling(n - 1));
    case WaitTx(n) => next := s.(listener := Reply(n), tx := {Listener});
    case Reply(n) => next := s.(listener := Handling(n), tx := {});
    case InClose(stage, locked, exits, n) =>
      var o := CloseStep(s, Listener, stage);
      next := if o.Goto? then o.s.(listener := InClose(o.stage, locked, exits, n))
              else o.s.(listener := if exits then Exited else Handling(n), tx := if locked then {} else o.s.tx);
  }
}
