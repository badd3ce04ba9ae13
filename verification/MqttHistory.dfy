/** Runs of the broker with the author of each step, and what the steps of one client have to do with the
    packets it sends. */
module MqttHistory {
  import opened Bytes
  import opened MqttCodec
  import opened MqttBroker
  import opened MqttStream

  datatype Move = Move(client: Client, action: Action, before: State, after: State)

  /** The state a history ends in. */
  function Last(h: seq<Move>): State {
    if h == [] then START else h[|h| - 1].after
  }

  ghost predicate IsHistory(h: seq<Move>) {
    forall i :: 0 <= i < |h| ==>
      Step(h[i].before, h[i].client, h[i].action, h[i].after) && h[i].before == Last(h[..i])
  }

  lemma HistorySnoc(h: seq<Move>, c: Client, a: Action, s': State)
    requires IsHistory(h) && Step(Last(h), c, a, s')
    ensures IsHistory(h + [Move(c, a, Last(h), s')])
  {
    hide Step;
    var longer := h + [Move(c, a, Last(h), s')];
    forall i | 0 <= i < |longer|
      ensures Step(longer[i].before, longer[i].client, longer[i].action, longer[i].after)
              && longer[i].before == Last(longer[..i])
    {
      assert longer[..i] == h[..i];
      assert h[..|h|] == h;
    }
  }

  function States(h: seq<Move>): (run: seq<State>)
    ensures |run| == |h| + 1
  {
    [START] + seq(|h|, i requires 0 <= i < |h| => h[i].after)
  }

  /** So everything proved about runs holds for histories. */
  lemma StatesAreRun(h: seq<Move>)
    requires IsHistory(h)
    ensures IsRun(States(h)) && States(h)[|h|] == Last(h)
  {
    hide Step;
    var run := States(h);
    forall i | 0 < i < |run|
      ensures Next(run[i - 1], run[i])
    {
      var m := h[i - 1];
      assert m.before == run[i - 1];
      assert Step(m.before, m.client, m.action, m.after);
    }
  }

  // ---------------------------------------------------------------- one client

  /** The moves of `c`, in order. */
  function Own(h: seq<Move>, c: Client): seq<Move> {
    if h == [] then []
    else Own(h[..|h| - 1], c) + if h[|h| - 1].client == c then [h[|h| - 1]] else []
  }

  lemma OwnSnoc(h: seq<Move>, m: Move, c: Client)
    ensures Own(h + [m], c) == Own(h, c) + if m.client == c then [m] else []
  {
    assert (h + [m])[..|h|] == h;
  }

  predicate LooksUp(m: Move, topic: Topic, message: seq<byte>) {
    m.action.Lookup? && ParsePublish(m.action.header, m.action.buf) == Some((topic, message))
  }

  /** A publish that stops at the first write that fails. */
  predicate Publishes(m: Move, topic: Topic, message: seq<byte>, reach: Reach) {
    && m.action.Publish? && m.client in m.before.phase && m.before.phase[m.client] == Publishing(topic, message)
    && m.action.failure == FirstFailure(|Subs(m.before, topic)|, reach(|m.before.log|))
  }

  /** These moves do what is wished, in order, and nothing else: a publish looks its topic up and, if there
      is an entry for it, publishes to the list it finds afterwards. */
  predicate Fulfils(own: seq<Move>, wishes: seq<Wish>, reach: Reach)
    decreases |wishes|
  {
    if wishes == [] then own == []
    else
      own != [] &&
      match wishes[0]
      case Sub(topic) => own[0].action == Subscribe(topic) && Fulfils(own[1..], wishes[1..], reach)
      case Unsub(topic) => own[0].action == Unsubscribe(topic) && Fulfils(own[1..], wishes[1..], reach)
      case Pub(topic, message) =>
        && LooksUp(own[0], topic, message)
        && if topic in own[0].before.subscribers
           then |own| > 1 && Publishes(own[1], topic, message, reach) && Fulfils(own[2..], wishes[1..], reach)
           else Fulfils(own[1..], wishes[1..], reach)
  }

  lemma {:induction false} FulfilsAppend(a: seq<Move>, v: seq<Wish>, b: seq<Move>, w: seq<Wish>, reach: Reach)
    requires Fulfils(a, v, reach) && Fulfils(b, w, reach)
    ensures Fulfils(a + b, v + w, reach)
    decreases |v|
  {
    hide LooksUp, Publishes;
    if v == [] {
      assert a + b == b && v + w == w;
    } else {
      assert (v + w)[1..] == v[1..] + w;
      assert (a + b)[1..] == a[1..] + b;
      if v[0].Pub? && v[0].topic in a[0].before.subscribers {
        assert (a + b)[2..] == a[2..] + b;
        FulfilsAppend(a[2..], v[1..], b, w, reach);
      } else {
        FulfilsAppend(a[1..], v[1..], b, w, reach);
      }
    }
  }

  // ---------------------------------------------------------------- the log of one publisher

  /** The log entries of publisher `c`. */
  function EntriesBy(log: seq<Entry>, c: Client): seq<Wish> {
    if log == [] then []
    else
      var e := log[|log| - 1];
      EntriesBy(log[..|log| - 1], c) + if e.publisher == c then [Pub(e.topic, e.message)] else []
  }

  /** What a move adds to the log. */
  function Logged(m: Move): seq<Wish> {
    if m.action.Publish? && m.client in m.before.phase && m.before.phase[m.client].Publishing?
       && m.before.phase[m.client].topic in m.before.subscribers
    then [Pub(m.before.phase[m.client].topic, m.before.phase[m.client].message)]
    else []
  }

  function LoggedBy(own: seq<Move>): seq<Wish> {
    if own == [] then [] else Logged(own[0]) + LoggedBy(own[1..])
  }

  lemma {:induction false} LoggedAppend(a: seq<Move>, b: seq<Move>)
    ensures LoggedBy(a + b) == LoggedBy(a) + LoggedBy(b)
  {
    hide Logged;
    if a == [] {
      assert a + b == b;
    } else {
      assert (a + b)[1..] == a[1..] + b;
      LoggedAppend(a[1..], b);
    }
  }

  lemma LogStep(m: Move, c: Client)
    requires Step(m.before, m.client, m.action, m.after)
    ensures EntriesBy(m.after.log, c) == EntriesBy(m.before.log, c) + if m.client == c then Logged(m) else []
  {
    if m.action.Publish? && m.before.phase[m.client].topic in m.before.subscribers {
      var n := |m.before.log|;
      assert m.after.log[..n] == m.before.log;
    }
  }

  /** In every history the log entries of `c` are what its own moves have logged, in order. */
  lemma {:induction false} LogMatches(h: seq<Move>, c: Client)
    requires IsHistory(h)
    ensures EntriesBy(Last(h).log, c) == LoggedBy(Own(h, c))
  {
    hide Step, Logged, EntriesBy;
    if h == [] {
      NoEntries(c);
    } else {
      var n := |h| - 1;
      var m := h[n];
      assert IsHistory(h[..n]) by {
        forall i | 0 <= i < n
          ensures h[..n][i].before == Last(h[..n][..i])
        {
          assert h[..n][..i] == h[..i];
        }
      }
      LogMatches(h[..n], c);
      LogStep(m, c);
      LoggedAppend(Own(h[..n], c), if m.client == c then [m] else []);
      assert m.client == c ==> LoggedBy([m]) == Logged(m) + LoggedBy([]);
    }
  }

  lemma NoEntries(c: Client)
    ensures EntriesBy([], c) == []
  {
  }

  ghost predicate Subsequence(a: seq<Wish>, b: seq<Wish>)
    decreases |b|
  {
    if a == [] then true
    else b != [] && ((a[0] == b[0] && Subsequence(a[1..], b[1..])) || Subsequence(a, b[1..]))
  }

  lemma SubsequenceCons(a: seq<Wish>, w: Wish, b: seq<Wish>)
    requires Subsequence(a, b)
    ensures Subsequence(a, [w] + b) && Subsequence([w] + a, [w] + b)
  {
    assert ([w] + b)[1..] == b && ([w] + a)[1..] == a;
  }

  /** What fulfilling moves log are wishes, in the order of the wishes. */
  lemma {:induction false} LoggedAreWishes(own: seq<Move>, wishes: seq<Wish>, reach: Reach)
    requires Fulfils(own, wishes, reach)
    ensures Subsequence(LoggedBy(own), wishes)
    decreases |wishes|
  {
    hide Subsequence, Logged, LoggedBy;
    if wishes == [] {
      NothingLogged(own);
      NothingWished();
    } else {
      var w := wishes[0];
      assert wishes == [w] + wishes[1..];
      if w.Pub? && w.topic in own[0].before.subscribers {
        LoggedAreWishes(own[2..], wishes[1..], reach);
        SubsequenceCons(LoggedBy(own[2..]), w, wishes[1..]);
        TwoLogged(own);
        LoggedOne(own[1], w.topic, w.message, reach);
        assert [] + LoggedBy(own[2..]) == LoggedBy(own[2..]);
      } else {
        LoggedAreWishes(own[1..], wishes[1..], reach);
        SubsequenceCons(LoggedBy(own[1..]), w, wishes[1..]);
        assert own == [own[0]] + own[1..];
        LoggedAppend([own[0]], own[1..]);
        NothingLogged([own[0]]);
        assert [] + LoggedBy(own[1..]) == LoggedBy(own[1..]);
      }
    }
  }

  lemma LoggedOne(m: Move, topic: Topic, message: seq<byte>, reach: Reach)
    requires Publishes(m, topic, message, reach)
    ensures Logged(m) == [] || Logged(m) == [Pub(topic, message)]
  {
  }

  lemma NothingWished()
    ensures Subsequence([], [])
  {
  }

  lemma {:induction false} NothingLogged(own: seq<Move>)
    requires forall m :: m in own ==> !m.action.Publish?
    ensures LoggedBy(own) == []
  {
    if own != [] {
      NothingLogged(own[1..]);
    }
  }

  lemma LoggedInside(a: seq<Move>, own: seq<Move>, z: seq<Move>)
    requires forall m :: m in a + z ==> !m.action.Publish?
    ensures LoggedBy(a + own + z) == LoggedBy(own)
  {
    hide LoggedBy;
    assert forall m :: m in a ==> m in a + z;
    assert forall m :: m in z ==> m in a + z;
    LoggedAppend(a + own, z);
    LoggedAppend(a, own);
    NothingLogged(a);
    NothingLogged(z);
  }

  lemma TwoLogged(own: seq<Move>)
    requires |own| > 1 && !own[0].action.Publish?
    ensures LoggedBy(own) == Logged(own[1]) + LoggedBy(own[2..])
  {
    assert own[1..][1..] == own[2..];
    assert LoggedBy(own[1..]) == Logged(own[1]) + LoggedBy(own[2..]);
  }
}
