/** The log of one backup or restore operation and its live subscribers. Appending and
    subscribing happen under a lock, the sends outside it, so the steps of several appenders,
    subscribers and readers interleave in any order. */
module OpLog {
  import opened Sequences

  // --- state ------------------------------------------------------------------------------

  /** Slots of a subscriber's channel; a send to a full channel drops the frame. */
  const CAPACITY := 32

  datatype Frame = Frame(event: string, payload: string)

  /** A frame in a channel, with its position in the log and the appender that sent it. */
  datatype Entry = Entry(at: nat, who: nat, frame: Frame)

  /** One subscription: the history it was given, what its reader has taken, what waits in
      the channel, and the log positions of the frames dropped because it was full. */
  datatype Channel = Channel(hist: seq<Frame>, received: seq<Entry>, queue: seq<Entry>, dropped: set<nat>)

  /** A goroutine calling `append`: the frame it last logged and the subscribers it has still
      to send it to. It starts another `append` only when none are left. */
  datatype Appender = Appender(at: nat, frame: Frame, targets: seq<nat>)

  datatype State = State(logs: seq<Frame>, subs: seq<nat>, chans: seq<Channel>, appenders: seq<Appender>)

  /** Everything ever put into a channel, oldest first. */
  function Entered(c: Channel): seq<Entry> { c.received + c.queue }

  // --- the atomic steps -------------------------------------------------------------------------

  datatype Action =
    | Append(who: nat, frame: Frame)
    | Send(who: nat)
    | Snapshot
    | Unsubscribe(chan: nat)
    | Receive(chan: nat)

  function Filter(xs: seq<nat>, x: nat): (r: seq<nat>)
    ensures forall y :: y in r <==> y in xs && y != x
  {
    if xs == [] then []
    else
      var rest := Filter(xs[..|xs| - 1], x);
      if xs[|xs| - 1] == x then rest else rest + [xs[|xs| - 1]]
  }

  lemma FilterFront(xs: seq<nat>, i: nat, x: nat)
    ensures Filter(xs[..0], x) == []
    ensures i < |xs| ==> Filter(xs[..i + 1], x) == Filter(xs[..i], x) + if xs[i] == x then [] else [xs[i]]
  {
    if i < |xs| {
      assert xs[..i + 1][..i] == xs[..i];
      assert Filter(xs[..i], x) + [] == Filter(xs[..i], x);
    }
  }

  /** The non-blocking send. */
  function Put(c: Channel, e: Entry): Channel {
    if |c.queue| < CAPACITY then c.(queue := c.queue + [e]) else c.(dropped := c.dropped + {e.at})
  }

  predicate CanAppend(s: State, who: nat) {
    who < |s.appenders| && s.appenders[who].targets == []
  }

  predicate CanSend(s: State, who: nat) {
    who < |s.appenders| && s.appenders[who].targets != [] && s.appenders[who].targets[0] < |s.chans|
  }

  predicate CanReceive(s: State, c: nat) {
    c < |s.chans| && s.chans[c].queue != []
  }

  /** A step that is not enabled changes nothing. */
  function Next(s: State, a: Action): State {
    match a
    case Append(who, frame) =>
      if CanAppend(s, who)
      then s.(logs := s.logs + [frame], appenders := s.appenders[who := Appender(|s.logs|, frame, s.subs)])
      else s
    case Send(who) =>
      if CanSend(s, who)
      then
        var p := s.appenders[who];
        var c := p.targets[0];
        s.(chans := s.chans[c := Put(s.chans[c], Entry(p.at, who, p.frame))],
           appenders := s.appenders[who := p.(targets := p.targets[1..])])
      else s
    case Snapshot => s.(subs := s.subs + [|s.chans|], chans := s.chans + [Channel(s.logs, [], [], {})])
    case Unsubscribe(c) => s.(subs := Filter(s.subs, c))
    case Receive(c) =>
      if CanReceive(s, c)
      then
        var ch := s.chans[c];
        s.(chans := s.chans[c := ch.(received := ch.received + [ch.queue[0]], queue := ch.queue[1..])])
      else s
  }

  function After(s: State, actions: seq<Action>): State
    decreases |actions|
  {
    if actions == [] then s else After(Next(s, actions[0]), actions[1..])
  }

  /** A fresh operation that `n` goroutines may append to. */
  function Start(n: nat): (s: State)
    ensures Inv(s) && Complete(s)
  {
    State([], [], [], seq(n, _ => Appender(0, Frame("", ""), [])))
  }

  // --- the operation object --------------------------------------------------------------------------

  class BackupOp {
    var logs: seq<Frame>
    var store: array<nat>
    var count: nat
    var chans: seq<Channel>
    var appenders: seq<Appender>

    ghost predicate Valid()
      reads this
    {
      count <= store.Length
    }

    ghost function View(): State
      reads this, store
      requires Valid()
    {
      State(logs, store[..count], chans, appenders)
    }

    constructor (n: nat)
      ensures Valid() && fresh(store) && View() == Start(n)
    {
      logs, chans, count := [], [], 0;
      store := new nat[0];
      appenders := seq(n, _ => Appender(0, Frame("", ""), []));
    }

    /** The locked part of `append`: log the frame and copy the subscriber list. */
    method AppendLocked(who: nat, frame: Frame)
      requires Valid()
      modifies this
      ensures Valid() && store == old(store) && View() == Next(old(View()), Append(who, frame))
      ensures old(who < |appenders| && appenders[who].targets == []) ==>
        logs == old(logs) + [frame] && who < |appenders| && appenders[who].targets == store[..count] == old(store[..count])
    {
      if who < |appenders| && appenders[who].targets == [] {
        appenders := appenders[who := Appender(|logs|, frame, store[..count])];
        logs := logs + [frame];
      }
    }

    /** One turn of the loop after the lock: a send that gives up when the channel is full. */
    method SendNext(who: nat)
      requires Valid()
      modifies this
      ensures Valid() && store == old(store) && View() == Next(old(View()), Send(who))
    {
      if who < |appenders| && appenders[who].targets != [] && appenders[who].targets[0] < |chans| {
        var p := appenders[who];
        var c := p.targets[0];
        var e := Entry(p.at, who, p.frame);
        if |chans[c].queue| < CAPACITY {
          chans := chans[c := chans[c].(queue := chans[c].queue + [e])];
        } else {
          chans := chans[c := chans[c].(dropped := chans[c].dropped + {e.at})];
        }
        appenders := appenders[who := p.(targets := p.targets[1..])];
      }
    }

    /** `snapshot`: a copy of the log and a new channel at the end of the subscriber list. */
    method TakeSnapshot() returns (hist: seq<Frame>, c: nat)
      requires Valid()
      modifies this, store
      ensures Valid() && (store == old(store) || fresh(store))
      ensures hist == old(logs) && c == |old(chans)|
      ensures View() == Next(old(View()), Snapshot)
      ensures store[..count] == old(store[..count]) + [c] && chans == old(chans) + [Channel(old(logs), [], [], {})]
    {
      hist, c := logs, |chans|;
      if count == store.Length {
        var bigger := new nat[2 * count + 1](i requires 0 <= i reads this, store => if i < store.Length then store[i] else 0);
        assert bigger[..count] == store[..count];
        store := bigger;
      }
      store[count] := c;
      count := count + 1;
      chans := chans + [Channel(hist, [], [], {})];
    }

    /** `unsubscribe`: filters the subscriber list inside its own backing array. */
    method Drop(c: nat)
      requires Valid()
      modifies this, store
      ensures Valid() && store == old(store) && View() == Next(old(View()), Unsubscribe(c))
      ensures logs == old(logs) && chans == old(chans) && appenders == old(appenders)
      ensures forall d :: d in store[..count] <==> d in old(store[..count]) && d != c
    {
      hide Filter;
      ghost var was := store[..count];
      var kept := 0;
      FilterFront(was, 0, c);
      for i := 0 to count
        invariant kept <= i <= count <= store.Length
        invariant store[..kept] == Filter(was[..i], c)
        invariant store[i..count] == was[i..]
        invariant unchanged(this)
      {
        assert store[i] == store[i..count][0] == was[i];
        FilterFront(was, i, c);
        if store[i] != c {
          store[kept] := store[i];
          kept := kept + 1;
          assert store[..kept] == store[..kept - 1] + [was[i]];
        }
        assert store[i + 1..count] == was[i + 1..];
      }
      assert was[..count] == was;
      count := kept;
    }

    /** The reader takes one frame. */
    method Take(c: nat) returns (frame: seq<Frame>)
      requires Valid()
      modifies this
      ensures Valid() && store == old(store) && View() == Next(old(View()), Receive(c))
      ensures frame == if CanReceive(old(View()), c) then [old(chans)[c].queue[0].frame] else []
    {
      frame := [];
      if c < |chans| && chans[c].queue != [] {
        var ch := chans[c];
        frame := [ch.queue[0].frame];
        chans := chans[c := ch.(received := ch.received + [ch.queue[0]], queue := ch.queue[1..])];
      }
    }
  }

  // --- what every step keeps ------------------------------------------------------------------------

  predicate Holds(es: seq<Entry>, at: nat) {
    exists i :: 0 <= i < |es| && es[i].at == at
  }

  /** Entries are frames logged from position `from` on, none twice, and those of one
      appender in the order it logged them. */
  predicate Faithful(logs: seq<Frame>, from: nat, es: seq<Entry>) {
    && (forall i :: 0 <= i < |es| ==> from <= es[i].at < |logs| && logs[es[i].at] == es[i].frame)
    && (forall i, j :: 0 <= i < j < |es| ==> es[i].at != es[j].at)
    && (forall i, j :: 0 <= i < j < |es| && es[i].who == es[j].who ==> es[i].at < es[j].at)
  }

  /** The history is a prefix of the log, and the channel carries what came after it. */
  predicate ChannelOk(logs: seq<Frame>, c: Channel) {
    && c.hist <= logs
    && |c.queue| <= CAPACITY
    && Faithful(logs, |c.hist|, Entered(c))
    && (forall k :: k in c.dropped ==> |c.hist| <= k < |logs| && !Holds(Entered(c), k))
  }

  /** `p` may still send its frame to channel `c`, which has not had it yet. */
  predicate Fresh(p: Appender, c: Channel) {
    |c.hist| <= p.at && !Holds(Entered(c), p.at) && p.at !in c.dropped
  }

  /** A frame on its way is the one logged at its position, to distinct channels. */
  predicate AppenderOk(s: State, p: Appender) {
    && NoRepeats(p.targets)
    && (p.targets != [] ==> p.at < |s.logs| && s.logs[p.at] == p.frame)
    && (forall c :: c in p.targets ==> c < |s.chans| && Fresh(p, s.chans[c]))
  }

  predicate SubsOk(s: State) {
    NoRepeats(s.subs) && forall c :: c in s.subs ==> c < |s.chans|
  }

  predicate ChannelsOk(s: State) {
    forall c :: 0 <= c < |s.chans| ==> ChannelOk(s.logs, s.chans[c])
  }

  predicate AppendersOk(s: State) {
    && (forall w :: 0 <= w < |s.appenders| ==> AppenderOk(s, s.appenders[w]))
    && (forall w, v :: 0 <= w < v < |s.appenders| && s.appenders[w].targets != [] && s.appenders[v].targets != []
          ==> s.appenders[w].at != s.appenders[v].at)
  }

  /** Nothing in a channel is newer than the last frame its appender logged. */
  predicate NotAhead(c: Channel, appenders: seq<Appender>) {
    forall i :: 0 <= i < |Entered(c)| ==>
      Entered(c)[i].who < |appenders| && Entered(c)[i].at <= appenders[Entered(c)[i].who].at
  }

  predicate NoneAhead(s: State) {
    forall c :: 0 <= c < |s.chans| ==> NotAhead(s.chans[c], s.appenders)
  }

  predicate Inv(s: State) {
    SubsOk(s) && ChannelsOk(s) && AppendersOk(s) && NoneAhead(s)
  }

  lemma AppendKeeps(s: State, who: nat, frame: Frame)
    requires Inv(s) && CanAppend(s, who)
    ensures Inv(Next(s, Append(who, frame)))
  {
    var t := Next(s, Append(who, frame));
    forall c | 0 <= c < |t.chans| ensures ChannelOk(t.logs, t.chans[c]) && NotAhead(t.chans[c], t.appenders) {
      assert ChannelOk(s.logs, s.chans[c]) && NotAhead(s.chans[c], s.appenders);
    }
    forall w | 0 <= w < |t.appenders| ensures AppenderOk(t, t.appenders[w]) {
      assert AppenderOk(s, s.appenders[w]);
    }
  }

  lemma {:induction false} FilterNoRepeats(xs: seq<nat>, x: nat)
    requires NoRepeats(xs)
    ensures NoRepeats(Filter(xs, x))
  {
    if xs != [] {
      var front := xs[..|xs| - 1];
      FilterNoRepeats(front, x);
      forall k | 0 <= k < |Filter(front, x)| ensures Filter(front, x)[k] != xs[|xs| - 1] {
        assert Filter(front, x)[k] in front;
      }
    }
  }

  lemma HoldsSnoc(es: seq<Entry>, e: Entry, k: nat)
    ensures Holds(es + [e], k) <==> Holds(es, k) || k == e.at
  {
    var fs := es + [e];
    assert fs[|es|] == e;
    if Holds(es, k) {
      var i :| 0 <= i < |es| && es[i].at == k;
      assert fs[i].at == k;
    }
  }

  /** What `Put` does to everything that ever entered the channel. */
  lemma PutEnters(c: Channel, e: Entry)
    ensures Put(c, e).hist == c.hist
    ensures |c.queue| < CAPACITY ==> Entered(Put(c, e)) == Entered(c) + [e] && Put(c, e).dropped == c.dropped
    ensures |c.queue| >= CAPACITY ==> Entered(Put(c, e)) == Entered(c) && Put(c, e).dropped == c.dropped + {e.at}
  {
  }

  /** A frame its appender may still send is newer than that appender's others. */
  lemma FreshIsNewest(c: Channel, p: Appender, who: nat, appenders: seq<Appender>)
    requires NotAhead(c, appenders) && who < |appenders| && appenders[who] == p && Fresh(p, c)
    ensures forall i :: 0 <= i < |Entered(c)| ==>
      Entered(c)[i].at != p.at && (Entered(c)[i].who == who ==> Entered(c)[i].at < p.at)
  {
  }

  lemma FaithfulSnoc(logs: seq<Frame>, start: nat, es: seq<Entry>, e: Entry)
    requires Faithful(logs, start, es)
    requires start <= e.at < |logs| && logs[e.at] == e.frame
    requires forall i :: 0 <= i < |es| ==> es[i].at != e.at && (es[i].who == e.who ==> es[i].at < e.at)
    ensures Faithful(logs, start, es + [e])
  {
  }

  lemma PutKeeps(logs: seq<Frame>, c: Channel, who: nat, appenders: seq<Appender>)
    requires ChannelOk(logs, c) && NotAhead(c, appenders) && who < |appenders|
    requires var p := appenders[who]; Fresh(p, c) && p.at < |logs| && logs[p.at] == p.frame
    ensures var p := appenders[who];
      var d := Put(c, Entry(p.at, who, p.frame));
      ChannelOk(logs, d) && NotAhead(d, appenders)
  {
    hide Entered, Faithful, Holds;
    var p := appenders[who];
    var e := Entry(p.at, who, p.frame);
    PutEnters(c, e);
    FreshIsNewest(c, p, who, appenders);
    if |c.queue| < CAPACITY {
      FaithfulSnoc(logs, |c.hist|, Entered(c), e);
      forall k | k in c.dropped ensures !Holds(Entered(c) + [e], k) { HoldsSnoc(Entered(c), e, k); }
    }
  }

  /** A send changes one channel and one appender; the other channels stay fresh for the
      frames still on their way. */
  lemma FreshAfterPut(p: Appender, c: Channel, e: Entry)
    requires Fresh(p, c) && p.at != e.at
    ensures Fresh(p, Put(c, e))
  {
    hide Entered, Holds;
    PutEnters(c, e);
    HoldsSnoc(Entered(c), e, p.at);
  }

  lemma SendKeepsAppender(s: State, who: nat, w: nat)
    requires Inv(s) && CanSend(s, who) && w < |s.appenders|
    ensures var t := Next(s, Send(who)); AppenderOk(t, t.appenders[w])
  {
    hide Put, Fresh, Filter, Entered, ChannelsOk, NoneAhead;
    var t := Next(s, Send(who));
    var p := s.appenders[who];
    var c0 := p.targets[0];
    var e := Entry(p.at, who, p.frame);
    var q := t.appenders[w];
    assert AppenderOk(s, s.appenders[w]) && AppenderOk(s, p);
    forall c | c in q.targets ensures c < |t.chans| && Fresh(q, t.chans[c]) {
      assert c in s.appenders[w].targets;
      if c == c0 && w != who { FreshAfterPut(s.appenders[w], s.chans[c], e); }
      if w == who {
        var i :| 0 <= i < |q.targets| && q.targets[i] == c;
        assert p.targets[i + 1] == c;
        FreshSame(p, q, t.chans[c]);
      }
    }
  }

  lemma FreshSame(p: Appender, q: Appender, c: Channel)
    requires Fresh(p, c) && p.at == q.at
    ensures Fresh(q, c)
  {
  }

  lemma SendKeeps(s: State, who: nat)
    requires Inv(s) && CanSend(s, who)
    ensures Inv(Next(s, Send(who)))
  {
    hide Put, Fresh, Filter, Entered, AppenderOk;
    var t := Next(s, Send(who));
    var p := s.appenders[who];
    assert AppenderOk(s, p);
    forall w | 0 <= w < |t.appenders| ensures AppenderOk(t, t.appenders[w]) { SendKeepsAppender(s, who, w); }
    forall c | 0 <= c < |t.chans| ensures ChannelOk(t.logs, t.chans[c]) && NotAhead(t.chans[c], t.appenders) {
      SendKeepsChannel(s, who, c);
    }
  }

  lemma SendKeepsChannel(s: State, who: nat, c: nat)
    requires Inv(s) && CanSend(s, who) && c < |s.chans|
    ensures var t := Next(s, Send(who)); ChannelOk(t.logs, t.chans[c]) && NotAhead(t.chans[c], t.appenders)
  {
    hide Put, Fresh, Filter, Entered, ChannelOk;
    var p := s.appenders[who];
    assert AppenderOk(s, p);
    assert p.targets[0] in p.targets;
    if c == p.targets[0] { PutKeeps(s.logs, s.chans[c], who, s.appenders); }
  }

  /** Taking a frame out moves it within what entered the channel. */
  lemma TakeEnters(c: Channel)
    requires c.queue != []
    ensures Entered(c.(received := c.received + [c.queue[0]], queue := c.queue[1..])) == Entered(c)
  {
    assert c.queue == [c.queue[0]] + c.queue[1..];
  }

  lemma ReceiveKeeps(s: State, c: nat)
    requires Inv(s) && CanReceive(s, c)
    ensures Inv(Next(s, Receive(c)))
  {
    hide Entered, Holds, Faithful;
    var t := Next(s, Receive(c));
    TakeEnters(s.chans[c]);
    assert ChannelOk(s.logs, s.chans[c]) && NotAhead(s.chans[c], s.appenders);
    forall d | 0 <= d < |t.chans| ensures ChannelOk(t.logs, t.chans[d]) && NotAhead(t.chans[d], t.appenders) {
      assert ChannelOk(s.logs, s.chans[d]) && NotAhead(s.chans[d], s.appenders);
    }
    forall w | 0 <= w < |t.appenders| ensures AppenderOk(t, t.appenders[w]) {
      assert AppenderOk(s, s.appenders[w]);
    }
  }

  lemma SnapshotKeeps(s: State)
    requires Inv(s)
    ensures Inv(Next(s, Snapshot))
  {
    var t := Next(s, Snapshot);
    forall i | 0 <= i < |s.subs| ensures s.subs[i] < |s.chans| { assert s.subs[i] in s.subs; }
    forall w | 0 <= w < |t.appenders| ensures AppenderOk(t, t.appenders[w]) {
      assert AppenderOk(s, s.appenders[w]);
    }
    forall c | 0 <= c < |t.chans| ensures ChannelOk(t.logs, t.chans[c]) && NotAhead(t.chans[c], t.appenders) {
      if c < |s.chans| { assert ChannelOk(s.logs, s.chans[c]) && NotAhead(s.chans[c], s.appenders); }
    }
  }

  lemma UnsubscribeKeeps(s: State, c: nat)
    requires Inv(s)
    ensures Inv(Next(s, Unsubscribe(c)))
  {
    FilterNoRepeats(s.subs, c);
    var t := Next(s, Unsubscribe(c));
    forall w | 0 <= w < |t.appenders| ensures AppenderOk(t, t.appenders[w]) {
      assert AppenderOk(s, s.appenders[w]);
    }
  }

  lemma StepKeeps(s: State, a: Action)
    requires Inv(s)
    ensures Inv(Next(s, a))
  {
    hide Inv;
    match a
    case Append(who, frame) => if CanAppend(s, who) { AppendKeeps(s, who, frame); }
    case Send(who) => if CanSend(s, who) { SendKeeps(s, who); }
    case Snapshot => SnapshotKeeps(s);
    case Unsubscribe(c) => UnsubscribeKeeps(s, c);
    case Receive(c) => if CanReceive(s, c) { ReceiveKeeps(s, c); }
  }

  /** Under every interleaving, each subscriber's history is a prefix of the log, and its
      channel carries only frames logged after it, none twice, each appender's in order. */
  lemma {:induction false} RunKeeps(s: State, actions: seq<Action>)
    requires Inv(s)
    ensures Inv(After(s, actions))
    decreases |actions|
  {
    hide Inv, Next;
    if actions != [] {
      StepKeeps(s, actions[0]);
      RunKeeps(Next(s, actions[0]), actions[1..]);
    }
  }

  /** A fresh operation, after any interleaving of any number of appenders with any number
      of subscribers. */
  lemma EverySubscriber(n: nat, actions: seq<Action>, c: nat)
    requires c < |After(Start(n), actions).chans|
    ensures var s := After(Start(n), actions);
      s.chans[c].hist <= s.logs && Faithful(s.logs, |s.chans[c].hist|, Entered(s.chans[c]))
  {
    RunKeeps(Start(n), actions);
    assert ChannelOk(After(Start(n), actions).logs, After(Start(n), actions).chans[c]);
  }

  // --- nothing is lost but what was dropped -----------------------------------------------------------

  predicate OnItsWay(s: State, c: nat, k: nat) {
    exists w :: 0 <= w < |s.appenders| && s.appenders[w].at == k && c in s.appenders[w].targets
  }

  predicate Accounted(s: State, c: nat, k: nat)
    requires c < |s.chans|
  {
    Holds(Entered(s.chans[c]), k) || k in s.chans[c].dropped || OnItsWay(s, c, k)
  }

  /** For a current subscriber, every frame logged since its history has entered its channel,
      was dropped, or is on its way. */
  predicate Complete(s: State) {
    && (forall c :: c in s.subs ==> c < |s.chans|)
    && (forall c, k :: c in s.subs && |s.chans[c].hist| <= k < |s.logs| ==> Accounted(s, c, k))
  }

  lemma AppendAccounts(s: State, who: nat, frame: Frame, c: nat, k: nat)
    requires Complete(s) && CanAppend(s, who) && c in s.subs && |s.chans[c].hist| <= k <= |s.logs|
    ensures Accounted(Next(s, Append(who, frame)), c, k)
  {
    var t := Next(s, Append(who, frame));
    if k == |s.logs| {
      assert t.appenders[who].at == k && c in t.appenders[who].targets;
    } else {
      assert Accounted(s, c, k);
      if OnItsWay(s, c, k) {
        var w :| 0 <= w < |s.appenders| && s.appenders[w].at == k && c in s.appenders[w].targets;
        assert t.appenders[w] == s.appenders[w];
      }
    }
  }

  lemma SendAccounts(s: State, who: nat, c: nat, k: nat)
    requires Complete(s) && CanSend(s, who) && c in s.subs && |s.chans[c].hist| <= k < |s.logs|
    ensures Accounted(Next(s, Send(who)), c, k)
  {
    hide Entered, Holds, Put;
    var t := Next(s, Send(who));
    var p := s.appenders[who];
    var e := Entry(p.at, who, p.frame);
    assert Accounted(s, c, k);
    if c == p.targets[0] {
      PutEnters(s.chans[c], e);
      HoldsSnoc(Entered(s.chans[c]), e, k);
    }
    if OnItsWay(s, c, k) && !(c == p.targets[0] && k == p.at) {
      var w :| 0 <= w < |s.appenders| && s.appenders[w].at == k && c in s.appenders[w].targets;
      assert t.appenders[w].at == k && c in t.appenders[w].targets;
      assert OnItsWay(t, c, k);
    }
  }

  lemma StepAccounts(s: State, a: Action)
    requires Complete(s)
    ensures Complete(Next(s, a))
  {
    hide Put, Holds, Entered, OnItsWay;
    var t := Next(s, a);
    forall c, k | c in t.subs && c < |t.chans| && |t.chans[c].hist| <= k < |t.logs| ensures Accounted(t, c, k) {
      match a
      case Append(who, frame) =>
        if CanAppend(s, who) { AppendAccounts(s, who, frame, c, k); } else { assert Accounted(s, c, k); }
      case Send(who) =>
        if CanSend(s, who) {
          PutEnters(s.chans[s.appenders[who].targets[0]], Entry(s.appenders[who].at, who, s.appenders[who].frame));
          SendAccounts(s, who, c, k);
        } else { assert Accounted(s, c, k); }
      case Snapshot =>
        if c < |s.chans| {
          assert c in s.subs && Accounted(s, c, k);
          StillOnItsWay(s, t, c, k);
        }
      case Unsubscribe(_) =>
        assert Accounted(s, c, k);
        StillOnItsWay(s, t, c, k);
      case Receive(d) =>
        if CanReceive(s, d) { TakeEnters(s.chans[d]); }
        assert Accounted(s, c, k);
        StillOnItsWay(s, t, c, k);
    }
  }

  lemma StillOnItsWay(s: State, t: State, c: nat, k: nat)
    requires s.appenders == t.appenders
    ensures OnItsWay(s, c, k) == OnItsWay(t, c, k)
  {
  }

  lemma {:induction false} RunAccounts(s: State, actions: seq<Action>)
    requires Complete(s)
    ensures Complete(After(s, actions))
    decreases |actions|
  {
    hide Complete, Next;
    if actions != [] {
      StepAccounts(s, actions[0]);
      RunAccounts(Next(s, actions[0]), actions[1..]);
    }
  }

  /** No send is pending. */
  predicate NonePending(s: State) {
    forall w :: 0 <= w < |s.appenders| ==> s.appenders[w].targets == []
  }

  // --- one appender ---------------------------------------------------------------------------------------

  function Frames(es: seq<Entry>): seq<Frame> { seq(|es|, i requires 0 <= i < |es| => es[i].frame) }

  predicate Increasing(es: seq<Entry>, lo: nat, hi: nat) {
    && (forall i :: 0 <= i < |es| ==> lo <= es[i].at < hi)
    && (forall i, j :: 0 <= i < j < |es| ==> es[i].at < es[j].at)
  }

  lemma {:induction false} Dense(es: seq<Entry>, lo: nat, hi: nat, i: nat)
    requires Increasing(es, lo, hi) && i < |es|
    requires forall k :: lo <= k < hi ==> Holds(es, k)
    ensures es[i].at == lo + i
    decreases i
  {
    if i > 0 { Dense(es, lo, hi, i - 1); }
    if es[i].at > lo + i {
      assert Holds(es, lo + i);
      var j :| 0 <= j < |es| && es[j].at == lo + i;
      if j < i { Dense(es, lo, hi, j); }
      assert false;
    }
  }

  /** Increasing positions that fill their range are the range. */
  lemma {:induction false} AtLeast(es: seq<Entry>, lo: nat, hi: nat, i: nat)
    requires Increasing(es, lo, hi) && i < |es|
    ensures es[i].at >= lo + i
    decreases i
  {
    if i > 0 { AtLeast(es, lo, hi, i - 1); }
  }

  lemma {:induction false} AtMost(es: seq<Entry>, lo: nat, hi: nat, i: nat)
    requires Increasing(es, lo, hi) && i < |es|
    ensures es[i].at <= hi - (|es| - i)
    decreases |es| - i
  {
    if i + 1 < |es| { AtMost(es, lo, hi, i + 1); }
  }

  lemma Filled(es: seq<Entry>, lo: nat, hi: nat, k: nat)
    requires Increasing(es, lo, hi) && |es| == hi - lo && lo <= k < hi
    ensures Holds(es, k)
  {
    AtLeast(es, lo, hi, k - lo);
    AtMost(es, lo, hi, k - lo);
  }

  lemma Spelled(logs: seq<Frame>, hist: seq<Frame>, es: seq<Entry>)
    requires hist <= logs && Faithful(logs, |hist|, es) && Increasing(es, |hist|, |logs|)
    requires forall k :: |hist| <= k < |logs| ==> Holds(es, k)
    ensures hist + Frames(es) == logs
  {
    forall i | 0 <= i < |es| ensures es[i].at == |hist| + i { Dense(es, |hist|, |logs|, i); }
    var end := |hist| + |es|;
    assert end < |logs| ==> Holds(es, end);
    if es != [] {
      assert es[|es| - 1].at < |logs|;
    }
  }

  /** With one appender the channel keeps the log's order. */
  lemma OneAppenderInOrder(s: State, c: nat)
    requires Inv(s) && |s.appenders| == 1 && c < |s.chans|
    ensures Increasing(Entered(s.chans[c]), |s.chans[c].hist|, |s.logs|)
  {
    assert ChannelOk(s.logs, s.chans[c]) && NotAhead(s.chans[c], s.appenders);
  }

  /** Once the pending sends are done, the history and the channel together are the log
      exactly if no frame was dropped. */
  lemma OneAppenderComplete(s: State, c: nat)
    requires Inv(s) && Complete(s) && NonePending(s) && |s.appenders| == 1 && c in s.subs
    ensures var ch := s.chans[c]; ch.hist + Frames(ch.received) + Frames(ch.queue) == s.logs <==> ch.dropped == {}
  {
    hide Inv, Complete, Holds;
    MissingIsDropped(s, c);
    var ch := s.chans[c];
    var es := Entered(ch);
    OneAppenderInOrder(s, c);
    assert Frames(ch.received) + Frames(ch.queue) == Frames(es);
    assert ch.hist + Frames(ch.received) + Frames(ch.queue) == ch.hist + Frames(es);
    if ch.dropped == {} {
      Spelled(s.logs, ch.hist, es);
    } else if ch.hist + Frames(es) == s.logs {
      assert |es| == |s.logs| - |ch.hist|;
      var k :| k in ch.dropped;
      Filled(es, |ch.hist|, |s.logs|, k);
      assert false;
    }
  }

  lemma {:induction false} SameAppenders(s: State, actions: seq<Action>)
    ensures |After(s, actions).appenders| == |s.appenders|
    decreases |actions|
  {
    if actions != [] { SameAppenders(Next(s, actions[0]), actions[1..]); }
  }

  /** A fresh operation with one appender, after any interleaving, when its last `append` has
      returned. */
  lemma OneAppenderSees(actions: seq<Action>, c: nat)
    requires var s := After(Start(1), actions); c in s.subs && NonePending(s)
    ensures var s := After(Start(1), actions);
      c < |s.chans| &&
      var ch := s.chans[c];
      ch.hist + Frames(ch.received) + Frames(ch.queue) == s.logs <==> ch.dropped == {}
  {
    hide Inv, Accounted;
    SameAppenders(Start(1), actions);
    RunKeeps(Start(1), actions);
    RunAccounts(Start(1), actions);
    OneAppenderComplete(After(Start(1), actions), c);
  }

  /** Any number of appenders: once the pending sends are done, the frames missing from a
      subscriber's channel since its history are exactly those dropped. */
  lemma MissingIsDropped(s: State, c: nat)
    requires Inv(s) && Complete(s) && NonePending(s) && c in s.subs
    ensures c < |s.chans| && ChannelOk(s.logs, s.chans[c])
    ensures forall k :: |s.chans[c].hist| <= k < |s.logs| ==>
      (Holds(Entered(s.chans[c]), k) <==> k !in s.chans[c].dropped)
  {
    hide Holds, Faithful, AppenderOk, NotAhead;
    assert ChannelOk(s.logs, s.chans[c]);
    forall k | |s.chans[c].hist| <= k < |s.logs| ensures Holds(Entered(s.chans[c]), k) <==> k !in s.chans[c].dropped {
      assert Accounted(s, c, k);
    }
  }

  lemma AfterCons(s: State, a: Action, rest: seq<Action>)
    ensures After(s, [a] + rest) == After(Next(s, a), rest)
  {
    assert ([a] + rest)[1..] == rest;
  }

  /** One subscriber from the start, and both frames logged before either is sent. */
  function BothLogged(f: Frame, g: Frame): State {
    State([f, g], [0], [Channel([], [], [], {})], [Appender(0, f, [0]), Appender(1, g, [0])])
  }

  lemma LogBoth(f: Frame, g: Frame, rest: seq<Action>)
    ensures After(Start(2), [Snapshot] + ([Append(0, f)] + ([Append(1, g)] + rest))) == After(BothLogged(f, g), rest)
  {
    hide After, Inv, Complete;
    var s1 := Next(Start(2), Snapshot);
    var s2 := Next(s1, Append(0, f));
    AfterCons(Start(2), Snapshot, [Append(0, f)] + ([Append(1, g)] + rest));
    AfterCons(s1, Append(0, f), [Append(1, g)] + rest);
    AfterCons(s2, Append(1, g), rest);
    assert s1.chans == [Channel([], [], [], {})] && s1.subs == [0];
    assert s2.appenders == [Appender(0, f, [0]), Appender(0, Frame("", ""), [])];
    assert Next(s2, Append(1, g)) == BothLogged(f, g);
  }

  lemma SendBackwards(f: Frame, g: Frame)
    ensures var s := After(BothLogged(f, g), [Send(1)] + ([Send(0)] + ([Receive(0)] + ([Receive(0)] + []))));
      && s.logs == [f, g] && |s.chans| == 1 && s.chans[0].hist == []
      && s.chans[0].received == [Entry(1, 1, g), Entry(0, 0, f)]
  {
    hide After;
    var s1 := Next(BothLogged(f, g), Send(1));
    var s2 := Next(s1, Send(0));
    var s3 := Next(s2, Receive(0));
    var s4 := Next(s3, Receive(0));
    AfterCons(BothLogged(f, g), Send(1), [Send(0)] + ([Receive(0)] + ([Receive(0)] + [])));
    AfterCons(s1, Send(0), [Receive(0)] + ([Receive(0)] + []));
    AfterCons(s2, Receive(0), [Receive(0)] + []);
    AfterCons(s3, Receive(0), []);
    AfterNil(s4);
    var sent, late := Entry(1, 1, g), Entry(0, 0, f);
    assert s1.chans[0].queue == [sent] && |s1.chans| == 1;
    assert s2.chans[0].queue == [sent, late] && |s2.chans| == 1;
    assert s3.chans[0].received == [sent] && s3.chans[0].queue == [late] && |s3.chans| == 1;
    assert s4.chans[0].received == [sent, late] && s4.chans[0].queue == [] && |s4.chans| == 1;
  }

  lemma AfterNil(s: State)
    ensures After(s, []) == s
  {
  }

  /** With two appenders the order may be lost: whatever the two frames are, some run logs
      them in one order and delivers them in the other. */
  lemma TwoAppendersReorder(f: Frame, g: Frame)
    ensures exists actions ::
      var s := After(Start(2), actions);
      s.logs == [f, g] && |s.chans| == 1 && s.chans[0].hist == [] && Frames(s.chans[0].received) == [g, f]
  {
    hide After;
    var rest := [Send(1)] + ([Send(0)] + ([Receive(0)] + ([Receive(0)] + [])));
    LogBoth(f, g, rest);
    SendBackwards(f, g);
    var s := After(Start(2), [Snapshot] + ([Append(0, f)] + ([Append(1, g)] + rest)));
    assert Frames(s.chans[0].received) == [g, f];
  }

  // --- joining and leaving --------------------------------------------------------------------------------

  /** A new subscriber gets the whole log, and is sent what is logged from then on. */
  lemma SnapshotSubscribes(s: State)
    ensures var t, c := Next(s, Snapshot), |s.chans|;
      c in t.subs && |t.chans| == c + 1 && t.chans[c].hist == s.logs && Entered(t.chans[c]) == []
  {
  }

  lemma StepStays(s: State, a: Action, c: nat)
    requires c in s.subs && a != Unsubscribe(c)
    ensures c in Next(s, a).subs
  {
  }

  /** Nobody loses a subscription but by its own unsubscribe. */
  lemma {:induction false} StaysSubscribed(s: State, actions: seq<Action>, c: nat)
    requires c in s.subs && Unsubscribe(c) !in actions
    ensures c in After(s, actions).subs
    decreases |actions|
  {
    hide Next;
    if actions != [] {
      StepStays(s, actions[0], c);
      StaysSubscribed(Next(s, actions[0]), actions[1..], c);
    }
  }

  /** The channel has, and can still get, only frames logged before position `n`. */
  predicate Silent(s: State, c: nat, n: nat) {
    && c < |s.chans| && c !in s.subs && n <= |s.logs|
    && (forall w :: 0 <= w < |s.appenders| && c in s.appenders[w].targets ==> s.appenders[w].at < n)
    && (forall i :: 0 <= i < |Entered(s.chans[c])| ==> Entered(s.chans[c])[i].at < n)
  }

  lemma UnsubscribeSilences(s: State, c: nat)
    requires Inv(s) && c < |s.chans|
    ensures Silent(Next(s, Unsubscribe(c)), c, |s.logs|)
  {
    hide Entered, NotAhead, Fresh;
    assert ChannelOk(s.logs, s.chans[c]);
    forall w | 0 <= w < |s.appenders| && c in s.appenders[w].targets ensures s.appenders[w].at < |s.logs| {
      assert AppenderOk(s, s.appenders[w]);
    }
  }

  lemma StepStaysSilent(s: State, a: Action, c: nat, n: nat)
    requires Silent(s, c, n)
    ensures Silent(Next(s, a), c, n)
  {
    hide Entered;
    match a
    case Append(who, frame) =>
    case Send(who) =>
      if CanSend(s, who) {
        var p := s.appenders[who];
        assert p.targets[0] in p.targets;
        PutEnters(s.chans[p.targets[0]], Entry(p.at, who, p.frame));
      }
    case Snapshot =>
    case Unsubscribe(_) =>
    case Receive(d) => if CanReceive(s, d) { TakeEnters(s.chans[d]); }
  }

  lemma {:induction false} RunStaysSilent(s: State, actions: seq<Action>, c: nat, n: nat)
    requires Silent(s, c, n)
    ensures Silent(After(s, actions), c, n)
    decreases |actions|
  {
    hide Silent, Next;
    if actions != [] {
      StepStaysSilent(s, actions[0], c, n);
      RunStaysSilent(Next(s, actions[0]), actions[1..], c, n);
    }
  }

  /** After an unsubscribe, in every continuation, the channel gets no frame logged after it;
      only sends already on their way may still arrive. */
  lemma NothingAfterUnsubscribe(s: State, c: nat, actions: seq<Action>)
    requires Inv(s) && c < |s.chans|
    ensures var t := After(Next(s, Unsubscribe(c)), actions);
      && c < |t.chans| && c !in t.subs
      && forall i :: 0 <= i < |Entered(t.chans[c])| ==> Entered(t.chans[c])[i].at < |s.logs|
  {
    hide Inv, Next;
    UnsubscribeSilences(s, c);
    RunStaysSilent(Next(s, Unsubscribe(c)), actions, c, |s.logs|);
  }

  /** A frame is dropped only on a channel with 32 frames waiting. */
  lemma DroppedWhenFull(s: State, a: Action, c: nat, k: nat)
    requires c < |s.chans| && k !in s.chans[c].dropped && |s.chans[c].queue| <= 32
    ensures c < |Next(s, a).chans|
    ensures k in Next(s, a).chans[c].dropped ==>
      a.Send? && CanSend(s, a.who) && s.appenders[a.who].at == k && s.appenders[a.who].targets[0] == c && |s.chans[c].queue| == 32
  {
  }
}
