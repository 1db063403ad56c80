/** The registry of backup and restore operations, the flag that lets at most one of them
    run, and the janitor that evicts finished ones. Requests, the goroutines they start and
    the janitor interleave in any order. */
module OpTracker {
  import opened Wrappers

  // --- state ------------------------------------------------------------------------------

  /** A finished operation stays visible for this many seconds. */
  const GRACE := 30

  datatype Op = Op(id: string, done: bool, doneAt: int, failed: bool)

  /** Where a request, or the goroutine it started, stands. `op` is an index into `objs`. */
  datatype Thread =
    | Idle
    | Forgetting
    | Acquired
    | Made(op: nat)
    | Running(op: nat)
    | Finished(op: nat)

  /** The janitor reads the clock, then takes the registry's lock for a whole sweep. */
  datatype Janitor = Asleep | Woken(cutoff: int) | Sweeping(cutoff: int, todo: set<string>)

  datatype State = State(
    now: int,
    inFlight: bool,
    objs: seq<Op>,
    ops: map<string, nat>,
    threads: seq<Thread>,
    janitor: Janitor)

  function Start(n: nat): State {
    State(0, false, [], map[], seq(n, _ => Idle), Asleep)
  }

  function At(s: State, w: nat): Thread {
    if w < |s.threads| then s.threads[w] else Idle
  }

  // --- the atomic steps -------------------------------------------------------------------------

  datatype Action =
    | Tick(seconds: nat)
    | Acquire(who: nat, forget: bool)
    | Make(who: nat, id: string)
    | Register(who: nat)
    | Finish(who: nat, failed: bool)
    | Release(who: nat)
    | Wake
    | Lock
    | Visit(id: string)
    | Unlock

  function Move(s: State, w: nat, t: Thread): State
    requires w < |s.threads|
  {
    s.(threads := s.threads[w := t])
  }

  predicate Expired(s: State, id: string)
    requires s.janitor.Sweeping?
  {
    id in s.ops && s.ops[id] < |s.objs| && s.objs[s.ops[id]].done && s.objs[s.ops[id]].doneAt < s.janitor.cutoff
  }

  predicate Enabled(s: State, a: Action) {
    match a
    case Tick(_) => true
    case Acquire(w, _) => w < |s.threads| && s.threads[w] == Idle && !s.inFlight
    case Make(w, _) => At(s, w).Acquired?
    case Register(w) => At(s, w).Made? && At(s, w).op < |s.objs| && !s.janitor.Sweeping?
    case Finish(w, _) => At(s, w).Running? && At(s, w).op < |s.objs|
    case Release(w) => At(s, w).Finished? || At(s, w).Forgetting?
    case Wake => s.janitor.Asleep?
    case Lock => s.janitor.Woken?
    case Visit(id) => s.janitor.Sweeping? && id in s.janitor.todo
    case Unlock => s.janitor.Sweeping? && s.janitor.todo == {}
  }

  /** A step that is not enabled changes nothing: a request that finds the flag set is
      refused, and a registration waits for the janitor's lock. */
  function Next(s: State, a: Action): State {
    if !Enabled(s, a) then s
    else match a
      case Tick(seconds) => s.(now := s.now + seconds)
      case Acquire(w, forget) => Move(s, w, if forget then Forgetting else Acquired).(inFlight := true)
      case Make(w, id) => Move(s, w, Made(|s.objs|)).(objs := s.objs + [Op(id, false, 0, false)])
      case Register(w) =>
        var op := s.threads[w].op;
        Move(s, w, Running(op)).(ops := s.ops[s.objs[op].id := op])
      case Finish(w, failed) =>
        var op := s.threads[w].op;
        Move(s, w, Finished(op)).(objs := s.objs[op := s.objs[op].(done := true, doneAt := s.now, failed := failed)])
      case Release(w) => Move(s, w, Idle).(inFlight := false)
      case Wake => s.(janitor := Woken(s.now - GRACE))
      case Lock => s.(janitor := Sweeping(s.janitor.cutoff, s.ops.Keys))
      case Visit(id) =>
        s.(ops := if Expired(s, id) then s.ops - {id} else s.ops,
           janitor := Sweeping(s.janitor.cutoff, s.janitor.todo - {id}))
      case Unlock => s.(janitor := Asleep)
  }

  function After(s: State, actions: seq<Action>): State
    decreases |actions|
  {
    if actions == [] then s else After(Next(s, actions[0]), actions[1..])
  }

  // --- the server's variables ------------------------------------------------------------------------

  class Backups {
    var now: int
    var inFlight: bool
    var objs: seq<Op>
    var ops: map<string, nat>
    var threads: seq<Thread>
    var janitor: Janitor

    constructor (n: nat)
      ensures View() == Start(n)
    {
      now, inFlight, objs, ops, janitor := 0, false, [], map[], Asleep;
      threads := seq(n, _ => Idle);
    }

    ghost function View(): State
      reads this
    {
      State(now, inFlight, objs, ops, threads, janitor)
    }

    /** `tryAcquire`, for a request that is idle. */
    method TryAcquire(who: nat, forget: bool) returns (ok: bool)
      requires who < |threads| && threads[who] == Idle
      modifies this
      ensures ok == !old(inFlight)
      ensures View() == Next(old(View()), Acquire(who, forget))
      ensures inFlight && (ok ==> threads == old(threads)[who := if forget then Forgetting else Acquired])
    {
      if inFlight { return false; }
      inFlight := true;
      threads := threads[who := if forget then Forgetting else Acquired];
      return true;
    }

    /** `newOp`, with the id drawn for it. */
    method NewOp(who: nat, id: string)
      requires who < |threads| && threads[who].Acquired?
      modifies this
      ensures View() == Next(old(View()), Make(who, id))
      ensures threads == old(threads)[who := Made(|old(objs)|)] && objs == old(objs) + [Op(id, false, 0, false)]
    {
      threads := threads[who := Made(|objs|)];
      objs := objs + [Op(id, false, 0, false)];
    }

    /** `register`; false while the janitor holds the lock. */
    method TryRegister(who: nat) returns (ok: bool)
      requires who < |threads| && threads[who].Made? && threads[who].op < |objs|
      modifies this
      ensures ok == !old(janitor).Sweeping?
      ensures View() == Next(old(View()), Register(who))
      ensures var op := old(threads[who]).op;
        ops == if ok then old(ops)[objs[op].id := op] else old(ops)
    {
      if janitor.Sweeping? { return false; }
      var op := threads[who].op;
      ops := ops[objs[op].id := op];
      threads := threads[who := Running(op)];
      return true;
    }

    /** `finish`. */
    method FinishOp(who: nat, failed: bool)
      requires who < |threads| && threads[who].Running? && threads[who].op < |objs|
      modifies this
      ensures View() == Next(old(View()), Finish(who, failed))
      ensures var op := old(threads[who]).op;
        |objs| == |old(objs)| && objs == old(objs)[op := Op(old(objs)[op].id, true, now, failed)]
    {
      var op := threads[who].op;
      objs := objs[op := objs[op].(done := true, failed := failed, doneAt := now)];
      threads := threads[who := Finished(op)];
    }

    /** The closure `tryAcquire` returned. */
    method ReleaseFlag(who: nat)
      requires who < |threads| && (threads[who].Finished? || threads[who].Forgetting?)
      modifies this
      ensures View() == Next(old(View()), Release(who))
      ensures !inFlight && threads == old(threads)[who := Idle]
    {
      inFlight := false;
      threads := threads[who := Idle];
    }

    /** `current`: some registered operation that is not done, in the map's own order. */
    method Current() returns (op: Option<nat>)
      requires forall id :: id in ops ==> ops[id] < |objs|
      ensures op.Some? ==> op.value in ops.Values && op.value < |objs| && !objs[op.value].done
      ensures op.None? ==> forall id :: id in ops ==> objs[ops[id]].done
    {
      var todo := ops.Keys;
      while todo != {}
        invariant todo <= ops.Keys
        invariant forall id :: id in ops && id !in todo ==> objs[ops[id]].done
        decreases |todo|
      {
        var id :| id in todo;
        if !objs[ops[id]].done { return Some(ops[id]); }
        todo := todo - {id};
      }
      return None;
    }

    /** One visit of the janitor's loop. */
    method VisitNext(id: string)
      requires janitor.Sweeping? && id in janitor.todo
      requires id in ops ==> ops[id] < |objs|
      modifies this
      ensures View() == Next(old(View()), Visit(id))
      ensures now == old(now) && inFlight == old(inFlight) && objs == old(objs) && threads == old(threads)
      ensures janitor == Sweeping(old(janitor).cutoff, old(janitor).todo - {id})
      ensures ops == if id in old(ops) && objs[old(ops)[id]].done && objs[old(ops)[id]].doneAt < janitor.cutoff
                     then old(ops) - {id} else old(ops)
    {
      if id in ops && objs[ops[id]].done && objs[ops[id]].doneAt < janitor.cutoff {
        ops := ops - {id};
      }
      janitor := Sweeping(janitor.cutoff, janitor.todo - {id});
    }

    /** The janitor's loop, from the lock to the unlock, when no operation finishes meanwhile. */
    method Sweep()
      requires janitor.Woken?
      requires forall id :: id in ops ==> ops[id] < |objs|
      modifies this
      ensures janitor == Asleep && now == old(now) && inFlight == old(inFlight) && objs == old(objs) && threads == old(threads)
      ensures forall id :: id in ops <==>
        id in old(ops) && !(objs[old(ops)[id]].done && objs[old(ops)[id]].doneAt < old(janitor).cutoff)
      ensures forall id :: id in ops ==> ops[id] == old(ops)[id]
    {
      hide Next;
      ghost var was, cutoff := ops, janitor.cutoff;
      janitor := Sweeping(janitor.cutoff, ops.Keys);
      while janitor.todo != {}
        invariant janitor.Sweeping? && janitor.cutoff == cutoff && janitor.todo <= ops.Keys <= was.Keys
        invariant now == old(now) && inFlight == old(inFlight) && objs == old(objs) && threads == old(threads)
        invariant forall id :: id in ops ==> ops[id] == was[id]
        invariant forall id :: id in was && id !in janitor.todo ==>
          (id in ops <==> !(objs[was[id]].done && objs[was[id]].doneAt < cutoff))
        decreases |janitor.todo|
      {
        var id :| id in janitor.todo;
        VisitNext(id);
      }
      janitor := Asleep;
    }
  }

  // --- what every step keeps ------------------------------------------------------------------------

  /** The threads that hold the flag. */
  function Holders(s: State): set<nat> {
    set w | 0 <= w < |s.threads| && s.threads[w] != Idle
  }

  predicate FlagOk(s: State) {
    && (s.inFlight ==> |Holders(s)| == 1)
    && (!s.inFlight ==> Holders(s) == {})
  }

  /** The operation a thread has made and not finished. */
  predicate Works(t: Thread, op: nat) {
    (t.Made? || t.Running?) && t.op == op
  }

  /** An operation is not done exactly while the thread that made it works on it. */
  predicate OpsOk(s: State) {
    && (forall w :: 0 <= w < |s.threads| && (s.threads[w].Made? || s.threads[w].Running?) ==>
          s.threads[w].op < |s.objs| && !s.objs[s.threads[w].op].done)
    && (forall o :: 0 <= o < |s.objs| && !s.objs[o].done ==>
          exists w :: 0 <= w < |s.threads| && Works(s.threads[w], o))
    && (forall o :: 0 <= o < |s.objs| && s.objs[o].done ==> s.objs[o].doneAt <= s.now)
  }

  /** The operation is registered under its own id. */
  predicate Findable(s: State, op: nat) {
    op < |s.objs| && s.objs[op].id in s.ops && s.ops[s.objs[op].id] == op
  }

  /** The registry maps an id to an operation with that id, and a running operation is
      always found under its own. */
  predicate RegistryOk(s: State) {
    && (forall id :: id in s.ops ==> s.ops[id] < |s.objs| && s.objs[s.ops[id]].id == id)
    && (forall w :: 0 <= w < |s.threads| && s.threads[w].Running? ==> Findable(s, s.threads[w].op))
    && (!s.janitor.Asleep? ==> s.janitor.cutoff <= s.now - GRACE)
  }

  predicate Inv(s: State) {
    FlagOk(s) && OpsOk(s) && RegistryOk(s)
  }

  lemma TwoElements(xs: set<nat>, a: nat, b: nat)
    requires a in xs && b in xs && |xs| == 1
    ensures a == b
  {
    assert |xs - {a}| == 0;
    assert b !in xs - {a};
  }

  /** Whoever is not idle holds the flag, alone. */
  lemma Alone(s: State, w: nat, v: nat)
    requires FlagOk(s) && w < |s.threads| && v < |s.threads| && s.threads[w] != Idle && s.threads[v] != Idle
    ensures s.inFlight && w == v
  {
    assert w in Holders(s) && v in Holders(s);
    TwoElements(Holders(s), w, v);
  }

  lemma StepKeepsFlag(s: State, a: Action)
    requires FlagOk(s)
    ensures FlagOk(Next(s, a))
  {
    var t := Next(s, a);
    if !Enabled(s, a) {
    } else if a.Acquire? {
      assert Holders(t) == {a.who};
    } else if a.Release? {
      assert a.who in Holders(s);
      forall w | w in Holders(t) ensures false { TwoElements(Holders(s), w, a.who); }
      assert Holders(t) == {};
    } else {
      assert Holders(t) == Holders(s);
    }
  }

  lemma StepKeepsOps(s: State, a: Action)
    requires Inv(s)
    ensures OpsOk(Next(s, a))
  {
    hide FlagOk, RegistryOk, Next;
    var t := Next(s, a);
    forall w | 0 <= w < |t.threads| && (t.threads[w].Made? || t.threads[w].Running?)
      ensures t.threads[w].op < |t.objs| && !t.objs[t.threads[w].op].done
    {
      WorkIsOpen(s, a, w);
    }
    forall o | 0 <= o < |t.objs| && !t.objs[o].done ensures exists w :: 0 <= w < |t.threads| && Works(t.threads[w], o) {
      var w := Worker(s, a, o);
      assert Works(t.threads[w], o);
    }
    DoneInPast(s, a);
  }

  /** After a step, what a thread works on is not done. */
  lemma WorkIsOpen(s: State, a: Action, w: nat)
    requires Inv(s) && w < |Next(s, a).threads|
    requires Next(s, a).threads[w].Made? || Next(s, a).threads[w].Running?
    ensures var t := Next(s, a); t.threads[w].op < |t.objs| && !t.objs[t.threads[w].op].done
  {
    hide FlagOk, RegistryOk;
    if Enabled(s, a) && a.Finish? && w != a.who { Alone(s, w, a.who); }
  }

  /** After a step, what is not done has a thread that works on it. */
  lemma Worker(s: State, a: Action, o: nat) returns (w: nat)
    requires Inv(s) && o < |Next(s, a).objs| && !Next(s, a).objs[o].done
    ensures w < |Next(s, a).threads| && Works(Next(s, a).threads[w], o)
  {
    hide FlagOk, RegistryOk, Works;
    if o < |s.objs| {
      assert !s.objs[o].done;
      w :| 0 <= w < |s.threads| && Works(s.threads[w], o);
      WorkGoesOn(s, a, w, o);
    } else {
      w := a.who;
      NewWork(s, a, o);
    }
  }

  lemma NewWork(s: State, a: Action, o: nat)
    requires |s.objs| <= o < |Next(s, a).objs|
    ensures a.Make? && a.who < |Next(s, a).threads| && Works(Next(s, a).threads[a.who], o)
  {
  }

  lemma DoneInPast(s: State, a: Action)
    requires OpsOk(s)
    ensures var t := Next(s, a); forall o :: 0 <= o < |t.objs| && t.objs[o].done ==> t.objs[o].doneAt <= t.now
  {
  }

  /** Only finishing ends a thread's work on its operation. */
  lemma WorkGoesOn(s: State, a: Action, w: nat, o: nat)
    requires w < |s.threads| && Works(s.threads[w], o)
    ensures |Next(s, a).threads| == |s.threads|
    ensures Works(Next(s, a).threads[w], o) || (o < |s.objs| && Next(s, a).objs[o].done)
  {
  }

  lemma StepKeepsRegistry(s: State, a: Action)
    requires Inv(s)
    ensures RegistryOk(Next(s, a))
  {
    hide FlagOk, OpsOk;
    var t := Next(s, a);
    forall w | 0 <= w < |t.threads| && t.threads[w].Running? ensures Findable(t, t.threads[w].op) {
      if t.threads[w] == s.threads[w] { StaysFindable(s, a, w); }
    }
  }

  lemma StaysFindable(s: State, a: Action, w: nat)
    requires Inv(s) && w < |s.threads| && s.threads[w].Running? && Next(s, a).threads[w] == s.threads[w]
    ensures Findable(Next(s, a), s.threads[w].op)
  {
    hide FlagOk;
    assert Findable(s, s.threads[w].op);
    if a.Register? && Enabled(s, a) { Alone(s, w, a.who); }
  }

  lemma StepKeeps(s: State, a: Action)
    requires Inv(s)
    ensures Inv(Next(s, a))
  {
    hide FlagOk, OpsOk, RegistryOk, Next;
    StepKeepsFlag(s, a);
    StepKeepsOps(s, a);
    StepKeepsRegistry(s, a);
  }

  /** In every interleaving. */
  lemma {:induction false} RunKeeps(s: State, actions: seq<Action>)
    requires Inv(s)
    ensures Inv(After(s, actions))
    decreases |actions|
  {
    hide Inv, Next;
    if actions != [] {
      StepKeeps(s, actions[0]);
      RunKeeps(Next(s, actions[0]), actions[1..]);
    }
  }

  // --- what it means for the operator ------------------------------------------------------------------

  /** From a fresh server, in every interleaving: the flag is set exactly if one thread holds
      it, and two registered operations that are not done are the same one. */
  lemma AtMostOne(n: nat, actions: seq<Action>)
    ensures var s := After(Start(n), actions);
      && (s.inFlight <==> |Holders(s)| == 1) && (!s.inFlight <==> Holders(s) == {})
      && (forall id, jd :: id in s.ops && jd in s.ops && Pending(s, id) && Pending(s, jd) ==> id == jd)
  {
    var s0 := Start(n);
    assert Holders(s0) == {};
    RunKeeps(s0, actions);
    var s := After(s0, actions);
    forall id, jd | id in s.ops && jd in s.ops && Pending(s, id) && Pending(s, jd) ensures id == jd {
      PendingIsHeld(s, id, jd);
    }
  }

  /** The operation registered under `id` is not done. */
  predicate Pending(s: State, id: string) {
    id in s.ops && s.ops[id] < |s.objs| && !s.objs[s.ops[id]].done
  }

  lemma PendingIsHeld(s: State, id: string, jd: string)
    requires Inv(s) && Pending(s, id) && Pending(s, jd)
    ensures s.inFlight && id == jd
  {
    var w :| 0 <= w < |s.threads| && Works(s.threads[w], s.ops[id]);
    var v :| 0 <= v < |s.threads| && Works(s.threads[v], s.ops[jd]);
    Alone(s, w, v);
  }

  /** An entry leaves the registry only after its operation was done for longer than the
      grace period, and is replaced only by a new operation that drew the same id, when the
      old one is done. */
  lemma EvictedLate(s: State, a: Action, id: string)
    requires Inv(s) && id in s.ops
    ensures var t := Next(s, a); var op := s.objs[s.ops[id]];
      || (id in t.ops && t.ops[id] == s.ops[id])
      || (op.done && a.Visit? && op.doneAt + 30 < s.now)
      || (op.done && a.Register? && id in t.ops && Pending(t, id))
  {
    if Enabled(s, a) && a.Register? {
      var op := s.threads[a.who].op;
      if s.objs[op].id == id && s.ops[id] != op && !s.objs[s.ops[id]].done {
        var w :| 0 <= w < |s.threads| && Works(s.threads[w], s.ops[id]);
        Alone(s, w, a.who);
        assert false;
      }
    }
  }

  /** No thread is about to register another operation under `id`. */
  predicate NoRival(s: State, id: string) {
    forall w :: 0 <= w < |s.threads| && s.threads[w].Made? ==> s.threads[w].op < |s.objs| && s.objs[s.threads[w].op].id != id
  }

  lemma {:induction false} ClockOnlyAdvances(s: State, actions: seq<Action>)
    ensures s.now <= After(s, actions).now
    decreases |actions|
  {
    if actions != [] { ClockOnlyAdvances(Next(s, actions[0]), actions[1..]); }
  }

  lemma StepKeepsDone(s: State, a: Action, op: nat)
    requires Inv(s) && op < |s.objs| && s.objs[op].done
    ensures op < |Next(s, a).objs| && Next(s, a).objs[op] == s.objs[op]
  {
    hide FlagOk, RegistryOk;
  }

  /** A finished operation stays as it finished. */
  lemma {:induction false} DoneIsFinal(s: State, actions: seq<Action>, op: nat)
    requires Inv(s) && op < |s.objs| && s.objs[op].done
    ensures op < |After(s, actions).objs| && After(s, actions).objs[op] == s.objs[op]
    decreases |actions|
  {
    hide Inv, Next;
    if actions != [] {
      StepKeepsDone(s, actions[0], op);
      StepKeeps(s, actions[0]);
      DoneIsFinal(Next(s, actions[0]), actions[1..], op);
    }
  }

  predicate Lingers(s: State, op: nat) {
    op < |s.objs| && (!s.objs[op].done || s.now <= s.objs[op].doneAt + GRACE)
  }

  lemma StepStaysVisible(s: State, a: Action, id: string)
    requires Inv(s) && id in s.ops && NoRival(s, id) && (a.Make? ==> a.id != id)
    ensures NoRival(Next(s, a), id)
    ensures Lingers(s, s.ops[id]) ==> id in Next(s, a).ops && Next(s, a).ops[id] == s.ops[id]
  {
    hide FlagOk;
    EvictedLate(s, a, id);
  }

  /** What lingers at the end of a run lingered all along. */
  lemma LingeredBefore(s: State, actions: seq<Action>, op: nat)
    requires Inv(s) && op < |s.objs| && Lingers(After(s, actions), op)
    ensures Lingers(s, op)
  {
    hide Inv;
    ClockOnlyAdvances(s, actions);
    if s.objs[op].done { DoneIsFinal(s, actions, op); }
  }

  /** However long it runs, a registered operation can be found until it is done and the
      grace period after that is over, as long as no new operation draws its id. */
  lemma {:induction false} StaysVisible(s: State, actions: seq<Action>, id: string)
    requires Inv(s) && id in s.ops && NoRival(s, id)
    requires forall a :: a in actions && a.Make? ==> a.id != id
    requires Lingers(After(s, actions), s.ops[id])
    ensures id in After(s, actions).ops && After(s, actions).ops[id] == s.ops[id]
    decreases |actions|
  {
    hide NoRival, Next, Lingers;
    if actions != [] {
      assert s.ops[id] < |s.objs|;
      LingeredBefore(s, actions, s.ops[id]);
      StepStaysVisible(s, actions[0], id);
      StepKeeps(s, actions[0]);
      StaysVisible(Next(s, actions[0]), actions[1..], id);
    }
  }

  // --- when an operation is done ---------------------------------------------------------------------------

  lemma StepStamps(s: State, a: Action, op: nat)
    requires op < |s.objs| && !s.objs[op].done
    ensures op < |Next(s, a).objs|
    ensures Next(s, a).objs[op].done ==> a.Finish? && Next(s, a).objs[op].doneAt == s.now == Next(s, a).now
  {
  }

  /** The time recorded for an operation lies between a moment it was open and a moment it
      was done. */
  lemma {:induction false} DoneBetween(s: State, actions: seq<Action>, op: nat)
    requires Inv(s) && op < |s.objs| && !s.objs[op].done
    ensures var t := After(s, actions); op < |t.objs| && (t.objs[op].done ==> s.now <= t.objs[op].doneAt <= t.now)
    decreases |actions|
  {
    hide Inv, Next;
    if actions != [] {
      var t := Next(s, actions[0]);
      StepStamps(s, actions[0], op);
      StepKeeps(s, actions[0]);
      ClockOnlyAdvances(s, [actions[0]]);
      assert [actions[0]][1..] == [];
      assert After(s, [actions[0]]) == After(t, []) == t;
      if t.objs[op].done {
        DoneIsFinal(t, actions[1..], op);
        ClockOnlyAdvances(t, actions[1..]);
      } else {
        DoneBetween(t, actions[1..], op);
      }
    }
  }

  /** So a registered operation seen open can be found for 30 seconds after that at least,
      whatever happens, as long as no new operation draws its id. */
  lemma FoundForGrace(s: State, actions: seq<Action>, id: string)
    requires Inv(s) && Pending(s, id) && NoRival(s, id)
    requires forall a :: a in actions && a.Make? ==> a.id != id
    requires After(s, actions).now <= s.now + 30
    ensures id in After(s, actions).ops && After(s, actions).ops[id] == s.ops[id]
  {
    hide Inv, Next, NoRival;
    DoneBetween(s, actions, s.ops[id]);
    StaysVisible(s, actions, id);
  }

  /** A janitor that wakes and takes the lock evicts, on its visit, whatever was done more than
      30 seconds before. */
  lemma VisitEvicts(s: State, id: string)
    requires s.janitor.Asleep? && id in s.ops && s.ops[id] < |s.objs|
    requires s.objs[s.ops[id]].done && s.objs[s.ops[id]].doneAt + 30 < s.now
    ensures var t := Next(Next(s, Wake), Lock); Enabled(t, Visit(id)) && id !in Next(t, Visit(id)).ops
  {
  }
}
