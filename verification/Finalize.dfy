/** The finalize pipeline: five steps whose completion is persisted, a re-verification of
    everything, the sentinel that ends setup mode, and the scrub of secrets. Workers,
    verifications and saves may fail in any way; a run can be repeated at any time. */
module Finalize {

  // --- persisted state ------------------------------------------------------------------

  datatype Step = UsersDb | Oidc | Templates | Cert | Npm

  /** `setupCompletedSteps`. */
  datatype Flags = Flags(usersDb: bool, oidc: bool, templates: bool, cert: bool, npm: bool, sentinel: bool)

  const NO_FLAGS := Flags(false, false, false, false, false, false)

  function Flag(f: Flags, s: Step): bool {
    match s
    case UsersDb => f.usersDb
    case Oidc => f.oidc
    case Templates => f.templates
    case Cert => f.cert
    case Npm => f.npm
  }

  function SetFlag(f: Flags, s: Step): Flags {
    match s
    case UsersDb => f.(usersDb := true)
    case Oidc => f.(oidc := true)
    case Templates => f.(templates := true)
    case Cert => f.(cert := true)
    case Npm => f.(npm := true)
  }

  /** The part of `state.json` that finalize reads or writes. */
  datatype Setup = Setup(flags: Flags, username: string, passwordHash: string, creds: map<string, string>)

  datatype Disk = NoFile | Saved(setup: Setup)

  // --- what a run meets ---------------------------------------------------------------------

  /** `finalizeTouchSentinel` and `verifySentinel`: an error before the file exists, an
      error after it, or success. */
  datatype Touch = NotCreated | CreatedThenError | Created

  /** The outcome of every call one run may make. */
  datatype Script = Script(
    loads: bool,
    works: Step -> bool,
    verifies: Step -> bool,
    saves: Step -> bool,
    rechecks: Step -> bool,
    touch: Touch,
    savesSentinel: bool,
    savesScrub: bool)

  datatype Event =
    | Begin
    | Work(step: Step)
    | Complete(step: Step)
    | Recheck(step: Step)
    | Touched

  datatype Failed = LoadState | AtStep(step: Step) | AtSentinel | SaveState

  datatype Outcome = Success | Failure(at: Failed)

  /** The disk, the sentinel file and the calls made so far. */
  datatype World = World(disk: Disk, sentinel: bool, trace: seq<Event>)

  /** A run's in-memory state beside the world; `failed` once it has returned an error. */
  datatype Running = Running(w: World, st: Setup, outcome: Outcome)

  // --- one run, as a function -------------------------------------------------------------------

  function Loaded(d: Disk): Setup {
    match d
    case NoFile => Setup(NO_FLAGS, "", "", map[])
    case Saved(s) => s
  }

  /** The admin step refuses an empty name or hash; the others are foreign calls. */
  predicate WorkSucceeds(st: Setup, s: Step, script: Script) {
    script.works(s) && (s == UsersDb ==> st.username != "" && st.passwordHash != "")
  }

  /** The rotation step has no verification of its own. */
  predicate VerifySucceeds(s: Step, script: Script) { s == Oidc || script.verifies(s) }

  function Save(w: World, st: Setup, ok: bool): World {
    if ok then w.(disk := Saved(st)) else w
  }

  /** One guarded step: worker, verification, flag, save. A failed save is only logged. */
  function AfterStep(r: Running, s: Step, script: Script): Running {
    if r.outcome.Failure? || Flag(r.st.flags, s) then r
    else
      var worked := r.w.(trace := r.w.trace + [Work(s)]);
      if !WorkSucceeds(r.st, s, script) || !VerifySucceeds(s, script)
      then Running(worked, r.st, Failure(AtStep(s)))
      else
        var st := r.st.(flags := SetFlag(r.st.flags, s));
        var done := worked.(trace := worked.trace + [Complete(s)]);
        Running(Save(done, st, script.saves(s)), st, r.outcome)
  }

  function AfterSteps(r: Running, script: Script): Running {
    AfterStep(AfterStep(AfterStep(AfterStep(AfterStep(
      r, UsersDb, script), Oidc, script), Templates, script), Cert, script), Npm, script)
  }

  function AfterRecheck(r: Running, s: Step, script: Script): Running {
    if r.outcome.Failure? then r
    else if !script.rechecks(s) then r.(outcome := Failure(AtStep(s)))
    else r.(w := r.w.(trace := r.w.trace + [Recheck(s)]))
  }

  /** `finalizeVerifyAll`: every verification again, in order, up to the first failure. */
  function AfterVerifyAll(r: Running, script: Script): Running {
    AfterRecheck(AfterRecheck(AfterRecheck(AfterRecheck(
      r, UsersDb, script), Templates, script), Cert, script), Npm, script)
  }

  function AfterSentinel(r: Running, script: Script): Running {
    if r.outcome.Failure? || r.st.flags.sentinel then r
    else
      var touched := r.w.(trace := r.w.trace + [Touched], sentinel := r.w.sentinel || !script.touch.NotCreated?);
      if !script.touch.Created? then Running(touched, r.st, Failure(AtSentinel))
      else
        var st := r.st.(flags := r.st.flags.(sentinel := true));
        Running(Save(touched, st, script.savesSentinel), st, r.outcome)
  }

  function AfterScrub(r: Running, script: Script): Running {
    if r.outcome.Failure? then r
    else
      var st := r.st.(passwordHash := "", creds := map[]);
      Running(Save(r.w, st, script.savesScrub), st, if script.savesScrub then Success else Failure(SaveState))
  }

  function Started(w: World): Running {
    Running(w.(trace := w.trace + [Begin]), Loaded(w.disk), Success)
  }

  function RunOnce(w: World, script: Script): Running {
    var r := Started(w);
    if !script.loads then r.(outcome := Failure(LoadState))
    else AfterScrub(AfterSentinel(AfterVerifyAll(AfterSteps(r, script), script), script), script)
  }

  // --- the pipeline ---------------------------------------------------------------------------------

  class Server {
    var disk: Disk
    var sentinel: bool
    ghost var trace: seq<Event>

    constructor (disk: Disk, sentinel: bool)
      ensures View() == World(disk, sentinel, [])
    {
      this.disk, this.sentinel, this.trace := disk, sentinel, [];
    }

    ghost function View(): World
      reads this
    {
      World(disk, sentinel, trace)
    }

    /** One `if !st.CompletedSteps.X` block. */
    method DoStep(st: Setup, s: Step, script: Script) returns (st': Setup, outcome: Outcome)
      modifies this
      ensures Running(View(), st', outcome) == AfterStep(Running(old(View()), st, Success), s, script)
    {
      st', outcome := st, Success;
      if !Flag(st.flags, s) {
        trace := trace + [Work(s)];
        if !WorkSucceeds(st, s, script) { return st', Failure(AtStep(s)); }
        if !VerifySucceeds(s, script) { return st', Failure(AtStep(s)); }
        trace := trace + [Complete(s)];
        st' := st.(flags := SetFlag(st.flags, s));
        if script.saves(s) { disk := Saved(st'); }
      }
    }

    /** `finalizeVerifyAll`. */
    method VerifyAll(st: Setup, script: Script) returns (outcome: Outcome)
      modifies this
      ensures Running(View(), st, outcome) == AfterVerifyAll(Running(old(View()), st, Success), script)
    {
      if !script.rechecks(UsersDb) { return Failure(AtStep(UsersDb)); }
      trace := trace + [Recheck(UsersDb)];
      if !script.rechecks(Templates) { return Failure(AtStep(Templates)); }
      trace := trace + [Recheck(Templates)];
      if !script.rechecks(Cert) { return Failure(AtStep(Cert)); }
      trace := trace + [Recheck(Cert)];
      if !script.rechecks(Npm) { return Failure(AtStep(Npm)); }
      trace := trace + [Recheck(Npm)];
      return Success;
    }

    /** `runFinalize`. */
    method RunFinalize(script: Script) returns (outcome: Outcome)
      modifies this
      ensures View() == RunOnce(old(View()), script).w
      ensures outcome == RunOnce(old(View()), script).outcome
    {
      trace := trace + [Begin];
      if !script.loads { return Failure(LoadState); }
      var st := Loaded(disk);
      st, outcome := DoStep(st, UsersDb, script);
      if outcome.Failure? { return; }
      st, outcome := DoStep(st, Oidc, script);
      if outcome.Failure? { return; }
      st, outcome := DoStep(st, Templates, script);
      if outcome.Failure? { return; }
      st, outcome := DoStep(st, Cert, script);
      if outcome.Failure? { return; }
      st, outcome := DoStep(st, Npm, script);
      if outcome.Failure? { return; }
      outcome := VerifyAll(st, script);
      if outcome.Failure? { return; }
      if !st.flags.sentinel {
        trace := trace + [Touched];
        if !script.touch.NotCreated? { sentinel := true; }
        if !script.touch.Created? { return Failure(AtSentinel); }
        st := st.(flags := st.flags.(sentinel := true));
        if script.savesSentinel { disk := Saved(st); }
      }
      st := st.(passwordHash := "", creds := map[]);
      if !script.savesScrub { return Failure(SaveState); }
      disk := Saved(st);
      return Success;
    }
  }

  // --- everything that can happen -----------------------------------------------------------------------

  /** A finalize run, a wizard page saving its fields, or somebody deleting the sentinel. */
  datatype Action =
    | Run(script: Script)
    | Wizard(username: string, passwordHash: string, creds: map<string, string>)
    | DeleteSentinel

  function Next(w: World, a: Action): World {
    match a
    case Run(script) => RunOnce(w, script).w
    case Wizard(username, passwordHash, creds) =>
      w.(disk := Saved(Setup(Loaded(w.disk).flags, username, passwordHash, creds)))
    case DeleteSentinel => w.(sentinel := false)
  }

  function After(w: World, actions: seq<Action>): World
    decreases |actions|
  {
    if actions == [] then w else After(Next(w, actions[0]), actions[1..])
  }

  // --- flags are a prefix ------------------------------------------------------------------------------

  predicate IsPrefix(f: Flags) {
    && (f.sentinel ==> f.npm) && (f.npm ==> f.cert) && (f.cert ==> f.templates)
    && (f.templates ==> f.oidc) && (f.oidc ==> f.usersDb)
  }

  /** In memory and on disk the flags are a prefix, and a run still going has set `last`. */
  predicate Orderly(r: Running, last: bool) {
    IsPrefix(r.st.flags) && IsPrefix(Loaded(r.w.disk).flags) && (r.outcome.Success? ==> last)
  }

  predicate Reached(f: Flags, s: Step) {
    match s
    case UsersDb => true
    case Oidc => f.usersDb
    case Templates => f.oidc
    case Cert => f.templates
    case Npm => f.cert
  }

  lemma StepOrderly(r: Running, s: Step, script: Script)
    requires Orderly(r, Reached(r.st.flags, s))
    ensures var r' := AfterStep(r, s, script); Orderly(r', Flag(r'.st.flags, s))
  {
  }

  lemma StepsOrderly(r: Running, script: Script)
    requires Orderly(r, true)
    ensures var r' := AfterSteps(r, script); Orderly(r', r'.st.flags.npm)
  {
    hide AfterStep, IsPrefix;
    var r1 := AfterStep(r, UsersDb, script);
    var r2 := AfterStep(r1, Oidc, script);
    var r3 := AfterStep(r2, Templates, script);
    var r4 := AfterStep(r3, Cert, script);
    StepOrderly(r, UsersDb, script);
    StepOrderly(r1, Oidc, script);
    StepOrderly(r2, Templates, script);
    StepOrderly(r3, Cert, script);
    StepOrderly(r4, Npm, script);
  }

  /** The re-verification changes neither the state nor the disk, and never turns a failed
      run into a good one. */
  lemma VerifyAllOnlyLooks(r: Running, script: Script)
    ensures var r' := AfterVerifyAll(r, script);
      r'.st == r.st && r'.w.disk == r.w.disk && r'.w.sentinel == r.w.sentinel && (r'.outcome.Success? ==> r == r.(outcome := r'.outcome))
  {
  }

  lemma EndOrderly(r: Running, script: Script)
    requires Orderly(r, r.st.flags.npm)
    ensures Orderly(AfterScrub(AfterSentinel(r, script), script), true)
  {
  }

  lemma RunKeepsPrefix(w: World, script: Script)
    requires IsPrefix(Loaded(w.disk).flags)
    ensures IsPrefix(Loaded(RunOnce(w, script).w.disk).flags)
  {
    hide AfterSteps, AfterVerifyAll, AfterSentinel, AfterScrub, IsPrefix;
    var r := AfterSteps(Started(w), script);
    StepsOrderly(Started(w), script);
    VerifyAllOnlyLooks(r, script);
    EndOrderly(AfterVerifyAll(r, script), script);
  }

  /** Over every sequence of runs, wizard saves and deletions, the persisted flags are a
      prefix of the step order. */
  lemma {:induction false} FlagsArePrefix(w: World, actions: seq<Action>)
    requires IsPrefix(Loaded(w.disk).flags)
    ensures IsPrefix(Loaded(After(w, actions).disk).flags)
    decreases |actions|
  {
    hide RunOnce;
    if actions != [] {
      if actions[0].Run? { RunKeepsPrefix(w, actions[0].script); }
      FlagsArePrefix(Next(w, actions[0]), actions[1..]);
    }
  }

  // --- the sentinel is created only behind the gate -----------------------------------------------------

  const VERIFIED := [Recheck(UsersDb), Recheck(Templates), Recheck(Cert), Recheck(Npm)]

  predicate EndsVerified(t: seq<Event>) {
    |t| >= 4 && t[|t| - 4..] == VERIFIED
  }

  /** Every touch comes directly after the four verifications passed; as each run writes
      `Begin` first, they are verifications of the same run. No sentinel without a touch. */
  predicate Gated(w: World) {
    && (forall i :: 0 <= i < |w.trace| && w.trace[i] == Touched ==> EndsVerified(w.trace[..i]))
    && (w.sentinel ==> Touched in w.trace)
  }

  lemma GatedAppend(w: World, e: Event, sentinel: bool)
    requires Gated(w)
    requires e == Touched ==> EndsVerified(w.trace)
    requires sentinel ==> w.sentinel || e == Touched
    ensures Gated(w.(trace := w.trace + [e], sentinel := sentinel))
  {
    hide EndsVerified;
    var t := w.trace + [e];
    assert t[|w.trace|] == e && t[..|w.trace|] == w.trace;
    forall i | 0 <= i < |t| && t[i] == Touched ensures EndsVerified(t[..i]) {
      assert t[..i] == w.trace[..i];
    }
  }

  lemma StepGated(r: Running, s: Step, script: Script)
    requires Gated(r.w)
    ensures Gated(AfterStep(r, s, script).w)
  {
    hide Gated;
    GatedAppend(r.w, Work(s), r.w.sentinel);
    var worked := r.w.(trace := r.w.trace + [Work(s)]);
    GatedAppend(worked, Complete(s), r.w.sentinel);
    DiskIrrelevant(worked.(trace := worked.trace + [Complete(s)]), Saved(r.st.(flags := SetFlag(r.st.flags, s))));
  }

  lemma DiskIrrelevant(w: World, disk: Disk)
    ensures Gated(w.(disk := disk)) == Gated(w)
  {
  }

  lemma StepsGated(r: Running, script: Script)
    requires Gated(r.w)
    ensures Gated(AfterSteps(r, script).w)
  {
    hide AfterStep, Gated;
    var r1 := AfterStep(r, UsersDb, script);
    var r2 := AfterStep(r1, Oidc, script);
    var r3 := AfterStep(r2, Templates, script);
    StepGated(r, UsersDb, script);
    StepGated(r1, Oidc, script);
    StepGated(r2, Templates, script);
    StepGated(r3, Cert, script);
    StepGated(AfterStep(r3, Cert, script), Npm, script);
  }

  lemma RecheckGated(r: Running, s: Step, script: Script)
    requires Gated(r.w)
    ensures Gated(AfterRecheck(r, s, script).w)
    ensures var r' := AfterRecheck(r, s, script);
      r'.outcome.Success? ==> r.outcome.Success? && r'.w.trace == r.w.trace + [Recheck(s)]
  {
    hide Gated;
    GatedAppend(r.w, Recheck(s), r.w.sentinel);
  }

  lemma VerifyAllGated(r: Running, script: Script)
    requires Gated(r.w)
    ensures var r' := AfterVerifyAll(r, script); Gated(r'.w) && (r'.outcome.Success? ==> EndsVerified(r'.w.trace))
  {
    hide AfterRecheck, Gated;
    var r1 := AfterRecheck(r, UsersDb, script);
    var r2 := AfterRecheck(r1, Templates, script);
    var r3 := AfterRecheck(r2, Cert, script);
    var r4 := AfterRecheck(r3, Npm, script);
    RecheckGated(r, UsersDb, script);
    RecheckGated(r1, Templates, script);
    RecheckGated(r2, Cert, script);
    RecheckGated(r3, Npm, script);
    if r4.outcome.Success? {
      assert r4.w.trace == r.w.trace + VERIFIED;
    }
  }

  lemma EndGated(r: Running, script: Script)
    requires Gated(r.w) && (r.outcome.Success? ==> EndsVerified(r.w.trace))
    ensures Gated(AfterScrub(AfterSentinel(r, script), script).w)
  {
    hide Gated, EndsVerified;
    var sentinel := r.w.sentinel || !script.touch.NotCreated?;
    if r.outcome.Success? { GatedAppend(r.w, Touched, sentinel); }
    var touched := r.w.(trace := r.w.trace + [Touched], sentinel := sentinel);
    var s := AfterSentinel(r, script);
    DiskIrrelevant(touched, s.w.disk);
    DiskIrrelevant(s.w, AfterScrub(s, script).w.disk);
  }

  lemma RunGated(w: World, script: Script)
    requires Gated(w)
    ensures Gated(RunOnce(w, script).w)
  {
    hide AfterSteps, AfterVerifyAll, AfterSentinel, AfterScrub, Gated, EndsVerified;
    GatedAppend(w, Begin, w.sentinel);
    StepsGated(Started(w), script);
    VerifyAllGated(AfterSteps(Started(w), script), script);
    EndGated(AfterVerifyAll(AfterSteps(Started(w), script), script), script);
  }

  /** Over every sequence of actions. */
  lemma {:induction false} SentinelIsGated(w: World, actions: seq<Action>)
    requires Gated(w)
    ensures Gated(After(w, actions))
    decreases |actions|
  {
    hide RunOnce;
    if actions != [] {
      if actions[0].Run? { RunGated(w, actions[0].script); }
      SentinelIsGated(Next(w, actions[0]), actions[1..]);
    }
  }

  // --- a completed step's worker is not called again ---------------------------------------------------------

  predicate NeverRepeated(t: seq<Event>) {
    forall i, j :: 0 <= i < j < |t| && t[i].Complete? ==> t[j] != Work(t[i].step)
  }

  predicate AllFlagged(t: seq<Event>, f: Flags) {
    forall s :: Complete(s) in t ==> Flag(f, s)
  }

  predicate Resumable(w: World) {
    NeverRepeated(w.trace) && AllFlagged(w.trace, Loaded(w.disk).flags)
  }

  predicate InStep(r: Running) {
    Resumable(r.w) && AllFlagged(r.w.trace, r.st.flags)
  }

  predicate SavesWork(a: Action) {
    a.Run? ==> forall s :: a.script.saves(s)
  }

  lemma NeverRepeatedAppend(t: seq<Event>, e: Event)
    requires NeverRepeated(t)
    requires e.Work? ==> Complete(e.step) !in t
    ensures NeverRepeated(t + [e])
  {
  }

  lemma StepResumes(r: Running, s: Step, script: Script)
    requires InStep(r) && script.saves(s)
    ensures InStep(AfterStep(r, s, script))
  {
    hide NeverRepeated;
    if r.outcome.Success? && !Flag(r.st.flags, s) {
      NeverRepeatedAppend(r.w.trace, Work(s));
      NeverRepeatedAppend(r.w.trace + [Work(s)], Complete(s));
    }
  }

  lemma StepsResume(r: Running, script: Script)
    requires InStep(r) && forall s :: script.saves(s)
    ensures InStep(AfterSteps(r, script))
  {
    hide AfterStep, InStep;
    var r1 := AfterStep(r, UsersDb, script);
    var r2 := AfterStep(r1, Oidc, script);
    var r3 := AfterStep(r2, Templates, script);
    StepResumes(r, UsersDb, script);
    StepResumes(r1, Oidc, script);
    StepResumes(r2, Templates, script);
    StepResumes(r3, Cert, script);
    StepResumes(AfterStep(r3, Cert, script), Npm, script);
  }

  lemma RecheckResumes(r: Running, s: Step, script: Script)
    requires InStep(r)
    ensures InStep(AfterRecheck(r, s, script))
  {
    NeverRepeatedAppend(r.w.trace, Recheck(s));
  }

  lemma VerifyAllResumes(r: Running, script: Script)
    requires InStep(r)
    ensures InStep(AfterVerifyAll(r, script))
  {
    hide AfterRecheck, InStep;
    var r1 := AfterRecheck(r, UsersDb, script);
    var r2 := AfterRecheck(r1, Templates, script);
    RecheckResumes(r, UsersDb, script);
    RecheckResumes(r1, Templates, script);
    RecheckResumes(r2, Cert, script);
    RecheckResumes(AfterRecheck(r2, Cert, script), Npm, script);
  }

  lemma EndResumes(r: Running, script: Script)
    requires InStep(r)
    ensures Resumable(AfterScrub(AfterSentinel(r, script), script).w)
  {
    hide NeverRepeated;
    NeverRepeatedAppend(r.w.trace, Touched);
    var s := AfterSentinel(r, script);
    assert InStep(s);
  }

  lemma RunResumes(w: World, script: Script)
    requires Resumable(w) && forall s :: script.saves(s)
    ensures Resumable(RunOnce(w, script).w)
  {
    hide AfterSteps, AfterVerifyAll, AfterSentinel, AfterScrub, NeverRepeated;
    NeverRepeatedAppend(w.trace, Begin);
    var r := Started(w);
    assert InStep(r);
    StepsResume(r, script);
    VerifyAllResumes(AfterSteps(r, script), script);
    EndResumes(AfterVerifyAll(AfterSteps(r, script), script), script);
  }

  /** While the saves after the steps succeed, whatever else fails and however often finalize
      is run again, a completed step's worker is never called again. */
  lemma {:induction false} WorkIsNotRepeated(w: World, actions: seq<Action>)
    requires Resumable(w)
    requires forall a :: a in actions ==> SavesWork(a)
    ensures Resumable(After(w, actions))
    decreases |actions|
  {
    hide RunOnce, NeverRepeated;
    if actions != [] {
      assert SavesWork(actions[0]);
      if actions[0].Run? { RunResumes(w, actions[0].script); }
      WorkIsNotRepeated(Next(w, actions[0]), actions[1..]);
    }
  }

  // --- what success leaves behind ------------------------------------------------------------------------------

  const ALL_FLAGS := Flags(true, true, true, true, true, true)

  lemma StepsComplete(r: Running, script: Script)
    ensures var r' := AfterSteps(r, script);
      && r'.w.sentinel == r.w.sentinel && r'.st.flags.sentinel == r.st.flags.sentinel
      && r'.st.(flags := r.st.flags) == r.st
      && (r'.outcome.Success? ==> forall s :: Flag(r'.st.flags, s))
  {
    hide AfterStep;
    var r1 := AfterStep(r, UsersDb, script);
    var r2 := AfterStep(r1, Oidc, script);
    var r3 := AfterStep(r2, Templates, script);
    var r4 := AfterStep(r3, Cert, script);
    StepCompletes(r, UsersDb, script);
    StepCompletes(r1, Oidc, script);
    StepCompletes(r2, Templates, script);
    StepCompletes(r3, Cert, script);
    StepCompletes(r4, Npm, script);
  }

  lemma StepCompletes(r: Running, s: Step, script: Script)
    ensures var r' := AfterStep(r, s, script);
      && r'.w.sentinel == r.w.sentinel && r'.st.flags.sentinel == r.st.flags.sentinel
      && r'.st.(flags := r.st.flags) == r.st
      && (r'.outcome.Success? ==> r.outcome.Success? && Flag(r'.st.flags, s))
      && (forall q :: Flag(r.st.flags, q) ==> Flag(r'.st.flags, q))
  {
  }

  /** A run that succeeds leaves every flag set and both secrets scrubbed on disk, with the
      operator's name kept. The sentinel is there exactly if this run had still to create it
      or nobody had deleted it. */
  lemma SuccessLeaves(w: World, script: Script)
    requires RunOnce(w, script).outcome.Success?
    ensures var after := RunOnce(w, script).w;
      && after.disk == Saved(Setup(ALL_FLAGS, Loaded(w.disk).username, "", map[]))
      && (after.sentinel <==> !Loaded(w.disk).flags.sentinel || w.sentinel)
  {
    hide AfterSteps, AfterVerifyAll;
    var r := AfterSteps(Started(w), script);
    StepsComplete(Started(w), script);
    VerifyAllOnlyLooks(r, script);
    assert Flag(r.st.flags, UsersDb) && Flag(r.st.flags, Oidc) && Flag(r.st.flags, Templates);
    assert Flag(r.st.flags, Cert) && Flag(r.st.flags, Npm);
  }

  /** A recorded flag is never lost, whatever a run meets. */
  lemma RunKeepsSentinelFlag(w: World, script: Script)
    ensures var after := RunOnce(w, script).w;
      && (Loaded(w.disk).flags.sentinel ==> Loaded(after.disk).flags.sentinel && after.sentinel == w.sentinel)
      && (Loaded(after.disk).flags.sentinel && !Loaded(w.disk).flags.sentinel ==> after.sentinel)
      && (w.sentinel ==> after.sentinel)
  {
    hide AfterSteps, AfterVerifyAll;
    StepsKeepSentinel(Started(w), script);
    VerifyAllOnlyLooks(AfterSteps(Started(w), script), script);
  }

  /** The sentinel's flag is the same in memory, on disk and as it was. */
  predicate FlagKept(r: Running, sentinel: bool, flag: bool) {
    r.w.sentinel == sentinel && r.st.flags.sentinel == flag == Loaded(r.w.disk).flags.sentinel
  }

  lemma StepsKeepSentinel(r: Running, script: Script)
    requires FlagKept(r, r.w.sentinel, r.st.flags.sentinel)
    ensures FlagKept(AfterSteps(r, script), r.w.sentinel, r.st.flags.sentinel)
  {
    hide AfterStep, FlagKept;
    var r1 := AfterStep(r, UsersDb, script);
    var r2 := AfterStep(r1, Oidc, script);
    var r3 := AfterStep(r2, Templates, script);
    var sentinel, flag := r.w.sentinel, r.st.flags.sentinel;
    StepKeepsSentinel(r, UsersDb, script, sentinel, flag);
    StepKeepsSentinel(r1, Oidc, script, sentinel, flag);
    StepKeepsSentinel(r2, Templates, script, sentinel, flag);
    StepKeepsSentinel(r3, Cert, script, sentinel, flag);
    StepKeepsSentinel(AfterStep(r3, Cert, script), Npm, script, sentinel, flag);
  }

  lemma StepKeepsSentinel(r: Running, s: Step, script: Script, sentinel: bool, flag: bool)
    requires FlagKept(r, sentinel, flag)
    ensures FlagKept(AfterStep(r, s, script), sentinel, flag)
  {
  }

  predicate Standing(w: World) {
    Loaded(w.disk).flags.sentinel ==> w.sentinel
  }

  /** While nobody deletes it, the sentinel is there whenever the state says so; with
      `SuccessLeaves`, every successful run then leaves it in place. */
  lemma {:induction false} SentinelStands(w: World, actions: seq<Action>)
    requires Standing(w)
    requires DeleteSentinel !in actions
    ensures Standing(After(w, actions))
    decreases |actions|
  {
    hide RunOnce;
    if actions != [] {
      if actions[0].Run? { RunKeepsSentinelFlag(w, actions[0].script); }
      SentinelStands(Next(w, actions[0]), actions[1..]);
    }
  }

  /** A successful run leaves the sentinel in place if nobody ever deletes it. */
  lemma SuccessStands(w: World, actions: seq<Action>, script: Script)
    requires Standing(w) && DeleteSentinel !in actions
    requires RunOnce(After(w, actions), script).outcome.Success?
    ensures RunOnce(After(w, actions), script).w.sentinel
  {
    hide RunOnce;
    SentinelStands(w, actions);
    SuccessLeaves(After(w, actions), script);
  }

  /** Everything recorded, the file deleted, and a run in which every call succeeds: it
      reports success and leaves no sentinel. */
  lemma RecoveryLeavesNoSentinel(username: string, t: seq<Event>)
    ensures var w := World(Saved(Setup(ALL_FLAGS, username, "", map[])), false, t);
      var script := Script(true, _ => true, _ => true, _ => true, _ => true, Created, true, true);
      RunOnce(w, script).outcome.Success? && !RunOnce(w, script).w.sentinel
  {
    hide RunOnce, StepPasses;
    var w := World(Saved(Setup(ALL_FLAGS, username, "", map[])), false, t);
    var script := Script(true, _ => true, _ => true, _ => true, _ => true, Created, true, true);
    forall s ensures StepPasses(Loaded(w.disk), s, script) { FlaggedPasses(Loaded(w.disk), s, script); }
    SucceedsIff(w, script);
    RunKeepsSentinelFlag(w, script);
  }

  lemma FlaggedPasses(st: Setup, s: Step, script: Script)
    requires st.flags == ALL_FLAGS
    ensures StepPasses(st, s, script)
  {
  }

  /** Once its flag is recorded, a deleted sentinel never comes back: the runs after it may
      succeed, but setup mode does not end again. */
  lemma {:induction false} DeletedStaysGone(w: World, actions: seq<Action>)
    requires Loaded(w.disk).flags.sentinel && !w.sentinel
    ensures !After(w, actions).sentinel
    decreases |actions|
  {
    hide RunOnce;
    if actions != [] {
      if actions[0].Run? { RunKeepsSentinelFlag(w, actions[0].script); }
      DeletedStaysGone(Next(w, actions[0]), actions[1..]);
    }
  }

  // --- what a failure leaves behind ------------------------------------------------------------------------------

  /** The two differ in nothing but flags. */
  predicate SameButFlags(st: Setup, was: Setup) {
    st.username == was.username && st.passwordHash == was.passwordHash && st.creds == was.creds
  }

  /** Both in memory and on disk. */
  predicate Intact(r: Running, was: Setup) {
    SameButFlags(r.st, was) && SameButFlags(Loaded(r.w.disk), was)
  }

  lemma StepIntact(r: Running, s: Step, script: Script, was: Setup)
    requires Intact(r, was)
    ensures Intact(AfterStep(r, s, script), was)
  {
  }

  lemma StepsIntact(r: Running, script: Script, was: Setup)
    requires Intact(r, was)
    ensures Intact(AfterSteps(r, script), was)
  {
    hide AfterStep, Intact;
    var r1 := AfterStep(r, UsersDb, script);
    var r2 := AfterStep(r1, Oidc, script);
    var r3 := AfterStep(r2, Templates, script);
    StepIntact(r, UsersDb, script, was);
    StepIntact(r1, Oidc, script, was);
    StepIntact(r2, Templates, script, was);
    StepIntact(r3, Cert, script, was);
    StepIntact(AfterStep(r3, Cert, script), Npm, script, was);
  }

  /** A run that fails, wherever it fails, leaves on disk the name, the password hash and the
      credentials it found there: nothing a retry needs is lost. */
  lemma FailureKeepsSecrets(w: World, script: Script)
    requires RunOnce(w, script).outcome.Failure?
    ensures var st, was := Loaded(RunOnce(w, script).w.disk), Loaded(w.disk);
      st.username == was.username && st.passwordHash == was.passwordHash && st.creds == was.creds
  {
    hide AfterSteps, AfterVerifyAll;
    StepsIntact(Started(w), script, Loaded(w.disk));
    VerifyAllOnlyLooks(AfterSteps(Started(w), script), script);
  }

  /** No run among the actions succeeds. */
  predicate NoneSucceeds(w: World, actions: seq<Action>)
    decreases |actions|
  {
    actions == [] ||
    (&& (actions[0].Run? ==> RunOnce(w, actions[0].script).outcome.Failure?)
     && NoneSucceeds(Next(w, actions[0]), actions[1..]))
  }

  /** What a wizard page saved stays on disk until a run succeeds or a page saves again. */
  lemma {:induction false} SavedUntilSuccess(w: World, actions: seq<Action>)
    requires NoneSucceeds(w, actions)
    requires forall a :: a in actions ==> !a.Wizard?
    ensures var st, was := Loaded(After(w, actions).disk), Loaded(w.disk);
      st.username == was.username && st.passwordHash == was.passwordHash && st.creds == was.creds
    decreases |actions|
  {
    hide RunOnce;
    if actions != [] {
      assert actions[0] in actions;
      if actions[0].Run? { FailureKeepsSecrets(w, actions[0].script); }
      SavedUntilSuccess(Next(w, actions[0]), actions[1..]);
    }
  }

  /** In particular from the page's own save on. */
  lemma WizardSaveLasts(w: World, page: Action, actions: seq<Action>)
    requires page.Wizard? && NoneSucceeds(Next(w, page), actions)
    requires forall a :: a in actions ==> !a.Wizard?
    ensures var st := Loaded(After(Next(w, page), actions).disk);
      st.username == page.username && st.passwordHash == page.passwordHash && st.creds == page.creds
  {
    SavedUntilSuccess(Next(w, page), actions);
  }

  // --- a flag is earned ------------------------------------------------------------------------------------------

  /** Every completion directly follows a call of its worker. */
  predicate WorkedFirst(t: seq<Event>) {
    forall i :: 0 <= i < |t| && t[i].Complete? ==> i > 0 && t[i - 1] == Work(t[i].step)
  }

  predicate FlagsEarned(f: Flags, t: seq<Event>) {
    (forall s :: Flag(f, s) ==> Complete(s) in t) && (f.sentinel ==> Touched in t)
  }

  /** A flag on disk has its completed work behind it. */
  predicate Earned(w: World) {
    WorkedFirst(w.trace) && FlagsEarned(Loaded(w.disk).flags, w.trace)
  }

  predicate Earning(r: Running) {
    Earned(r.w) && FlagsEarned(r.st.flags, r.w.trace)
  }

  lemma WorkedFirstAppend(t: seq<Event>, e: Event)
    requires WorkedFirst(t)
    requires e.Complete? ==> t != [] && t[|t| - 1] == Work(e.step)
    ensures WorkedFirst(t + [e])
  {
  }

  lemma StepEarns(r: Running, s: Step, script: Script)
    requires Earning(r)
    ensures Earning(AfterStep(r, s, script))
  {
    hide WorkedFirst, FlagsEarned;
    var t := r.w.trace + [Work(s)];
    WorkedFirstAppend(r.w.trace, Work(s));
    WorkedFirstAppend(t, Complete(s));
    StillEarned(r.st.flags, r.w.trace, Work(s));
    StillEarned(r.st.flags, t, Complete(s));
    StillEarned(Loaded(r.w.disk).flags, r.w.trace, Work(s));
    StillEarned(Loaded(r.w.disk).flags, t, Complete(s));
    NowEarned(r.st.flags, t, s);
  }

  lemma StillEarned(f: Flags, t: seq<Event>, e: Event)
    requires FlagsEarned(f, t)
    ensures FlagsEarned(f, t + [e])
  {
  }

  lemma NowEarned(f: Flags, t: seq<Event>, s: Step)
    requires FlagsEarned(f, t)
    ensures FlagsEarned(SetFlag(f, s), t + [Complete(s)])
  {
  }

  lemma StepsEarn(r: Running, script: Script)
    requires Earning(r)
    ensures Earning(AfterSteps(r, script))
  {
    hide AfterStep, Earning;
    var r1 := AfterStep(r, UsersDb, script);
    var r2 := AfterStep(r1, Oidc, script);
    var r3 := AfterStep(r2, Templates, script);
    StepEarns(r, UsersDb, script);
    StepEarns(r1, Oidc, script);
    StepEarns(r2, Templates, script);
    StepEarns(r3, Cert, script);
    StepEarns(AfterStep(r3, Cert, script), Npm, script);
  }

  lemma RecheckEarns(r: Running, s: Step, script: Script)
    requires Earning(r)
    ensures Earning(AfterRecheck(r, s, script))
  {
    hide WorkedFirst;
    WorkedFirstAppend(r.w.trace, Recheck(s));
  }

  lemma VerifyAllEarns(r: Running, script: Script)
    requires Earning(r)
    ensures Earning(AfterVerifyAll(r, script))
  {
    hide AfterRecheck, Earning;
    var r1 := AfterRecheck(r, UsersDb, script);
    var r2 := AfterRecheck(r1, Templates, script);
    RecheckEarns(r, UsersDb, script);
    RecheckEarns(r1, Templates, script);
    RecheckEarns(r2, Cert, script);
    RecheckEarns(AfterRecheck(r2, Cert, script), Npm, script);
  }

  lemma EndEarns(r: Running, script: Script)
    requires Earning(r)
    ensures Earned(AfterScrub(AfterSentinel(r, script), script).w)
  {
    hide WorkedFirst;
    WorkedFirstAppend(r.w.trace, Touched);
  }

  lemma RunEarns(w: World, script: Script)
    requires Earned(w)
    ensures Earned(RunOnce(w, script).w)
  {
    hide AfterSteps, AfterVerifyAll, AfterSentinel, AfterScrub, WorkedFirst;
    WorkedFirstAppend(w.trace, Begin);
    var r := Started(w);
    assert Earning(r);
    StepsEarn(r, script);
    VerifyAllEarns(AfterSteps(r, script), script);
    EndEarns(AfterVerifyAll(AfterSteps(r, script), script), script);
  }

  /** Over every sequence of actions, a step recorded on disk was completed directly after its
      worker was called, and a recorded sentinel was touched. */
  lemma {:induction false} FlagsAreEarned(w: World, actions: seq<Action>)
    requires Earned(w)
    ensures Earned(After(w, actions))
    decreases |actions|
  {
    hide RunOnce, WorkedFirst;
    if actions != [] {
      if actions[0].Run? { RunEarns(w, actions[0].script); }
      FlagsAreEarned(Next(w, actions[0]), actions[1..]);
    }
  }

  // --- when a run succeeds ---------------------------------------------------------------------------------------

  predicate StepPasses(st: Setup, s: Step, script: Script) {
    Flag(st.flags, s) || (WorkSucceeds(st, s, script) && VerifySucceeds(s, script))
  }

  /** A run succeeds exactly if every step not yet recorded works and, but for the rotation,
      verifies, an admin not yet written has a name and a hash, every verification passes again, an unrecorded sentinel is created, and the final save goes
      through. No other save decides it. */
  lemma SucceedsIff(w: World, script: Script)
    ensures RunOnce(w, script).outcome.Success? <==>
      && script.loads
      && (forall s :: Flag(Loaded(w.disk).flags, s) || (script.works(s) && (s == Oidc || script.verifies(s))))
      && (Loaded(w.disk).flags.usersDb || (Loaded(w.disk).username != "" && Loaded(w.disk).passwordHash != ""))
      && (forall s :: s != Oidc ==> script.rechecks(s))
      && (Loaded(w.disk).flags.sentinel || script.touch.Created?)
      && script.savesScrub
  {
    hide AfterSteps, AfterVerifyAll;
    var r := AfterSteps(Started(w), script);
    StepsPass(Started(w), script);
    PassesIff(Loaded(w.disk), script);
    StepsComplete(Started(w), script);
    VerifyAllPasses(r, script);
    VerifyAllOnlyLooks(r, script);
  }

  lemma PassesIff(st: Setup, script: Script)
    ensures (forall s :: StepPasses(st, s, script)) <==>
      && (forall s :: Flag(st.flags, s) || (script.works(s) && (s == Oidc || script.verifies(s))))
      && (st.flags.usersDb || (st.username != "" && st.passwordHash != ""))
  {
    if forall s :: StepPasses(st, s, script) {
      assert StepPasses(st, UsersDb, script);
      forall s ensures Flag(st.flags, s) || (script.works(s) && (s == Oidc || script.verifies(s))) {
        assert StepPasses(st, s, script);
      }
    } else {
      var s :| !StepPasses(st, s, script);
      assert s == UsersDb ==> Flag(st.flags, s) == st.flags.usersDb;
    }
  }

  lemma StepsPass(r: Running, script: Script)
    requires r.outcome.Success?
    ensures AfterSteps(r, script).outcome.Success? <==> forall s :: StepPasses(r.st, s, script)
  {
    hide AfterStep, StepPasses;
    var r1 := AfterStep(r, UsersDb, script);
    var r2 := AfterStep(r1, Oidc, script);
    var r3 := AfterStep(r2, Templates, script);
    var r4 := AfterStep(r3, Cert, script);
    StepPass(r, UsersDb, script);
    StepPass(r1, Oidc, script);
    StepPass(r2, Templates, script);
    StepPass(r3, Cert, script);
    StepPass(r4, Npm, script);
    forall s | AfterSteps(r, script).outcome.Success? ensures StepPasses(r.st, s, script) {
      if s == UsersDb || s == Oidc || s == Templates || s == Cert || s == Npm {}
    }
  }

  /** A step's outcome, and what it leaves of the later steps' conditions. */
  lemma StepPass(r: Running, s: Step, script: Script)
    ensures var r' := AfterStep(r, s, script);
      && (r'.outcome.Success? <==> r.outcome.Success? && StepPasses(r.st, s, script))
      && (forall q :: q != s ==> StepPasses(r'.st, q, script) == StepPasses(r.st, q, script))
  {
  }

  lemma VerifyAllPasses(r: Running, script: Script)
    ensures AfterVerifyAll(r, script).outcome.Success? <==> r.outcome.Success? && forall s :: s != Oidc ==> script.rechecks(s)
  {
    if r.outcome.Success? && script.rechecks(UsersDb) && script.rechecks(Templates) && script.rechecks(Cert) && script.rechecks(Npm) {
      forall s | s != Oidc ensures script.rechecks(s) {
        match s case UsersDb => case Templates => case Cert => case Npm =>
      }
    }
  }

  // --- what a failed run reports -----------------------------------------------------------------------------------

  const STEPS := [UsersDb, Oidc, Templates, Cert, Npm]
  const RECHECKS := [UsersDb, Templates, Cert, Npm]

  /** The steps before the k-th pass, and it does not. */
  predicate FirstToFail(st: Setup, k: nat, script: Script)
    requires k < 5
  {
    !StepPasses(st, STEPS[k], script) && forall i :: 0 <= i < k ==> StepPasses(st, STEPS[i], script)
  }

  predicate FirstRecheckToFail(k: nat, script: Script)
    requires k < 4
  {
    !script.rechecks(RECHECKS[k]) && forall i :: 0 <= i < k ==> script.rechecks(RECHECKS[i])
  }

  lemma StepFails(r: Running, s: Step, script: Script)
    ensures var r' := AfterStep(r, s, script);
      && (r.outcome.Success? && !StepPasses(r.st, s, script) ==> r'.outcome == Failure(AtStep(s)))
      && (r.outcome.Failure? ==> r'.outcome == r.outcome)
  {
  }

  lemma StepsFailAt(r: Running, script: Script, k: nat)
    requires r.outcome.Success? && k < 5 && FirstToFail(r.st, k, script)
    ensures AfterSteps(r, script).outcome == Failure(AtStep(STEPS[k]))
  {
    hide AfterStep, StepPasses;
    var r1 := AfterStep(r, UsersDb, script);
    var r2 := AfterStep(r1, Oidc, script);
    var r3 := AfterStep(r2, Templates, script);
    var r4 := AfterStep(r3, Cert, script);
    StepPass(r, UsersDb, script);
    StepPass(r1, Oidc, script);
    StepPass(r2, Templates, script);
    StepPass(r3, Cert, script);
    StepPass(r4, Npm, script);
    StepFails(r, UsersDb, script);
    StepFails(r1, Oidc, script);
    StepFails(r2, Templates, script);
    StepFails(r3, Cert, script);
    StepFails(r4, Npm, script);
    assert forall i :: 0 <= i < k ==> StepPasses(r.st, STEPS[i], script);
    assert STEPS[0] == UsersDb && STEPS[1] == Oidc && STEPS[2] == Templates && STEPS[3] == Cert && STEPS[4] == Npm;
  }

  lemma RechecksFailAt(r: Running, script: Script, k: nat)
    requires r.outcome.Success? && k < 4 && FirstRecheckToFail(k, script)
    ensures AfterVerifyAll(r, script).outcome == Failure(AtStep(RECHECKS[k]))
  {
    assert RECHECKS[0] == UsersDb && RECHECKS[1] == Templates && RECHECKS[2] == Cert && RECHECKS[3] == Npm;
  }

  /** The error a run returns names the first thing that went wrong: loading, the first step
      that does not pass, the first verification that fails again, the sentinel, or the final
      save. */
  lemma FailureNamesTheFirst(w: World, script: Script)
    ensures var r := RunOnce(w, script);
      && (!script.loads ==> r.outcome == Failure(LoadState))
      && (forall k: nat | k < 5 :: script.loads && FirstToFail(Loaded(w.disk), k, script) ==> r.outcome == Failure(AtStep(STEPS[k])))
      && (script.loads && (forall s :: StepPasses(Loaded(w.disk), s, script)) ==>
            && (forall k: nat | k < 4 :: FirstRecheckToFail(k, script) ==> r.outcome == Failure(AtStep(RECHECKS[k])))
            && ((forall s :: s != Oidc ==> script.rechecks(s)) ==>
                 && (!Loaded(w.disk).flags.sentinel && !script.touch.Created? ==> r.outcome == Failure(AtSentinel))
                 && (Loaded(w.disk).flags.sentinel || script.touch.Created? ==>
                       r.outcome == if script.savesScrub then Success else Failure(SaveState))))
  {
    hide AfterSteps, AfterVerifyAll, FirstToFail, FirstRecheckToFail, StepPasses;
    var start := Started(w);
    var r := AfterSteps(start, script);
    forall k: nat | k < 5 && FirstToFail(Loaded(w.disk), k, script) ensures r.outcome == Failure(AtStep(STEPS[k])) {
      StepsFailAt(start, script, k);
    }
    AlreadyFailed(r, script);
    StepsPass(start, script);
    if r.outcome.Success? {
      forall k: nat | k < 4 && FirstRecheckToFail(k, script) ensures AfterVerifyAll(r, script).outcome == Failure(AtStep(RECHECKS[k])) {
        RechecksFailAt(r, script, k);
      }
    }
    StepsComplete(start, script);
    VerifyAllPasses(r, script);
    VerifyAllOnlyLooks(r, script);
  }

  lemma AlreadyFailed(r: Running, script: Script)
    ensures r.outcome.Failure? ==> AfterVerifyAll(r, script) == r
  {
  }

  // --- the first start -----------------------------------------------------------------------------------------------

  /** Before anything has run, every assumption of the laws over runs holds. */
  lemma FirstStart()
    ensures var w := World(NoFile, false, []);
      IsPrefix(Loaded(w.disk).flags) && Gated(w) && Resumable(w) && Earned(w) && Standing(w)
  {
  }
}
