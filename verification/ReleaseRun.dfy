/** Protected release runs: one registry slot shared by all machines, runs that take it, test, clean up and
    give it back, and every way they can interleave, crash and be recovered. One live process per run id. */
module ReleaseRun {
  import opened Common

  type RunId = string
  type Digest = string

  /** What the processes share: the registry slot, the stored catalogue digests, and whose fixture rows exist. */
  datatype Shared = Shared(slot: Option<RunId>, digests: map<RunId, Digest>, fixtures: set<RunId>)

  // ----- live-run-mode.ts --------------------------------------------------------------------

  datatype ActiveState = Acquired | Interrupted
  datatype Mode = New | Preacquired | Recover | RecoverIfOwned | VerifyTarget | VerifyRecover
  datatype Action = Cleanup | ReleaseNoop | Run | Refuse

  /** resolveLiveRunAction; Refuse is its exception. The last two modes are those of verify-live-target.ts,
      which only takes the slot, or gives it back when a recovery finds nothing interrupted. */
  function ResolveAction(state: ActiveState, mode: Mode): Action {
    match mode
    case Recover => if state == Acquired then Refuse else Cleanup
    case RecoverIfOwned => if state == Interrupted then Cleanup else ReleaseNoop
    case New => if state == Interrupted then Refuse else Run
    case Preacquired => if state == Interrupted then Refuse else Run
    case VerifyTarget => Refuse
    case VerifyRecover => Refuse
  }

  // ----- active-run-registry.ts --------------------------------------------------------------

  /** How a request to the registry can go: answered, or failed before or after it took effect. */
  datatype Net = Answered | LostBefore | LostAfter

  /** SET release:active-run runId NX */
  function TakeSlot(s: Shared, run: RunId, net: Net): Shared {
    if s.slot.None? && net != LostBefore then s.(slot := Some(run)) else s
  }

  /** The compare-and-delete script. */
  function FreeSlot(s: Shared, run: RunId, net: Net): Shared {
    if s.slot == Some(run) && net != LostBefore then s.(slot := None) else s
  }

  /** SET release:catalogue-digest:runId digest NX */
  function StoreDigest(s: Shared, run: RunId, digest: Digest, net: Net): Shared {
    if run !in s.digests && net != LostBefore then s.(digests := s.digests[run := digest]) else s
  }

  // ----- one process, step by step -----------------------------------------------------------

  datatype Pc =
    | Ask            // assertActiveRunOwner, or the SET of acquireActiveRun
    | Reread         // the GET of acquireActiveRun
    | Resolve        // resolveLiveRunAction
    | ReleaseEarly   // the releases that follow no test and no cleanup
    | Prepare        // inventory and consumer isolation
    | Baseline       // cleanup.ts --assert-clean
    | Snapshot       // cleanup.ts --dry-run
    | Persist        // persistCatalogueDigest
    | Isolation      // the second consumer isolation check
    | Tests          // the integration tests
    | ReadDigest     // readCatalogueDigest
    | CleanupOwner   // cleanup.ts --apply: assertActiveRunOwner
    | CleanupApply   // cleanup.ts --apply: deletion and residue check
    | Judge          // the verdict in the finally block and after it
    | Release        // releaseActiveRun after the cleanup

  datatype Process = Process(
    run: RunId,
    mode: Mode,
    pc: Pc,
    state: ActiveState,
    action: Action,
    before: Option<Digest>,   // catalogueDigestBefore
    threw: bool,              // an exception is pending through the finally block
    cleanExit: bool,          // the cleanup child exited with 0
    after: Option<Digest>     // the digest it printed, if readable
  )

  function NewProcess(run: RunId, mode: Mode): Process {
    Process(run, mode, Ask, Acquired, Refuse, None, false, false, None)
  }

  /** What a step leaves open: the fate of a request, the success of a child or check, the digest a child
      prints, and whether a child that fails, or the tests, have changed the fixture rows. */
  datatype Choice = Choice(net: Net, ok: bool, digest: Option<Digest>, rows: bool)

  /** The shared state after a step and the process, unless it has ended. */
  datatype Outcome = Outcome(shared: Shared, process: Option<Process>)

  function Goto(s: Shared, p: Process, pc: Pc): Outcome {
    Outcome(s, Some(p.(pc := pc)))
  }

  function Throw(s: Shared, p: Process): Outcome {
    Outcome(s, Some(p.(threw := true, pc := CleanupOwner)))
  }

  function Exit(s: Shared): Outcome {
    Outcome(s, None)
  }

  /** An empty baseline digest counts as none. */
  predicate IsSet(digest: Option<Digest>) {
    digest.Some? && digest.value != ""
  }

  /** Whether the finally block sets cleanupSucceeded. */
  predicate CleanupSucceeded(p: Process) {
    p.cleanExit && (IsSet(p.before) ==> p.after == p.before)
  }

  function StepProcess(s: Shared, p: Process, c: Choice): Outcome {
    match p.pc
    case Ask =>
      if p.mode == Preacquired then
        if c.net == Answered && s.slot == Some(p.run) then Goto(s, p.(state := Acquired), Resolve) else Exit(s)
      else
        var taken := TakeSlot(s, p.run, c.net);
        if c.net != Answered then Exit(taken)
        else if s.slot.None? then Goto(taken, p.(state := Acquired), Resolve)
        else Goto(s, p, Reread)
    case Reread =>
      if c.net == Answered && s.slot == Some(p.run) then Goto(s, p.(state := Interrupted), Resolve) else Exit(s)
    case Resolve =>
      var action := ResolveAction(p.state, p.mode);
      if action == Refuse then
        if p.state == Acquired && (p.mode == Recover || p.mode == VerifyRecover) then Goto(s, p, ReleaseEarly) else Exit(s)
      else if action == ReleaseNoop then Goto(s, p, ReleaseEarly)
      else Goto(s, p.(action := action), Prepare)
    case ReleaseEarly => Exit(FreeSlot(s, p.run, c.net))
    case Prepare =>
      if !c.ok then Exit(s) else Goto(s, p, if p.action == Run then Baseline else ReadDigest)
    case Baseline =>
      if c.ok && s.slot == Some(p.run) && p.run !in s.fixtures then Goto(s, p, Snapshot) else Exit(s)
    case Snapshot =>
      if c.ok && c.digest.Some? then Goto(s, p.(before := c.digest), Persist) else Throw(s, p)
    case Persist =>
      if p.before.None? then Throw(s, p)
      else
        var stored := StoreDigest(s, p.run, p.before.value, c.net);
        if c.net == Answered && p.run !in s.digests then Goto(stored, p, Isolation) else Throw(stored, p)
    case Isolation =>
      if c.ok then Goto(s, p, Tests) else Throw(s, p)
    case Tests =>
      Goto(if c.rows then s.(fixtures := s.fixtures + {p.run}) else s, p, CleanupOwner)
    case ReadDigest =>
      if c.net == Answered && p.run in s.digests then Goto(s, p.(before := Some(s.digests[p.run])), CleanupOwner)
      else Throw(s, p)
    case CleanupOwner =>
      if c.ok && s.slot == Some(p.run) then Goto(s, p, CleanupApply) else Goto(s, p.(cleanExit := false), Judge)
    case CleanupApply =>
      var cleaned := s.(fixtures := s.fixtures - {p.run});
      if c.ok then Goto(cleaned, p.(cleanExit := true, after := c.digest), Judge)
      else Goto(if c.rows then cleaned else s, p.(cleanExit := false), Judge)
    case Judge =>
      if CleanupSucceeded(p) && !p.threw && IsSet(p.before) then Goto(s, p, Release) else Exit(s)
    case Release => Exit(FreeSlot(s, p.run, c.net))
  }

  // ----- all processes -----------------------------------------------------------------------

  datatype World = World(shared: Shared, processes: map<RunId, Process>)

  datatype Event =
    | Start(run: RunId, mode: Mode)
    | Crash(run: RunId)
    | TestWrites(run: RunId)
    | Step(run: RunId, choice: Choice)

  const INITIAL := World(Shared(None, map[], {}), map[])

  predicate Enabled(w: World, e: Event) {
    match e
    case Start(run, _) => run !in w.processes
    case Crash(run) => run in w.processes
    case TestWrites(run) => run in w.processes && w.processes[run].pc == Tests
    case Step(run, _) => run in w.processes
  }

  function Next(w: World, e: Event): World
    requires Enabled(w, e)
  {
    match e
    case Start(run, mode) => w.(processes := w.processes[run := NewProcess(run, mode)])
    case Crash(run) => w.(processes := w.processes - {run})
    case TestWrites(run) => w.(shared := w.shared.(fixtures := w.shared.fixtures + {run}))
    case Step(run, choice) =>
      var o := StepProcess(w.shared, w.processes[run], choice);
      World(o.shared, if o.process.Some? then w.processes[run := o.process.value] else w.processes - {run})
  }

  /** The world a sequence of events leads to, unless one of them is impossible. */
  function RunEvents(events: seq<Event>): Option<World> {
    if events == [] then Some(INITIAL)
    else
      match RunEvents(events[..|events| - 1])
      case None => None
      case Some(w) =>
        if Enabled(w, events[|events| - 1]) then Some(Next(w, events[|events| - 1])) else None
  }

  ghost predicate Reaches(events: seq<Event>, w: World) {
    RunEvents(events) == Some(w)
  }

  // ----- the invariant -----------------------------------------------------------------------

  /** Between acquire and release. */
  predicate IsHolding(p: Process) {
    p.pc != Ask && p.pc != Reread
  }

  predicate KnowsClean(p: Process) {
    || p.pc == ReleaseEarly || p.pc == Release
    || (p.pc == Resolve && p.state == Acquired && p.mode != Preacquired)
    || (p.pc == Judge && p.cleanExit)
  }

  predicate SlotInv(s: Shared, p: Process) {
    && (IsHolding(p) ==> s.slot == Some(p.run))
    && (KnowsClean(p) ==> p.run !in s.fixtures)
  }

  predicate BaselineInv(s: Shared, p: Process) {
    && (p.pc == Release ==> p.cleanExit && !p.threw && p.before.Some? && p.after == p.before)
    && (p.pc !in {CleanupOwner, CleanupApply, Judge} ==> !p.threw)
    && (p.before.Some? && !p.threw && p.pc != Persist ==> p.run in s.digests && s.digests[p.run] == p.before.value)
    && (p.pc in {Ask, Reread, Resolve, ReleaseEarly, Prepare, Baseline, Snapshot, ReadDigest} ==> p.before.None?)
    && (p.pc in {Persist, Isolation, Tests} ==> p.before.Some?)
  }

  predicate ProcessInv(s: Shared, p: Process) {
    SlotInv(s, p) && BaselineInv(s, p)
  }

  predicate Inv(w: World) {
    && (forall run :: run in w.shared.fixtures ==> w.shared.slot == Some(run))
    && (forall run :: run in w.processes ==> w.processes[run].run == run && ProcessInv(w.shared, w.processes[run]))
  }

  /** A step of one process keeps its own invariant. */
  lemma StepKeepsSlot(s: Shared, p: Process, c: Choice)
    requires SlotInv(s, p) && forall run :: run in s.fixtures ==> s.slot == Some(run)
    requires p.pc == Release ==> p.cleanExit
    ensures var o := StepProcess(s, p, c);
            && (o.process.Some? ==> o.process.value.run == p.run && SlotInv(o.shared, o.process.value))
            && (forall run :: run in o.shared.fixtures ==> o.shared.slot == Some(run))
  {
  }

  lemma StepKeepsBaseline(s: Shared, p: Process, c: Choice)
    requires BaselineInv(s, p)
    ensures var o := StepProcess(s, p, c);
            o.process.Some? ==> BaselineInv(o.shared, o.process.value)
  {
  }

  /** What a step may do to what other processes rely on: it never takes a slot, a row or a digest from another run. */
  lemma StepSparesOthers(s: Shared, p: Process, c: Choice, other: RunId)
    requires ProcessInv(s, p) && other != p.run && forall run :: run in s.fixtures ==> s.slot == Some(run)
    ensures var t := StepProcess(s, p, c).shared;
            && (s.slot == Some(other) ==> t.slot == Some(other))
            && (other in t.fixtures <==> other in s.fixtures)
            && (other in s.digests ==> other in t.digests && t.digests[other] == s.digests[other])
  {
  }

  lemma StepKeeps(s: Shared, p: Process, c: Choice)
    requires ProcessInv(s, p) && forall run :: run in s.fixtures ==> s.slot == Some(run)
    ensures var o := StepProcess(s, p, c);
            && (o.process.Some? ==> o.process.value.run == p.run && ProcessInv(o.shared, o.process.value))
            && (forall run :: run in o.shared.fixtures ==> o.shared.slot == Some(run))
  {
    hide StepProcess;
    StepKeepsSlot(s, p, c);
    StepKeepsBaseline(s, p, c);
  }

  lemma InvStep(w: World, e: Event)
    requires Inv(w) && Enabled(w, e)
    ensures Inv(Next(w, e))
  {
    hide StepProcess, ProcessInv;
    var v := Next(w, e);
    match e
    case Start(run, mode) =>
      NewProcessInv(w.shared, run, mode);
    case Crash(run) =>
    case TestWrites(run) =>
      WritesKeep(w, run);
    case Step(run, choice) =>
      var p := w.processes[run];
      assert ProcessInv(w.shared, p) && p.run == run;
      StepKeeps(w.shared, p, choice);
      forall other | other in v.processes
        ensures v.processes[other].run == other && ProcessInv(v.shared, v.processes[other])
      {
        if other != run {
          StepSparesOthers(w.shared, p, choice, other);
          Relies(w.shared, v.shared, w.processes[other]);
        }
      }
  }

  lemma NewProcessInv(s: Shared, run: RunId, mode: Mode)
    ensures ProcessInv(s, NewProcess(run, mode))
  {
  }

  lemma WritesKeep(w: World, run: RunId)
    requires Inv(w) && Enabled(w, TestWrites(run))
    ensures Inv(Next(w, TestWrites(run)))
  {
  }

  lemma Relies(s: Shared, t: Shared, p: Process)
    requires ProcessInv(s, p)
    requires s.slot == Some(p.run) ==> t.slot == Some(p.run)
    requires p.run in t.fixtures <==> p.run in s.fixtures
    requires p.run in s.digests ==> p.run in t.digests && t.digests[p.run] == s.digests[p.run]
    ensures ProcessInv(t, p)
  {
  }

  lemma {:induction false} InvReachable(events: seq<Event>, w: World)
    requires Reaches(events, w)
    ensures Inv(w)
  {
    hide Next, Enabled, Inv;
    if events == [] {
      InitialInv();
    } else {
      var v := RunEvents(events[..|events| - 1]).value;
      InvReachable(events[..|events| - 1], v);
      InvStep(v, events[|events| - 1]);
    }
  }

  lemma InitialInv()
    ensures Inv(INITIAL)
  {
  }

  // ----- what is promised --------------------------------------------------------------------

  /** Over all interleavings, crashes and recoveries a run's fixture rows exist only while the slot is its. */
  lemma FixturesOnlyWhileSlotHeld(events: seq<Event>, w: World, run: RunId)
    requires Reaches(events, w) && run in w.shared.fixtures
    ensures w.shared.slot == Some(run)
  {
    hide Reaches;
    InvReachable(events, w);
  }

  /** Two runs are never between acquire and release at once. */
  lemma OneRunAtATime(events: seq<Event>, w: World, a: RunId, b: RunId)
    requires Reaches(events, w) && a in w.processes && b in w.processes
    requires IsHolding(w.processes[a]) && IsHolding(w.processes[b])
    ensures a == b
  {
    hide Reaches;
    InvReachable(events, w);
  }

  /** A held slot changes hands only through its own run, and only when that run has no rows left: either it
      releases without having tested or cleaned up, or its cleanup exited with 0 and no exception is pending
      and the catalogue digest is the one stored before the tests. */
  lemma SlotFreedOnlyWhenClean(events: seq<Event>, w: World, e: Event, run: RunId)
    requires Reaches(events, w) && Enabled(w, e)
    requires w.shared.slot == Some(run) && Next(w, e).shared.slot != Some(run)
    ensures Next(w, e).shared.slot == None && run !in w.shared.fixtures
    ensures e.Step? && e.run == run
    ensures var p := w.processes[run];
            || (p.pc == ReleaseEarly && p.before.None?)
            || (p.pc == Release && p.cleanExit && !p.threw
                && run in w.shared.digests && p.after == Some(w.shared.digests[run]))
  {
    hide Reaches;
    InvReachable(events, w);
    if e.Step? && e.run != run {
      StepSparesOthers(w.shared, w.processes[e.run], e.choice, run);
    }
  }

  /** A stored digest is never replaced. */
  lemma DigestsAreKept(w: World, e: Event, run: RunId)
    requires Enabled(w, e) && run in w.shared.digests
    ensures run in Next(w, e).shared.digests && Next(w, e).shared.digests[run] == w.shared.digests[run]
  {
  }

  /** Tests start only on a slot of their own run, with its baseline digest stored. */
  lemma TestsStartGuarded(events: seq<Event>, w: World, run: RunId)
    requires Reaches(events, w) && run in w.processes && w.processes[run].pc == Tests
    ensures w.shared.slot == Some(run) && run in w.shared.digests
            && w.processes[run].before == Some(w.shared.digests[run])
  {
    hide Reaches;
    InvReachable(events, w);
  }

  /** The tests start only through an isolation check that succeeds; what leads
      there is a clean baseline, a readable snapshot digest and its first storing, in this order. */
  lemma TestsNeedIsolation(s: Shared, p: Process, c: Choice)
    ensures var o := StepProcess(s, p, c);
            && (o.process.Some? && o.process.value.pc == Tests ==> p.pc == Isolation && c.ok)
            && (o.process.Some? && o.process.value.pc == Isolation ==> p.pc == Persist && c.net == Answered && p.run !in s.digests)
            && (o.process.Some? && o.process.value.pc == Persist ==> p.pc == Snapshot && c.ok && c.digest.Some?)
            && (o.process.Some? && o.process.value.pc == Snapshot ==>
                  p.pc == Baseline && c.ok && s.slot == Some(p.run) && p.run !in s.fixtures)
  {
    hide TakeSlot, FreeSlot, StoreDigest, CleanupSucceeded, ResolveAction;
  }

  /** No other step adds rows. */
  lemma RowsOnlyFromTests(s: Shared, p: Process, c: Choice)
    requires p.pc != Tests
    ensures StepProcess(s, p, c).shared.fixtures <= s.fixtures
  {
    hide ResolveAction, CleanupSucceeded;
  }

  /** And through one that succeeds they do start. */
  lemma IsolationLeadsToTests(s: Shared, p: Process, c: Choice)
    requires p.pc == Isolation && c.ok
    ensures StepProcess(s, p, c) == Outcome(s, Some(p.(pc := Tests)))
  {
  }

  /** Who does what: only a new or preacquired run on a slot it has taken itself goes on to the tests, and only
      a recovery of a run it found interrupted goes straight to the cleanup. */
  predicate ActionFits(p: Process) {
    && (p.pc !in {Ask, Reread, Resolve, ReleaseEarly} ==>
          || (p.action == Run && p.state == Acquired && (p.mode == New || p.mode == Preacquired))
          || (p.action == Cleanup && p.state == Interrupted && (p.mode == Recover || p.mode == RecoverIfOwned)))
    && (p.pc in {Baseline, Snapshot, Persist, Isolation, Tests} ==> p.action == Run)
    && (p.pc == ReadDigest ==> p.action == Cleanup)
  }

  lemma StepKeepsAction(s: Shared, p: Process, c: Choice)
    requires ActionFits(p)
    ensures var o := StepProcess(s, p, c); o.process.Some? ==> ActionFits(o.process.value)
  {
    hide TakeSlot, FreeSlot, StoreDigest, CleanupSucceeded;
  }

  /** So in every reachable state a recovery never tests and an interrupted run is never tested again. */
  lemma {:induction false} ActionsFit(events: seq<Event>, w: World, run: RunId)
    requires Reaches(events, w) && run in w.processes
    ensures ActionFits(w.processes[run])
  {
    hide StepProcess, ActionFits;
    if events != [] {
      var v := RunEvents(events[..|events| - 1]).value;
      var e := events[|events| - 1];
      if run in v.processes {
        ActionsFit(events[..|events| - 1], v, run);
        if e.Step? { StepKeepsAction(v.shared, v.processes[run], e.choice); }
      } else {
        StartFits(run, e);
      }
    }
  }

  lemma StartFits(run: RunId, e: Event)
    ensures e.Start? ==> ActionFits(NewProcess(run, e.mode))
  {
  }
}
