/** run-live-integration.ts as the code runs it, phase by phase, and what one run or recovery achieves. */
module ReleaseRunner {
  import opened Common
  import opened ReleaseRun

  function Rank(pc: Pc): nat {
    match pc
    case Ask => 14
    case Reread => 13
    case Resolve => 12
    case ReleaseEarly => 0
    case Prepare => 11
    case Baseline => 10
    case Snapshot => 9
    case Persist => 8
    case Isolation => 7
    case Tests => 6
    case ReadDigest => 5
    case CleanupOwner => 4
    case CleanupApply => 3
    case Judge => 2
    case Release => 1
  }

  /** What the outside world answers at each step of one run. */
  type Answers = Pc -> Choice

  lemma StepsDescend(s: Shared, p: Process, c: Choice)
    ensures var o := StepProcess(s, p, c); o.process.Some? ==> Rank(o.process.value.pc) < Rank(p.pc)
  {
    match p.pc
    case Ask => case Reread => case Resolve => case ReleaseEarly => case Prepare =>
    case Baseline => case Snapshot => case Persist => case Isolation => case Tests =>
    case ReadDigest => case CleanupOwner => case CleanupApply => case Judge => case Release =>
  }

  /** The shared state when a process has run to its end with nobody between its steps. */
  function Complete(s: Shared, p: Process, answers: Answers): Shared
    decreases Rank(p.pc)
  {
    var o := StepProcess(s, p, answers(p.pc));
    StepsDescend(s, p, answers(p.pc));
    if o.process.Some? then Complete(o.shared, o.process.value, answers) else o.shared
  }

  datatype Fence = NotAcquired | Unknown | Held | Released
  datatype Status = NotVerified | Pass | Fail
  datatype Ending = Returned(status: int) | Thrown

  /** All that comes before the tests goes well. */
  predicate ReachesTests(s: Shared, run: RunId, answers: Answers) {
    && answers(Prepare).ok && answers(Baseline).ok && run !in s.fixtures
    && answers(Snapshot).ok && answers(Snapshot).digest.Some?
    && answers(Persist).net == Answered && run !in s.digests && answers(Isolation).ok
  }

  /** A recovery finds the baseline digest. */
  predicate ReachesCleanup(s: Shared, run: RunId, answers: Answers) {
    answers(Prepare).ok && answers(ReadDigest).net == Answered && run in s.digests
  }

  /** The cleanup succeeds, and the catalogue still has the baseline digest, which is not empty. */
  predicate CleansUp(baseline: Option<Digest>, answers: Answers) {
    && baseline.Some? && baseline.value != ""
    && answers(CleanupOwner).ok && answers(CleanupApply).ok && answers(CleanupApply).digest == baseline
  }

  function StoredDigest(s: Shared, run: RunId): Option<Digest> {
    if run in s.digests then Some(s.digests[run]) else None
  }

  class Runner {
    var shared: Shared
    var fenceState: Fence
    var cleanupStatus: Status

    constructor (world: Shared)
      ensures shared == world && fenceState == NotAcquired && cleanupStatus == NotVerified
    {
      shared := world;
      fenceState, cleanupStatus := NotAcquired, NotVerified;
    }

    /** acquireActiveRun: None is its exception. */
    method AcquireActiveRun(run: RunId, setNet: Net, getNet: Net) returns (state: Option<ActiveState>)
      modifies this`shared
      ensures shared == TakeSlot(old(shared), run, setNet)
      ensures state == Some(Acquired) <==> old(shared).slot.None? && setNet == Answered
      ensures state == Some(Interrupted) <==> old(shared).slot == Some(run) && setNet == Answered && getNet == Answered
    {
      var wasFree := shared.slot.None?;
      if wasFree && setNet != LostBefore {
        shared := shared.(slot := Some(run));
      }
      if setNet != Answered {
        return None;
      }
      if wasFree {
        return Some(Acquired);
      }
      if getNet != Answered {
        return None;
      }
      if shared.slot == Some(run) {
        return Some(Interrupted);
      }
      return None;
    }

    /** releaseActiveRun: false is its exception. */
    method ReleaseActiveRun(run: RunId, net: Net) returns (ok: bool)
      modifies this`shared
      ensures shared == FreeSlot(old(shared), run, net)
      ensures ok <==> old(shared).slot == Some(run) && net == Answered
    {
      var mine := shared.slot == Some(run);
      if mine && net != LostBefore {
        shared := shared.(slot := None);
      }
      return mine && net == Answered;
    }

    method PersistCatalogueDigest(run: RunId, digest: Digest, net: Net) returns (ok: bool)
      modifies this`shared
      ensures shared == StoreDigest(old(shared), run, digest, net)
      ensures ok <==> run !in old(shared).digests && net == Answered
    {
      var isNew := run !in shared.digests;
      if isNew && net != LostBefore {
        shared := shared.(digests := shared.digests[run := digest]);
      }
      return isNew && net == Answered;
    }

    /** cleanup.ts --apply: its exit status, and the digest it prints. */
    method ApplyCleanup(run: RunId, owner: Choice, apply: Choice) returns (status: int, printed: Option<Digest>)
      modifies this`shared
      ensures status == if owner.ok && old(shared).slot == Some(run) && apply.ok then 0 else 1
      ensures status == 0 ==> printed == apply.digest
      ensures shared == if owner.ok && old(shared).slot == Some(run) && (apply.ok || apply.rows) then
                          old(shared).(fixtures := old(shared).fixtures - {run})
                        else old(shared)
    {
      printed := None;
      if !(owner.ok && shared.slot == Some(run)) {
        return 1, None;
      }
      if apply.ok || apply.rows {
        shared := shared.(fixtures := shared.fixtures - {run});
      }
      if apply.ok {
        return 0, apply.digest;
      }
      return 1, None;
    }

    /** The ownership phase: None is an exception. */
    method TakeOwnership(run: RunId, mode: Mode, answers: Answers) returns (state: Option<ActiveState>)
      requires mode in {New, Preacquired, Recover, RecoverIfOwned}
      modifies this`shared
      ensures var p := NewProcess(run, mode);
              Complete(old(shared), p, answers) ==
                if state.None? then shared
                else Complete(shared, p.(state := state.value, pc := Resolve), answers)
      ensures state.Some? ==> shared.slot == Some(run)
      ensures state == Some(Acquired) <==>
                answers(Ask).net == Answered && old(shared).slot == if mode == Preacquired then Some(run) else None
      ensures state == Some(Interrupted) <==>
                && mode != Preacquired && old(shared).slot == Some(run)
                && answers(Ask).net == Answered && answers(Reread).net == Answered
      ensures old(shared).slot.Some? ==> shared == old(shared)
      ensures shared.fixtures == old(shared).fixtures && shared.digests == old(shared).digests
    {
      hide Complete;
      ghost var p := NewProcess(run, mode);
      Unfold(shared, p, answers);
      if mode == Preacquired {
        if answers(Ask).net == Answered && shared.slot == Some(run) {
          return Some(Acquired);
        }
        return None;
      }
      ghost var asked := shared;
      state := AcquireActiveRun(run, answers(Ask).net, answers(Reread).net);
      if asked.slot.Some? && answers(Ask).net == Answered {
        Unfold(shared, p.(pc := Reread), answers);
      }
      assert state.None? || state.value == Acquired || state.value == Interrupted;
    }

    /** The try block of a run: snapshot, stored digest, isolation and tests. */
    method RunTests(run: RunId, answers: Answers, ghost p: Process)
      returns (status: int, before: Option<Digest>, threw: bool)
      requires p.pc == Snapshot && p.run == run && p.before.None? && !p.threw
      modifies this
      ensures Complete(old(shared), p, answers) ==
                Complete(shared, p.(before := before, threw := threw, pc := CleanupOwner), answers)
      ensures shared.slot == old(shared).slot && fenceState == old(fenceState)
      ensures !threw <==>
                && answers(Snapshot).ok && answers(Snapshot).digest.Some?
                && answers(Persist).net == Answered && run !in old(shared).digests && answers(Isolation).ok
      ensures !threw ==> before == answers(Snapshot).digest && status == if answers(Tests).ok then 0 else 1
      ensures shared.fixtures == old(shared).fixtures + if !threw && answers(Tests).rows then {run} else {}
    {
      hide Complete;
      status, before, threw := 1, None, true;
      Unfold(shared, p, answers);
      if !(answers(Snapshot).ok && answers(Snapshot).digest.Some?) {
        return;
      }
      before := answers(Snapshot).digest;
      ghost var q := p.(before := before, pc := Persist);
      Unfold(shared, q, answers);
      var stored := PersistCatalogueDigest(run, before.value, answers(Persist).net);
      if !stored {
        return;
      }
      Unfold(shared, q.(pc := Isolation), answers);
      if !answers(Isolation).ok {
        return;
      }
      threw := false;
      Unfold(shared, q.(pc := Tests), answers);
      if answers(Tests).rows {
        shared := shared.(fixtures := shared.fixtures + {run});
      }
      status := if answers(Tests).ok then 0 else 1;
    }

    /** The finally block, the rethrow of what the try block threw, and the release. */
    method CleanUpAndRelease(run: RunId, answers: Answers, ghost p: Process, recovery: bool,
                             initialStatus: int, before: Option<Digest>, threw: bool) returns (ending: Ending)
      requires p.pc == CleanupOwner && p.run == run && p.before == before && p.threw == threw
      requires shared.slot == Some(run) && fenceState == Held
      modifies this
      ensures shared == Complete(old(shared), p, answers)
      ensures fenceState == Held || fenceState == Released
      ensures fenceState == Released ==> shared.slot == None
      ensures fenceState == Released ==> run !in shared.fixtures && IsSet(before)
      ensures fenceState == Held && shared.slot != Some(run) ==> answers(Release).net == LostAfter
      ensures var cleaned := answers(CleanupOwner).ok && answers(CleanupApply).ok;
              var printed := answers(CleanupApply).digest;
              var kept := cleaned && (IsSet(before) ==> printed == before);
              && (ending.Returned? ==> ending.status == if !kept then 1 else if recovery then 0 else initialStatus)
              && (ending.Thrown? <==> threw || (cleaned && IsSet(before) && printed.None?)
                                      || (kept && !(IsSet(before) && answers(Release).net == Answered)))
              && (cleanupStatus == if cleaned && IsSet(before) && printed.None? then old(cleanupStatus)
                                   else if kept then Pass else Fail)
              && (ending.Returned? && kept ==> fenceState == Released)
    {
      hide Complete;
      var status, cleanupSucceeded := initialStatus, false;
      Unfold(shared, p, answers);
      Unfold(shared, p.(pc := CleanupApply), answers);
      var cleanup, printed := ApplyCleanup(run, answers(CleanupOwner), answers(CleanupApply));
      ghost var q := p.(cleanExit := cleanup == 0, after := if cleanup == 0 then printed else p.after, pc := Judge);
      Unfold(shared, q, answers);
      if cleanup == 0 {
        if IsSet(before) && printed.None? {
          return Thrown;
        }
        if IsSet(before) && printed != before {
          status := 1;
          cleanupStatus := Fail;
        } else {
          cleanupStatus := Pass;
          cleanupSucceeded := true;
          if recovery { status := 0; }
        }
      } else {
        cleanupStatus := Fail;
        status := cleanup;
      }
      if threw {
        return Thrown;
      }
      if cleanupSucceeded {
        if !IsSet(before) {
          return Thrown;
        }
        Unfold(shared, q.(pc := Release), answers);
        var ok := ReleaseActiveRun(run, answers(Release).net);
        if !ok {
          return Thrown;
        }
        fenceState := Released;
      }
      return Returned(status);
    }

    /** runLiveIntegration. The shared state it leaves is that of the stepwise process, and a returned 0 means
        that the slot is free again and no fixture row of the run is left. */
    method RunLiveIntegration(run: RunId, mode: Mode, answers: Answers) returns (ending: Ending)
      requires mode in {New, Preacquired, Recover, RecoverIfOwned}
      requires forall r :: r in shared.fixtures ==> shared.slot == Some(r)
      modifies this
      ensures shared == Complete(old(shared), NewProcess(run, mode), answers)
      ensures ending == Returned(0) ==> shared.slot == None && run !in shared.fixtures && fenceState == Released
      ensures ending == Returned(0) && (mode == New || mode == Preacquired) ==> answers(Tests).ok && cleanupStatus == Pass
      ensures mode == New || mode == Preacquired ==>
                (ending == Returned(0) <==>
                  && old(shared).slot == (if mode == New then None else Some(run)) && answers(Ask).net == Answered
                  && ReachesTests(old(shared), run, answers) && answers(Tests).ok
                  && CleansUp(answers(Snapshot).digest, answers) && answers(Release).net == Answered)
      ensures mode == Recover || mode == RecoverIfOwned ==>
                (ending == Returned(0) <==>
                  || (&& old(shared).slot == Some(run) && answers(Ask).net == Answered && answers(Reread).net == Answered
                      && ReachesCleanup(old(shared), run, answers)
                      && CleansUp(StoredDigest(old(shared), run), answers) && answers(Release).net == Answered)
                  || (&& mode == RecoverIfOwned && old(shared).slot == None
                      && answers(Ask).net == Answered && answers(ReleaseEarly).net == Answered))
      ensures fenceState == Released ==> shared.slot == None
      ensures old(shared).slot.Some? && old(shared).slot != Some(run) ==> ending == Thrown && shared == old(shared)
      ensures old(shared).slot == Some(run) && mode == New ==> ending == Thrown && shared == old(shared)
      ensures fenceState == Held && shared.slot != Some(run) ==>
                answers(Release).net == LostAfter || answers(ReleaseEarly).net == LostAfter
    {
      hide Complete, StepProcess;
      ghost var p := NewProcess(run, mode);
      fenceState := Unknown;
      var state := TakeOwnership(run, mode, answers);
      if state.None? {
        return Thrown;
      }
      p := p.(state := state.value, pc := Resolve);
      fenceState := if state.value == Acquired then Held else Unknown;
      AtResolve(shared, p, answers);
      var action := ResolveAction(state.value, mode);
      if action == Refuse {
        if state.value == Acquired && mode == Recover {
          AtReleaseEarly(shared, p.(pc := ReleaseEarly), answers);
          var ok := ReleaseActiveRun(run, answers(ReleaseEarly).net);
          if ok { fenceState := Released; }
        }
        return Thrown;
      }
      fenceState := Held;
      if action == ReleaseNoop {
        AtReleaseEarly(shared, p.(pc := ReleaseEarly), answers);
        var ok := ReleaseActiveRun(run, answers(ReleaseEarly).net);
        if !ok {
          return Thrown;
        }
        fenceState := Released;
        return Returned(0);
      }

      p := p.(action := action, pc := Prepare);
      ending := PrepareAndRun(run, answers, p, mode == Recover || mode == RecoverIfOwned);
    }

    /** From the inventory to the end, for a run that tests or only cleans up. */
    method PrepareAndRun(run: RunId, answers: Answers, ghost p: Process, recovery: bool) returns (ending: Ending)
      requires p.pc == Prepare && p.run == run && p.before.None? && !p.threw
      requires p.action == if recovery then Cleanup else Run
      requires shared.slot == Some(run) && fenceState == Held
      modifies this
      ensures shared == Complete(old(shared), p, answers)
      ensures fenceState == Held || fenceState == Released
      ensures fenceState == Released ==> shared.slot == None
      ensures ending == Returned(0) ==> fenceState == Released && run !in shared.fixtures && cleanupStatus == Pass
      ensures ending == Returned(0) <==>
                && answers(Release).net == Answered
                && if recovery then
                     ReachesCleanup(old(shared), run, answers) && CleansUp(StoredDigest(old(shared), run), answers)
                   else
                     ReachesTests(old(shared), run, answers) && answers(Tests).ok && CleansUp(answers(Snapshot).digest, answers)
      ensures fenceState == Held && shared.slot != Some(run) ==> answers(Release).net == LostAfter
    {
      hide Complete, StepProcess;
      AtPrepare(shared, p, answers);
      if !answers(Prepare).ok {
        return Thrown;
      }
      var status, before, threw := 1, None, false;
      if !recovery {
        AtBaseline(shared, p.(pc := Baseline), answers);
        if !(answers(Baseline).ok && shared.slot == Some(run) && run !in shared.fixtures) {
          return Thrown;
        }
        status, before, threw := RunTests(run, answers, p.(pc := Snapshot));
      } else {
        AtReadDigest(shared, p.(pc := ReadDigest), answers);
        if answers(ReadDigest).net == Answered && run in shared.digests {
          before := Some(shared.digests[run]);
        } else {
          threw := true;
        }
      }
      ending := CleanUpAndRelease(run, answers, p.(before := before, threw := threw, pc := CleanupOwner),
                                  recovery, status, before, threw);
    }
  }

  lemma Unfold(s: Shared, p: Process, answers: Answers)
    ensures var o := StepProcess(s, p, answers(p.pc));
            Complete(s, p, answers) == if o.process.Some? then Complete(o.shared, o.process.value, answers) else o.shared
  {
    hide StepProcess;
  }

  lemma AtResolve(s: Shared, p: Process, answers: Answers)
    requires p.pc == Resolve && p.mode in {New, Preacquired, Recover, RecoverIfOwned}
    ensures var action := ResolveAction(p.state, p.mode);
            Complete(s, p, answers) ==
              if action == Refuse && !(p.state == Acquired && p.mode == Recover) then s
              else if action == Refuse || action == ReleaseNoop then Complete(s, p.(pc := ReleaseEarly), answers)
              else Complete(s, p.(action := action, pc := Prepare), answers)
  {
    hide Complete;
    Unfold(s, p, answers);
  }

  lemma AtReleaseEarly(s: Shared, p: Process, answers: Answers)
    requires p.pc == ReleaseEarly
    ensures Complete(s, p, answers) == FreeSlot(s, p.run, answers(ReleaseEarly).net)
  {
    hide Complete;
    Unfold(s, p, answers);
  }

  lemma AtPrepare(s: Shared, p: Process, answers: Answers)
    requires p.pc == Prepare
    ensures Complete(s, p, answers) ==
              if !answers(Prepare).ok then s
              else Complete(s, p.(pc := if p.action == Run then Baseline else ReadDigest), answers)
  {
    hide Complete;
    Unfold(s, p, answers);
  }

  lemma AtBaseline(s: Shared, p: Process, answers: Answers)
    requires p.pc == Baseline
    ensures Complete(s, p, answers) ==
              if answers(Baseline).ok && s.slot == Some(p.run) && p.run !in s.fixtures then Complete(s, p.(pc := Snapshot), answers)
              else s
  {
    hide Complete;
    Unfold(s, p, answers);
  }

  lemma AtReadDigest(s: Shared, p: Process, answers: Answers)
    requires p.pc == ReadDigest && p.before.None? && !p.threw
    ensures var found := answers(ReadDigest).net == Answered && p.run in s.digests;
            Complete(s, p, answers) ==
              Complete(s, p.(before := if found then Some(s.digests[p.run]) else None, threw := !found, pc := CleanupOwner), answers)
  {
    hide Complete;
    Unfold(s, p, answers);
  }

  lemma AtCleanup(s: Shared, p: Process, answers: Answers)
    requires p.pc == CleanupOwner && s.slot == Some(p.run)
    ensures (Complete(s, p, answers).slot != Some(p.run)) <==>
              && answers(CleanupOwner).ok && answers(CleanupApply).ok && !p.threw
              && IsSet(p.before) && answers(CleanupApply).digest == p.before && answers(Release).net != LostBefore
    ensures Complete(s, p, answers).slot != Some(p.run) ==>
              Complete(s, p, answers).slot == None && p.run !in Complete(s, p, answers).fixtures
  {
    hide Complete;
    Unfold(s, p, answers);
    var q := p.(pc := CleanupApply);
    Unfold(s, q, answers);
    var o := StepProcess(s, p, answers(CleanupOwner));
    if o.process.value.pc == CleanupApply {
      var o' := StepProcess(s, q, answers(CleanupApply));
      Unfold(o'.shared, o'.process.value, answers);
      Unfold(o'.shared, o'.process.value.(pc := Release), answers);
    } else {
      Unfold(s, o.process.value, answers);
    }
  }

  /** verify-live-target.ts: it keeps a slot it takes, except that a recovery, which finds nothing interrupted
      on a free slot, gives it back at once. */
  lemma VerifyKeepsOrReturns(s: Shared, run: RunId, mode: Mode, answers: Answers)
    requires mode == VerifyTarget || mode == VerifyRecover
    ensures var t := Complete(s, NewProcess(run, mode), answers);
            t == if s.slot.None? && answers(Ask).net != LostBefore
                    && !(mode == VerifyRecover && answers(Ask).net == Answered && answers(ReleaseEarly).net != LostBefore) then
                   s.(slot := Some(run))
                 else s
  {
    hide Complete;
    var p := NewProcess(run, mode);
    Unfold(s, p, answers);
    if answers(Ask).net == Answered && s.slot.None? {
      var held, q := s.(slot := Some(run)), p.(state := Acquired, pc := Resolve);
      Unfold(held, q, answers);
      if mode == VerifyRecover { Unfold(held, q.(pc := ReleaseEarly), answers); }
    } else if answers(Ask).net == Answered {
      Unfold(s, p.(pc := Reread), answers);
      if answers(Reread).net == Answered && s.slot == Some(run) {
        Unfold(s, p.(state := Interrupted, pc := Resolve), answers);
      }
    }
  }

  /** What a recovery needs: a run that stopped while holding the slot is freed by --recover or
      --recover-if-owned exactly when every step answers, its baseline digest had been stored, and the
      catalogue still has that digest. A run that stopped before storing its baseline is never freed so. */
  lemma RecoveryFrees(s: Shared, run: RunId, mode: Mode, answers: Answers)
    requires s.slot == Some(run) && (mode == Recover || mode == RecoverIfOwned)
    ensures var t := Complete(s, NewProcess(run, mode), answers);
            && (t.slot != Some(run) <==>
                  && answers(Ask).net == Answered && answers(Reread).net == Answered && answers(Prepare).ok
                  && answers(ReadDigest).net == Answered && run in s.digests && s.digests[run] != ""
                  && answers(CleanupOwner).ok && answers(CleanupApply).ok
                  && answers(CleanupApply).digest == Some(s.digests[run]) && answers(Release).net != LostBefore)
            && (t.slot != Some(run) ==> run !in t.fixtures)
  {
    hide Complete;
    var p := NewProcess(run, mode);
    Unfold(s, p, answers);
    Unfold(s, p.(pc := Reread), answers);
    if answers(Ask).net == Answered && answers(Reread).net == Answered {
      var q := p.(state := Interrupted, pc := Resolve);
      AtResolve(s, q, answers);
      q := q.(action := Cleanup, pc := Prepare);
      AtPrepare(s, q, answers);
      if answers(Prepare).ok {
        q := q.(pc := ReadDigest);
        AtReadDigest(s, q, answers);
        var found := answers(ReadDigest).net == Answered && run in s.digests;
        AtCleanup(s, q.(before := if found then Some(s.digests[run]) else None, threw := !found, pc := CleanupOwner), answers);
      }
    }
  }

  /** A test run that holds the slot gives it back, leaving no rows, exactly when all goes well before the tests,
      the cleanup succeeds with an unchanged catalogue and the release arrives, whether or not the tests pass. */
  lemma TestRunFrees(s: Shared, run: RunId, mode: Mode, answers: Answers)
    requires (mode == New && s.slot == None) || (mode == Preacquired && s.slot == Some(run))
    requires answers(Ask).net == Answered
    ensures var t := Complete(s, NewProcess(run, mode), answers);
            && (t.slot == None <==>
                  && ReachesTests(s, run, answers) && CleansUp(answers(Snapshot).digest, answers)
                  && answers(Release).net != LostBefore)
            && (t.slot == None ==> run !in t.fixtures)
            && (t.slot != None ==> t.slot == Some(run))
  {
    hide Complete, StepProcess;
    var p := NewProcess(run, mode);
    var held := s.(slot := Some(run));
    AtAsk(s, p, answers);
    var q := p.(state := Acquired, pc := Resolve);
    AtResolve(held, q, answers);
    q := q.(action := Run, pc := Prepare);
    AtPrepare(held, q, answers);
    if answers(Prepare).ok {
      q := q.(pc := Baseline);
      AtBaseline(held, q, answers);
      if answers(Baseline).ok && run !in s.fixtures {
        AtSnapshot(held, q.(pc := Snapshot), answers);
      }
    }
  }

  lemma AtAsk(s: Shared, p: Process, answers: Answers)
    requires p.pc == Ask && answers(Ask).net == Answered
    requires if p.mode == Preacquired then s.slot == Some(p.run) else s.slot == None
    ensures Complete(s, p, answers) == Complete(s.(slot := Some(p.run)), p.(state := Acquired, pc := Resolve), answers)
  {
    hide Complete;
    Unfold(s, p, answers);
    assert s.slot == Some(p.run) ==> s == s.(slot := Some(p.run));
  }

  lemma AtSnapshot(s: Shared, p: Process, answers: Answers)
    requires p.pc == Snapshot && p.before.None? && !p.threw && s.slot == Some(p.run)
    ensures var t := Complete(s, p, answers);
            && (t.slot != Some(p.run) <==>
                  && answers(Snapshot).ok && answers(Snapshot).digest.Some?
                  && answers(Persist).net == Answered && p.run !in s.digests && answers(Isolation).ok
                  && CleansUp(answers(Snapshot).digest, answers) && answers(Release).net != LostBefore)
            && (t.slot != Some(p.run) ==> t.slot == None && p.run !in t.fixtures)
  {
    hide Complete;
    Unfold(s, p, answers);
    if !(answers(Snapshot).ok && answers(Snapshot).digest.Some?) {
      AtCleanup(s, p.(threw := true, pc := CleanupOwner), answers);
      return;
    }
    var q := p.(before := answers(Snapshot).digest, pc := Persist);
    Unfold(s, q, answers);
    var stored := StoreDigest(s, p.run, q.before.value, answers(Persist).net);
    if !(answers(Persist).net == Answered && p.run !in s.digests) {
      AtCleanup(stored, q.(threw := true, pc := CleanupOwner), answers);
      return;
    }
    q := q.(pc := Isolation);
    Unfold(stored, q, answers);
    if !answers(Isolation).ok {
      AtCleanup(stored, q.(threw := true, pc := CleanupOwner), answers);
      return;
    }
    q := q.(pc := Tests);
    Unfold(stored, q, answers);
    var tested := StepProcess(stored, q, answers(Tests)).shared;
    AtCleanup(tested, q.(pc := CleanupOwner), answers);
  }

  /** Whatever fails from the snapshot on, and whatever the tests do, the cleanup runs: if it succeeds, no row of
      the run is left. */
  lemma {:induction false} CleanupRunsAnyway(s: Shared, p: Process, answers: Answers)
    requires p.pc in {Snapshot, Persist, Isolation, Tests, ReadDigest, CleanupOwner, CleanupApply} && s.slot == Some(p.run)
    requires answers(CleanupOwner).ok && answers(CleanupApply).ok
    ensures p.run !in Complete(s, p, answers).fixtures
    decreases Rank(p.pc)
  {
    hide Complete;
    Unfold(s, p, answers);
    var o := StepProcess(s, p, answers(p.pc));
    assert o.process.Some? && o.shared.slot == s.slot;
    if p.pc == CleanupApply {
      AfterCleanup(o.shared, o.process.value, answers);
    } else {
      StepsDescend(s, p, answers(p.pc));
      CleanupRunsAnyway(o.shared, o.process.value, answers);
    }
  }

  lemma AfterCleanup(s: Shared, p: Process, answers: Answers)
    requires p.pc == Judge && p.run !in s.fixtures
    ensures p.run !in Complete(s, p, answers).fixtures
  {
    hide Complete;
    Unfold(s, p, answers);
    Unfold(s, p.(pc := Release), answers);
  }
}
