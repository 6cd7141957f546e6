/** Any number of tenant transactions at once: what each shows to the outside world, and every interleaving of
    their steps, with clients that are used by whoever holds them, before, inside and after their scopes. */
module TenantRun {
  import opened Common

  type Client = nat
  type Effect = string

  /** What the outside world sees of one transaction, in order. */
  datatype Entry =
    | Committed
    | RolledBack
    | Attempt(effect: Effect, index: nat, isRetry: bool, ok: bool)
    | Reported(effect: Effect, index: nat)

  /** How the two possible tries of an effect would go. */
  datatype Tries = Tries(first: bool, second: bool)

  /** runEffect: one retry, and a report when both tries fail. */
  function EffectEntries(effect: Effect, index: nat, tries: Tries): seq<Entry> {
    if tries.first then [Attempt(effect, index, false, true)]
    else if tries.second then [Attempt(effect, index, false, false), Attempt(effect, index, true, true)]
    else [Attempt(effect, index, false, false), Attempt(effect, index, true, false), Reported(effect, index)]
  }

  /** The entries of the effects before `index`. */
  function EffectsUpTo(effects: seq<Effect>, index: nat, tries: nat -> Tries): seq<Entry>
    requires index <= |effects|
  {
    if index == 0 then []
    else EffectsUpTo(effects, index - 1, tries) + EffectEntries(effects[index - 1], index - 1, tries(index - 1))
  }

  /** Where an entry belongs: later effects come later, a retry after the first try, a report last. */
  function Place(e: Entry): int
    requires e.Attempt? || e.Reported?
  {
    3 * e.index + if e.Reported? then 2 else if e.isRetry then 1 else 0
  }

  /** An entry that the effects before `index` leave behind, said of the entry alone: a first try of every
      effect, a retry exactly when the first try failed, a report exactly when both did. */
  predicate BelongsTo(e: Entry, effects: seq<Effect>, index: nat, tries: nat -> Tries)
    requires index <= |effects|
  {
    match e
    case Attempt(effect, k, isRetry, ok) =>
      && k < index && effect == effects[k]
      && (if isRetry then !tries(k).first && ok == tries(k).second else ok == tries(k).first)
    case Reported(effect, k) => k < index && effect == effects[k] && !tries(k).first && !tries(k).second
    case _ => false
  }

  ghost predicate InPlace(entries: seq<Entry>) {
    && (forall i :: 0 <= i < |entries| ==> entries[i].Attempt? || entries[i].Reported?)
    && (forall i, j :: 0 <= i < j < |entries| ==> Place(entries[i]) < Place(entries[j]))
  }

  lemma EntriesOfOne(effect: Effect, k: nat, tries: Tries)
    ensures var es := EffectEntries(effect, k, tries);
            && InPlace(es)
            && (forall e :: e in es ==> (e.Attempt? || e.Reported?) && e.index == k)
            && (forall e :: e in es <==>
                  match e
                  case Attempt(f, j, isRetry, ok) =>
                    f == effect && j == k && (if isRetry then !tries.first && ok == tries.second else ok == tries.first)
                  case Reported(f, j) => f == effect && j == k && !tries.first && !tries.second
                  case _ => false)
  {
    var es := EffectEntries(effect, k, tries);
    assert es[0] == Attempt(effect, k, false, tries.first);
    if !tries.first {
      assert es[1] == Attempt(effect, k, true, tries.second);
      if !tries.second { assert es[2] == Reported(effect, k); }
    }
  }

  /** After a commit exactly the entries that belong to its effects are left, each once, the effects in
      registration order and each one's tries together: no failing effect stops a later one. */
  lemma {:induction false} EffectsExact(effects: seq<Effect>, index: nat, tries: nat -> Tries)
    requires index <= |effects|
    ensures InPlace(EffectsUpTo(effects, index, tries))
    ensures forall e :: e in EffectsUpTo(effects, index, tries) <==> BelongsTo(e, effects, index, tries)
  {
    hide EffectEntries;
    if index > 0 {
      EffectsExact(effects, index - 1, tries);
      EntriesOfOne(effects[index - 1], index - 1, tries(index - 1));
      var before, last := EffectsUpTo(effects, index - 1, tries), EffectEntries(effects[index - 1], index - 1, tries(index - 1));
      var all := before + last;
      forall i, j | 0 <= i < |before| && 0 <= j < |last|
        ensures Place(before[i]) < Place(last[j])
      {
        assert before[i] in before && last[j] in last;
      }
      forall e
        ensures e in all <==> BelongsTo(e, effects, index, tries)
      {
        assert e in all <==> e in before || e in last;
      }
    }
  }

  // ----- the calls -----------------------------------------------------------------------------

  /** How far one call of withTenantDb is: its transaction is open; it has committed or rolled back, the client
      not yet revoked; it has thrown; or effect `next` comes next, its first try having failed if `again`. */
  datatype Phase = Active | Settled(committed: bool) | Thrown | Running(next: nat, again: bool)

  /** One call: the owner, the array of registered effects, and what the outside world has seen of it. */
  datatype Scope = Scope(owner: string, phase: Phase, pending: seq<Effect>, trace: seq<Entry>)

  /** The two maps of the module, of which `effects` leads to the arrays of the scopes, and the calls. */
  datatype World = World(owners: map<Client, string>, effects: set<Client>, scopes: map<Client, Scope>)

  datatype Event =
    | BeginScope(db: Client, clerkOrgId: string)
    | RegisterEffect(db: Client, effect: Effect)
    | SettleTransaction(db: Client, commits: bool)
    | RevokeClient(db: Client)
    | TryEffect(db: Client)
    | RetryEffect(db: Client)

  /** How the two possible tries of every effect of every client would go. */
  type Outside = Client -> nat -> Tries

  const NOBODY := World(map[], {}, map[])

  predicate Enabled(w: World, e: Event) {
    match e
    case BeginScope(db, _) => db !in w.scopes
    case RegisterEffect(_, _) => true
    case SettleTransaction(db, _) => db in w.scopes && w.scopes[db].phase.Active?
    case RevokeClient(db) => db in w.scopes && w.scopes[db].phase.Settled?
    case TryEffect(db) =>
      db in w.scopes && w.scopes[db].phase.Running? && !w.scopes[db].phase.again
      && w.scopes[db].phase.next < |w.scopes[db].pending|
    case RetryEffect(db) =>
      db in w.scopes && w.scopes[db].phase.Running? && w.scopes[db].phase.again
      && w.scopes[db].phase.next < |w.scopes[db].pending|
  }

  function With(w: World, db: Client, scope: Scope): World {
    w.(scopes := w.scopes[db := scope])
  }

  /** The first try of the next effect. */
  function Tried(s: Scope, tries: nat -> Tries): Scope
    requires s.phase.Running? && s.phase.next < |s.pending|
  {
    var k, ok := s.phase.next, tries(s.phase.next).first;
    s.(phase := if ok then Running(k + 1, false) else Running(k, true),
       trace := s.trace + [Attempt(s.pending[k], k, false, ok)])
  }

  /** The second, and the report if it fails too. */
  function Retried(s: Scope, tries: nat -> Tries): Scope
    requires s.phase.Running? && s.phase.next < |s.pending|
  {
    var k, ok := s.phase.next, tries(s.phase.next).second;
    s.(phase := Running(k + 1, false),
       trace := s.trace + [Attempt(s.pending[k], k, true, ok)] + if ok then [] else [Reported(s.pending[k], k)])
  }

  function Next(w: World, e: Event, outside: Outside): World
    requires Enabled(w, e)
  {
    match e
    case BeginScope(db, org) =>
      World(w.owners[db := org], w.effects + {db}, w.scopes[db := Scope(org, Active, [], [])])
    case RegisterEffect(db, effect) =>
      // outside a scope afterTenantCommit throws
      if db in w.effects && db in w.scopes then With(w, db, w.scopes[db].(pending := w.scopes[db].pending + [effect])) else w
    case SettleTransaction(db, commits) =>
      With(w, db, w.scopes[db].(phase := Settled(commits), trace := w.scopes[db].trace + [if commits then Committed else RolledBack]))
    case RevokeClient(db) =>
      var s := w.scopes[db];
      World(w.owners - {db}, w.effects - {db},
            w.scopes[db := s.(phase := if s.phase.committed then Running(0, false) else Thrown)])
    case TryEffect(db) =>
      With(w, db, Tried(w.scopes[db], outside(db)))
    case RetryEffect(db) =>
      With(w, db, Retried(w.scopes[db], outside(db)))
  }

  function RunEvents(events: seq<Event>, outside: Outside): Option<World> {
    if events == [] then Some(NOBODY)
    else
      match RunEvents(events[..|events| - 1], outside)
      case None => None
      case Some(w) =>
        var e := events[|events| - 1];
        if Enabled(w, e) then Some(Next(w, e, outside)) else None
  }

  ghost predicate Reaches(events: seq<Event>, outside: Outside, w: World) {
    RunEvents(events, outside) == Some(w)
  }

  // ----- the invariant -----------------------------------------------------------------------

  /** What a call that has reached a phase has shown to the outside world, entry by entry. */
  function TraceOf(phase: Phase, pending: seq<Effect>, tries: nat -> Tries): seq<Entry> {
    match phase
    case Active => []
    case Settled(committed) => [if committed then Committed else RolledBack]
    case Thrown => [RolledBack]
    case Running(next, again) =>
      if next > |pending| || (again && next == |pending|) then []
      else [Committed] + EffectsUpTo(pending, next, tries) + if again then [Attempt(pending[next], next, false, false)] else []
  }

  predicate ScopeInv(s: Scope, tries: nat -> Tries) {
    && (s.phase.Running? ==> s.phase.next <= |s.pending|)
    && (s.phase.Running? && s.phase.again ==> s.phase.next < |s.pending| && !tries(s.phase.next).first)
    && s.trace == TraceOf(s.phase, s.pending, tries)
  }

  predicate IsInside(phase: Phase) {
    phase.Active? || phase.Settled?
  }

  ghost predicate Inv(w: World, outside: Outside) {
    && w.owners.Keys == w.effects
    && (forall db :: db in w.effects <==> db in w.scopes && IsInside(w.scopes[db].phase))
    && (forall db :: db in w.scopes ==> ScopeInv(w.scopes[db], outside(db)))
    && (forall db :: db in w.owners && db in w.scopes ==> w.owners[db] == w.scopes[db].owner)
  }

  lemma StepKeepsScope(w: World, e: Event, outside: Outside)
    requires Inv(w, outside) && Enabled(w, e)
    ensures e.db in Next(w, e, outside).scopes ==> ScopeInv(Next(w, e, outside).scopes[e.db], outside(e.db))
  {
    hide EffectsUpTo, EffectEntries, Tried, Retried;
    if e.TryEffect? {
      TryKeeps(w.scopes[e.db], outside(e.db));
    } else if e.RetryEffect? {
      RetryKeeps(w.scopes[e.db], outside(e.db));
    } else if e.RevokeClient? {
      NoEffects(w.scopes[e.db].pending, outside(e.db));
    }
  }

  lemma TryKeeps(s: Scope, tries: nat -> Tries)
    requires ScopeInv(s, tries) && s.phase.Running? && !s.phase.again && s.phase.next < |s.pending|
    ensures ScopeInv(Tried(s, tries), tries)
  {
    hide EffectsUpTo, EffectEntries;
    OneEffect(s.pending, s.phase.next, tries);
  }

  lemma RetryKeeps(s: Scope, tries: nat -> Tries)
    requires ScopeInv(s, tries) && s.phase.Running? && s.phase.again && s.phase.next < |s.pending|
    ensures ScopeInv(Retried(s, tries), tries)
  {
    hide EffectsUpTo, EffectEntries;
    OneEffect(s.pending, s.phase.next, tries);
  }

  lemma NoEffects(pending: seq<Effect>, tries: nat -> Tries)
    ensures EffectsUpTo(pending, 0, tries) == []
  {
  }

  /** An effect's entries one by one. */
  lemma OneEffect(pending: seq<Effect>, k: nat, tries: nat -> Tries)
    requires k < |pending|
    ensures var before, all := EffectsUpTo(pending, k, tries), EffectsUpTo(pending, k + 1, tries);
            var first, second := [Attempt(pending[k], k, false, tries(k).first)], [Attempt(pending[k], k, true, tries(k).second)];
            all == if tries(k).first then before + first
                   else before + first + second + if tries(k).second then [] else [Reported(pending[k], k)]
  {
  }

  /** A step changes nothing of any other call. */
  lemma StepSparesOthers(w: World, e: Event, outside: Outside, other: Client)
    requires Enabled(w, e) && other != e.db
    ensures var v := Next(w, e, outside);
            && (other in v.scopes <==> other in w.scopes) && (other in w.scopes ==> v.scopes[other] == w.scopes[other])
            && (other in v.owners <==> other in w.owners) && (other in w.owners ==> v.owners[other] == w.owners[other])
            && (other in v.effects <==> other in w.effects)
  {
  }

  lemma StepKeepsMaps(w: World, e: Event, outside: Outside)
    requires Inv(w, outside) && Enabled(w, e)
    ensures var v := Next(w, e, outside);
            && v.owners.Keys == v.effects
            && (e.db in v.effects <==> e.db in v.scopes && IsInside(v.scopes[e.db].phase))
            && (e.db in v.owners && e.db in v.scopes ==> v.owners[e.db] == v.scopes[e.db].owner)
  {
    hide ScopeInv;
  }

  lemma InvStep(w: World, e: Event, outside: Outside)
    requires Inv(w, outside) && Enabled(w, e)
    ensures Inv(Next(w, e, outside), outside)
  {
    hide Next, Enabled, ScopeInv, IsInside;
    StepKeepsScope(w, e, outside);
    StepKeepsMaps(w, e, outside);
    var v := Next(w, e, outside);
    forall db | db != e.db
      ensures db in v.effects <==> db in v.scopes && IsInside(v.scopes[db].phase)
      ensures db in v.scopes ==> ScopeInv(v.scopes[db], outside(db))
      ensures db in v.owners && db in v.scopes ==> v.owners[db] == v.scopes[db].owner
    {
      StepSparesOthers(w, e, outside, db);
    }
  }

  lemma {:induction false} InvReachable(events: seq<Event>, outside: Outside, w: World)
    requires Reaches(events, outside, w)
    ensures Inv(w, outside)
  {
    hide Next, Enabled, Inv;
    if events == [] {
      NobodyInv(outside);
    } else {
      var v := RunEvents(events[..|events| - 1], outside).value;
      InvReachable(events[..|events| - 1], outside, v);
      InvStep(v, events[|events| - 1], outside);
    }
  }

  lemma NobodyInv(outside: Outside)
    ensures Inv(NOBODY, outside)
  {
  }

  lemma StepReaches(events: seq<Event>, outside: Outside, w: World, e: Event)
    requires Reaches(events, outside, w) && Enabled(w, e)
    ensures Reaches(events + [e], outside, Next(w, e, outside))
  {
    hide Next, Enabled;
    assert (events + [e])[..|events|] == events;
  }

  // ----- what is promised --------------------------------------------------------------------

  /** Over every run a client is owned, and takes effects, exactly while its own call is inside its scope. */
  lemma OwnedOnlyInside(events: seq<Event>, outside: Outside, w: World, db: Client)
    requires Reaches(events, outside, w)
    ensures db in w.owners <==> db in w.scopes && IsInside(w.scopes[db].phase)
    ensures db in w.effects <==> db in w.owners
    ensures db in w.owners ==> w.owners[db] == w.scopes[db].owner
  {
    hide Reaches, IsInside;
    InvReachable(events, outside, w);
  }

  /** Over every run an effect is tried only after its transaction committed and its client was revoked. */
  lemma TriedOnlyAfterCommit(events: seq<Event>, outside: Outside, w: World, db: Client, i: nat)
    requires Reaches(events, outside, w) && db in w.scopes && i < |w.scopes[db].trace|
    requires w.scopes[db].trace[i].Attempt? || w.scopes[db].trace[i].Reported?
    ensures w.scopes[db].trace[0] == Committed && db !in w.owners && db !in w.effects
  {
    hide Reaches, EffectsUpTo;
    InvReachable(events, outside, w);
  }

  lemma {:induction false} UpToGrows(pending: seq<Effect>, k: nat, n: nat, tries: nat -> Tries)
    requires k <= n <= |pending|
    ensures EffectsUpTo(pending, k, tries) <= EffectsUpTo(pending, n, tries)
    decreases n
  {
    hide EffectEntries;
    if k < n {
      UpToGrows(pending, k, n - 1, tries);
    }
  }

  /** Over every run a call has shown nothing, a roll-back alone, or the beginning of its commit and all that
      belongs to its registered effects, in order; and all of it when its effects are through. EffectsExact
      says which entries those are. */
  lemma TraceExact(events: seq<Event>, outside: Outside, w: World, db: Client)
    requires Reaches(events, outside, w) && db in w.scopes
    ensures var s := w.scopes[db];
            var full := [Committed] + EffectsUpTo(s.pending, |s.pending|, outside(db));
            && (s.trace == [RolledBack] || s.trace <= full)
            && (s.phase == Running(|s.pending|, false) ==> s.trace == full)
  {
    hide Reaches, EffectsUpTo;
    InvReachable(events, outside, w);
    var s := w.scopes[db];
    if s.phase.Running? {
      var k := s.phase.next;
      UpToGrows(s.pending, k, |s.pending|, outside(db));
      if s.phase.again {
        OneEffect(s.pending, k, outside(db));
        UpToGrows(s.pending, k + 1, |s.pending|, outside(db));
      }
    }
  }

  /** The effects that a run of events registers with a client: those that come while it is registered. */
  function Accepted(events: seq<Event>, outside: Outside, db: Client): seq<Effect> {
    if events == [] then []
    else
      var init, e := events[..|events| - 1], events[|events| - 1];
      var before := RunEvents(init, outside);
      Accepted(init, outside, db)
      + if e.RegisterEffect? && e.db == db && before.Some? && db in before.value.effects then [e.effect] else []
  }

  /** Over every run a call's effects are exactly those registered with its client inside its scope, in the
      order of registration, whatever other calls do in between. */
  lemma {:induction false} PendingIsAccepted(events: seq<Event>, outside: Outside, w: World, db: Client)
    requires Reaches(events, outside, w)
    ensures db in w.scopes ==> w.scopes[db].pending == Accepted(events, outside, db)
    ensures db !in w.scopes ==> Accepted(events, outside, db) == []
  {
    hide ScopeInv, EffectsUpTo;
    if events != [] {
      var v, e := RunEvents(events[..|events| - 1], outside).value, events[|events| - 1];
      PendingIsAccepted(events[..|events| - 1], outside, v, db);
      InvReachable(events[..|events| - 1], outside, v);
      if e.db != db { StepSparesOthers(v, e, outside, db); }
    }
  }

  /** No failure stops the effects after it: a committed call can always go on until all are through. */
  lemma GoesOn(events: seq<Event>, outside: Outside, w: World, db: Client)
    requires Reaches(events, outside, w) && db in w.scopes && w.scopes[db].phase.Running?
    ensures w.scopes[db].phase == Running(|w.scopes[db].pending|, false)
            || Enabled(w, TryEffect(db)) || Enabled(w, RetryEffect(db))
  {
    hide Reaches, EffectsUpTo;
    InvReachable(events, outside, w);
  }
}
