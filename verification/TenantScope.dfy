/** Tenant transactions: who owns a client, and the effects that run after its commit. Every method takes the
    steps of TenantRun, whose theorems therefore hold of the runtime after any of them. */
module TenantScope {
  import opened Common
  import opened TenantRun

  /** What the callback given to withTenantDb does with its client before it settles. */
  datatype Action = Register(effect: Effect) | RequireOwner(clerkOrgId: string)

  /** How the callback settles, and whether the transaction around it then ends as asked: commits a value, or
      rolls back and passes on the callback's exception. */
  datatype Settlement<T> = Value(value: T, endsAsAsked: bool) | Raise

  datatype Outcome<T> = Resolved(value: T) | Rejected

  /** s.trim() is empty. */
  predicate IsBlank(s: string) {
    Trim(s) == []
  }

  /** An account id with one printable ASCII character in it is let through; one of blanks and line ends is not. */
  lemma BlankMeaning(s: string)
    ensures (exists i :: 0 <= i < |s| && '!' <= s[i] <= '~') ==> !IsBlank(s)
    ensures (forall i :: 0 <= i < |s| ==> s[i] in {' ', '\t', '\n', '\r'}) ==> IsBlank(s)
  {
    TrimsToNothing(s);
  }

  /** The effects a callback has registered when it stops, and whether it ran to its end. */
  function RunActions(actions: seq<Action>, owner: string, pending: seq<Effect>): (seq<Effect>, bool) {
    if actions == [] then (pending, true)
    else
      match actions[0]
      case Register(effect) => RunActions(actions[1..], owner, pending + [effect])
      case RequireOwner(org) => if org == owner then RunActions(actions[1..], owner, pending) else (pending, false)
  }

  /** The effects an action list registers. */
  function Registrations(actions: seq<Action>): seq<Effect> {
    if actions == [] then []
    else (if actions[0].Register? then [actions[0].effect] else []) + Registrations(actions[1..])
  }

  /** A callback runs to its end exactly when every ownership check names its own account, and has then registered
      everything, in order; otherwise it stops at the first other check. */
  lemma {:induction false} RunActionsMeaning(actions: seq<Action>, owner: string, pending: seq<Effect>)
    ensures var (registered, done) := RunActions(actions, owner, pending);
            && (done <==> forall i :: 0 <= i < |actions| && actions[i].RequireOwner? ==> actions[i].clerkOrgId == owner)
            && (done ==> registered == pending + Registrations(actions))
            && pending <= registered
  {
    if actions != [] {
      match actions[0]
      case Register(effect) => RunActionsMeaning(actions[1..], owner, pending + [effect]);
      case RequireOwner(org) => RunActionsMeaning(actions[1..], owner, pending);
    }
  }

  lemma UpToNone(effects: seq<Effect>, tries: nat -> Tries)
    ensures [Committed] + EffectsUpTo(effects, 0, tries) == [Committed]
  {
  }

  lemma UpToNext(effects: seq<Effect>, k: nat, tries: nat -> Tries)
    requires k < |effects|
    ensures [Committed] + EffectsUpTo(effects, k, tries) + EffectEntries(effects[k], k, tries(k))
            == [Committed] + EffectsUpTo(effects, k + 1, tries)
  {
    hide EffectEntries;
  }

  lemma AddThenRemove<V>(m: map<Client, V>, c: Client, v: V, w: V)
    requires c !in m
    ensures m[c := v] - {c} == m && m[c := v][c := w] - {c} == m
  {
    assert m[c := v][c := w] == m[c := w];
  }

  // ----- the fields and the steps ------------------------------------------------------------

  /** The fields of the runtime hold what the world holds. */
  ghost predicate Agrees(owners: map<Client, string>, effects: map<Client, seq<Effect>>, journal: map<Client, seq<Entry>>,
                         nextClient: nat, w: World)
  {
    && owners == w.owners && effects.Keys == w.effects && journal.Keys == w.scopes.Keys
    && (forall c :: c in effects ==> c in w.scopes && effects[c] == w.scopes[c].pending)
    && (forall c :: c in journal ==> journal[c] == w.scopes[c].trace)
    && (forall c :: c in journal ==> c < nextClient)
  }

  lemma RegisterAgrees(owners: map<Client, string>, effects: map<Client, seq<Effect>>, journal: map<Client, seq<Entry>>,
                       nextClient: nat, events: seq<Event>, w: World, db: Client, effect: Effect, outside: Outside)
    requires Reaches(events, outside, w) && Agrees(owners, effects, journal, nextClient, w)
    ensures var e := RegisterEffect(db, effect);
            && Enabled(w, e) && Reaches(events + [e], outside, Next(w, e, outside))
            && Agrees(owners, if db in effects then effects[db := effects[db] + [effect]] else effects, journal, nextClient,
                      Next(w, e, outside))
    ensures db in effects <==> db in owners
  {
    hide Reaches, ScopeInv;
    InvReachable(events, outside, w);
    StepReaches(events, outside, w, RegisterEffect(db, effect));
  }

  lemma BeginAgrees(owners: map<Client, string>, effects: map<Client, seq<Effect>>, journal: map<Client, seq<Entry>>,
                    nextClient: nat, events: seq<Event>, w: World, clerkOrgId: string, outside: Outside)
    requires Reaches(events, outside, w) && Agrees(owners, effects, journal, nextClient, w)
    ensures var e := BeginScope(nextClient, clerkOrgId);
            && Enabled(w, e) && Reaches(events + [e], outside, Next(w, e, outside))
            && Agrees(owners[nextClient := clerkOrgId], effects[nextClient := []], journal[nextClient := []],
                      nextClient + 1, Next(w, e, outside))
    ensures nextClient !in owners && nextClient !in effects && nextClient !in w.scopes
  {
    hide Reaches, ScopeInv;
    InvReachable(events, outside, w);
    StepReaches(events, outside, w, BeginScope(nextClient, clerkOrgId));
  }

  /** The world after a transaction has settled and its client is revoked. */
  function Ended(w: World, db: Client, commits: bool, outside: Outside): World
    requires db in w.scopes && w.scopes[db].phase == Active
  {
    Next(Next(w, SettleTransaction(db, commits), outside), RevokeClient(db), outside)
  }

  lemma EndAgrees(owners: map<Client, string>, effects: map<Client, seq<Effect>>, journal: map<Client, seq<Entry>>,
                  nextClient: nat, events: seq<Event>, w: World, db: Client, commits: bool, outside: Outside)
    requires Reaches(events, outside, w) && Agrees(owners, effects, journal, nextClient, w)
    requires db in w.scopes && w.scopes[db].phase == Active
    ensures Reaches(events + [SettleTransaction(db, commits), RevokeClient(db)], outside, Ended(w, db, commits, outside))
    ensures db in journal
    ensures Agrees(owners - {db}, effects - {db}, journal[db := journal[db] + [if commits then Committed else RolledBack]],
                   nextClient, Ended(w, db, commits, outside))
  {
    hide Reaches;
    var e, f := SettleTransaction(db, commits), RevokeClient(db);
    StepReaches(events, outside, w, e);
    StepReaches(events + [e], outside, Next(w, e, outside), f);
    assert events + [e] + [f] == events + [e, f];
  }

  /** The steps of one runEffect, and the world after them. */
  function EffectEvents(db: Client, tries: Tries): seq<Event> {
    if tries.first then [TryEffect(db)] else [TryEffect(db), RetryEffect(db)]
  }

  function EffectRun(w: World, db: Client, outside: Outside): World
    requires Enabled(w, TryEffect(db))
  {
    var tried := Next(w, TryEffect(db), outside);
    if outside(db)(w.scopes[db].phase.next).first then tried else Next(tried, RetryEffect(db), outside)
  }

  lemma EffectRunMeans(w: World, db: Client, outside: Outside)
    requires Enabled(w, TryEffect(db))
    ensures var s, k := w.scopes[db], w.scopes[db].phase.next;
            EffectRun(w, db, outside) ==
              w.(scopes := w.scopes[db := s.(phase := Running(k + 1, false),
                                             trace := s.trace + EffectEntries(s.pending[k], k, outside(db)(k)))])
  {
    var s, k := w.scopes[db], w.scopes[db].phase.next;
    if !outside(db)(k).first {
      var t := Tried(s, outside(db));
      assert Retried(t, outside(db)).trace == s.trace + EffectEntries(s.pending[k], k, outside(db)(k));
    }
  }

  lemma EffectAgrees(owners: map<Client, string>, effects: map<Client, seq<Effect>>, journal: map<Client, seq<Entry>>,
                     nextClient: nat, events: seq<Event>, w: World, db: Client, outside: Outside)
    requires Reaches(events, outside, w) && Agrees(owners, effects, journal, nextClient, w) && Enabled(w, TryEffect(db))
    ensures db in w.scopes && db in journal && w.scopes[db].phase.Running? && w.scopes[db].phase.next < |w.scopes[db].pending|
    ensures var s, k := w.scopes[db], w.scopes[db].phase.next;
            && Reaches(events + EffectEvents(db, outside(db)(k)), outside, EffectRun(w, db, outside))
            && Agrees(owners, effects, journal[db := journal[db] + EffectEntries(s.pending[k], k, outside(db)(k))], nextClient,
                      EffectRun(w, db, outside))
  {
    hide Reaches, ScopeInv, EffectEntries;
    var k := w.scopes[db].phase.next;
    NotInside(events, outside, w, db);
    StepReaches(events, outside, w, TryEffect(db));
    EffectRunMeans(w, db, outside);
    var tried := Next(w, TryEffect(db), outside);
    if !outside(db)(k).first {
      StepReaches(events + [TryEffect(db)], outside, tried, RetryEffect(db));
      assert events + [TryEffect(db)] + [RetryEffect(db)] == events + [TryEffect(db), RetryEffect(db)];
    }
  }

  lemma NotInside(events: seq<Event>, outside: Outside, w: World, db: Client)
    requires Reaches(events, outside, w) && Enabled(w, TryEffect(db))
    ensures db !in w.effects
  {
    hide Reaches, ScopeInv;
    InvReachable(events, outside, w);
  }

  class TenantRuntime {
    const outside: Outside                // how the tries of effects go
    var owners: map<Client, string>
    var effects: map<Client, seq<Effect>>
    var journal: map<Client, seq<Entry>>  // what each transaction has shown so far
    var nextClient: nat
    ghost var events: seq<Event>          // the steps taken so far
    ghost var world: World                // and where they lead

    ghost predicate Valid()
      reads this
    {
      Reaches(events, outside, world) && Agrees(owners, effects, journal, nextClient, world)
    }

    constructor (tries: Outside)
      ensures Valid() && outside == tries && events == [] && owners == map[]
    {
      outside := tries;
      owners, effects, journal, nextClient, events, world := map[], map[], map[], 0, [], NOBODY;
    }

    /** assertTenantDb: false is its exception. A client that passes is inside its own open scope. */
    method AssertTenantDb(db: Client, clerkOrgId: string) returns (ok: bool)
      requires Valid()
      ensures ok <==> db in owners && owners[db] == clerkOrgId
      ensures ok <==> db in world.scopes && IsInside(world.scopes[db].phase) && world.scopes[db].owner == clerkOrgId
    {
      hide Reaches, ScopeInv;
      InvReachable(events, outside, world);
      return db in owners && owners[db] == clerkOrgId;
    }

    /** afterTenantCommit: false is its exception, which a client gets before and after its scope. */
    method AfterTenantCommit(db: Client, effect: Effect) returns (ok: bool)
      requires Valid()
      modifies this`effects, this`events, this`world
      ensures Valid()
      ensures events == old(events) + [RegisterEffect(db, effect)]
      ensures world == Next(old(world), RegisterEffect(db, effect), outside)
      ensures ok <==> db in old(owners)
      ensures !ok ==> effects == old(effects)
      ensures ok ==> db in old(effects) && effects == old(effects)[db := old(effects)[db] + [effect]]
    {
      hide Reaches, Next, Enabled, Agrees;
      RegisterAgrees(owners, effects, journal, nextClient, events, world, db, effect, outside);
      events, world := events + [RegisterEffect(db, effect)], Next(world, RegisterEffect(db, effect), outside);
      if db !in effects {
        return false;
      }
      effects := effects[db := effects[db] + [effect]];
      return true;
    }

    method BeginScope(clerkOrgId: string) returns (db: Client)
      requires Valid()
      modifies this
      ensures Valid()
      ensures db == old(nextClient) && db !in old(owners) && db !in old(effects) && db !in old(world).scopes
      ensures events == old(events) + [Event.BeginScope(db, clerkOrgId)]
      ensures Enabled(old(world), Event.BeginScope(db, clerkOrgId))
      ensures world == Next(old(world), Event.BeginScope(db, clerkOrgId), outside)
      ensures owners == old(owners)[db := clerkOrgId] && effects == old(effects)[db := []]
      ensures journal == old(journal)[db := []]
    {
      hide Reaches, Next, Enabled, Agrees;
      db := nextClient;
      BeginAgrees(owners, effects, journal, nextClient, events, world, clerkOrgId, outside);
      events, world := events + [Event.BeginScope(db, clerkOrgId)], Next(world, Event.BeginScope(db, clerkOrgId), outside);
      nextClient := nextClient + 1;
      owners, effects, journal := owners[db := clerkOrgId], effects[db := []], journal[db := []];
    }

    /** The transaction commits or rolls back, and the finally block revokes its client. */
    method EndScope(db: Client, commits: bool)
      requires Valid() && db in world.scopes && world.scopes[db].phase == Active
      modifies this
      ensures Valid()
      ensures events == old(events) + [SettleTransaction(db, commits), RevokeClient(db)]
      ensures world == Ended(old(world), db, commits, outside)
      ensures db in old(journal)
      ensures owners == old(owners) - {db} && effects == old(effects) - {db}
      ensures journal == old(journal)[db := old(journal)[db] + [if commits then Committed else RolledBack]]
    {
      hide Reaches, Next, Enabled, Agrees, Ended;
      EndAgrees(owners, effects, journal, nextClient, events, world, db, commits, outside);
      events, world := events + [SettleTransaction(db, commits), RevokeClient(db)], Ended(world, db, commits, outside);
      journal := journal[db := journal[db] + [if commits then Committed else RolledBack]];
      owners, effects := owners - {db}, effects - {db};
    }

    /** runEffect on the effect whose turn it is. */
    method RunEffect(db: Client, effect: Effect, index: nat)
      requires Valid() && Enabled(world, TryEffect(db))
      requires index == world.scopes[db].phase.next && effect == world.scopes[db].pending[index]
      modifies this`journal, this`events, this`world
      ensures Valid()
      ensures events == old(events) + EffectEvents(db, outside(db)(index))
      ensures world == EffectRun(old(world), db, outside)
      ensures db in old(journal) && journal == old(journal)[db := old(journal)[db] + EffectEntries(effect, index, outside(db)(index))]
    {
      hide Reaches, Next, Enabled, Agrees, EffectRun;
      EffectAgrees(owners, effects, journal, nextClient, events, world, db, outside);
      events, world := events + EffectEvents(db, outside(db)(index)), EffectRun(world, db, outside);
      var entries := journal[db];
      if outside(db)(index).first {
        journal := journal[db := entries + [Attempt(effect, index, false, true)]];
        return;
      }
      entries := entries + [Attempt(effect, index, false, false)];
      entries := entries + [Attempt(effect, index, true, outside(db)(index).second)];
      if !outside(db)(index).second {
        entries := entries + [Reported(effect, index)];
      }
      assert entries == old(journal)[db] + EffectEntries(effect, index, outside(db)(index));
      journal := journal[db := entries];
    }

    /** withTenantDb. `insideScope` says whether the caller runs in an active tenant scope, `begins` whether the
        transaction starts. The result is the callback's, whatever its effects do; effects run only after a
        commit; and no ownership or effect entry outlives the call. */
    method WithTenantDb<T>(clerkOrgId: string, insideScope: bool, begins: bool, actions: seq<Action>,
                           settlement: Settlement<T>)
      returns (outcome: Outcome<T>, ghost db: Client)
      requires Valid()
      modifies this
      ensures Valid()
      ensures old(events) <= events
      ensures owners == old(owners) && effects == old(effects)
      ensures db == old(nextClient)
      ensures var (pending, done) := RunActions(actions, clerkOrgId, []);
              var started := !IsBlank(clerkOrgId) && !insideScope && begins;
              var committed := started && done && settlement.Value? && settlement.endsAsAsked;
              var trace := if committed then [Committed] + EffectsUpTo(pending, |pending|, outside(db)) else [RolledBack];
              var phase := if committed then Running(|pending|, false) else Thrown;
              && outcome == (if committed then Resolved(settlement.value) else Rejected)
              && journal == (if started then old(journal)[db := trace] else old(journal))
              && world == if started then old(world).(scopes := old(world).scopes[db := Scope(clerkOrgId, phase, pending, trace)])
                          else old(world)
    {
      hide RunActions, EffectsUpTo, IsBlank, Valid;
      db := nextClient;
      if IsBlank(clerkOrgId) || insideScope || !begins {
        return Rejected, db;
      }
      var tx, pending, commits := Transact(clerkOrgId, actions, settlement.Value? && settlement.endsAsAsked);
      if !commits {
        return Rejected, tx;
      }
      RunEffects(tx, pending);
      return Resolved(settlement.value), tx;
    }

    /** The transaction with its callback, which commits if the callback runs to its end and commit is `asked`. */
    method Transact(clerkOrgId: string, actions: seq<Action>, asked: bool)
      returns (tx: Client, pending: seq<Effect>, commits: bool)
      requires Valid()
      modifies this
      ensures Valid() && old(events) <= events
      ensures owners == old(owners) && effects == old(effects) && tx == old(nextClient)
      ensures var (registered, done) := RunActions(actions, clerkOrgId, []);
              pending == registered && (commits <==> done && asked)
      ensures var entry := if commits then Committed else RolledBack;
              && journal == old(journal)[tx := [entry]]
              && world == old(world).(scopes := old(world).scopes[tx :=
                   Scope(clerkOrgId, if commits then Running(0, false) else Thrown, pending, [entry])])
    {
      hide RunActions, Valid, Next, Enabled, Ended;
      MapsAgree();
      tx := BeginScope(clerkOrgId);
      Begun(old(world), tx, clerkOrgId, outside);
      var done := RunCallback(tx, clerkOrgId, actions);
      pending := effects[tx];
      commits := done && asked;
      ghost var called := world;
      EndScope(tx, commits);
      EndedMeans(old(world), called, tx, clerkOrgId, pending, commits, outside);
      AddThenRemove(old(owners), tx, clerkOrgId, clerkOrgId);
      AddThenRemove(old(effects), tx, [], pending);
      FirstEntry(old(journal), tx, if commits then Committed else RolledBack);
    }

    lemma MapsAgree()
      requires Valid()
      ensures owners == world.owners && effects.Keys == world.effects
    {
    }

    /** The callback: false when one of its ownership checks throws. */
    method RunCallback(tx: Client, clerkOrgId: string, actions: seq<Action>) returns (done: bool)
      requires Valid() && tx in owners && owners[tx] == clerkOrgId && tx in effects && effects[tx] == []
      requires tx in world.effects && tx in world.scopes && world.scopes[tx] == Scope(clerkOrgId, Active, [], [])
      modifies this`effects, this`events, this`world
      ensures Valid() && old(events) <= events
      ensures tx in effects && effects == old(effects)[tx := effects[tx]]
      ensures world == old(world).(scopes := old(world).scopes[tx := Scope(clerkOrgId, Active, effects[tx], [])])
      ensures RunActions(actions, clerkOrgId, []) == (effects[tx], done)
    {
      hide Valid, Next;
      var i := 0;
      done := true;
      assert world.scopes == world.scopes[tx := world.scopes[tx]];
      while i < |actions| && done
        invariant 0 <= i <= |actions|
        invariant Valid() && old(events) <= events && tx in effects && effects == old(effects)[tx := effects[tx]]
        invariant world == old(world).(scopes := old(world).scopes[tx := Scope(clerkOrgId, Active, effects[tx], [])])
        invariant RunActions(actions, clerkOrgId, []) ==
                    if !done then (effects[tx], false) else RunActions(actions[i..], clerkOrgId, effects[tx])
      {
        match actions[i] {
          case Register(effect) =>
            RegisteredMeans(world, tx, effect, outside);
            var ok := AfterTenantCommit(tx, effect);
          case RequireOwner(org) =>
            done := AssertTenantDb(tx, org);
        }
        i := i + 1;
      }
    }

    /** The loop over the registered effects. */
    method RunEffects(tx: Client, pending: seq<Effect>)
      requires Valid() && tx in world.scopes && tx in journal && journal[tx] == [Committed]
      requires world.scopes[tx].phase == Running(0, false)
      requires world.scopes[tx].pending == pending && world.scopes[tx].trace == [Committed]
      modifies this`journal, this`events, this`world
      ensures Valid() && old(events) <= events
      ensures var trace := [Committed] + EffectsUpTo(pending, |pending|, outside(tx));
              && journal == old(journal)[tx := trace]
              && world == old(world).(scopes := old(world).scopes[tx :=
                   old(world).scopes[tx].(phase := Running(|pending|, false), trace := trace)])
    {
      hide EffectEntries, EffectsUpTo, Valid, EffectRun;
      var k := 0;
      UpToNone(pending, outside(tx));
      assert journal == journal[tx := [Committed]];
      assert world.scopes == world.scopes[tx := world.scopes[tx]];
      ghost var s := world.scopes[tx];
      while k < |pending|
        invariant 0 <= k <= |pending|
        invariant Valid() && old(events) <= events
        invariant var trace := [Committed] + EffectsUpTo(pending, k, outside(tx));
                  && journal == old(journal)[tx := trace]
                  && world == old(world).(scopes := old(world).scopes[tx := s.(phase := Running(k, false), trace := trace)])
      {
        EffectRunMeans(world, tx, outside);
        RunEffect(tx, pending[k], k);
        UpToNext(pending, k, outside(tx));
        k := k + 1;
      }
    }
  }

  lemma FirstEntry(journal: map<Client, seq<Entry>>, db: Client, entry: Entry)
    ensures journal[db := []][db := [] + [entry]] == journal[db := [entry]]
  {
    assert [] + [entry] == [entry];
  }

  lemma Begun(w: World, db: Client, clerkOrgId: string, outside: Outside)
    requires Enabled(w, BeginScope(db, clerkOrgId))
    ensures Next(w, BeginScope(db, clerkOrgId), outside)
            == World(w.owners[db := clerkOrgId], w.effects + {db}, w.scopes[db := Scope(clerkOrgId, Active, [], [])])
  {
  }

  lemma RegisteredMeans(w: World, db: Client, effect: Effect, outside: Outside)
    requires db in w.effects && db in w.scopes
    ensures Next(w, RegisterEffect(db, effect), outside)
            == w.(scopes := w.scopes[db := w.scopes[db].(pending := w.scopes[db].pending + [effect])])
  {
  }

  /** A call that has settled leaves the two maps as they were before it. */
  lemma EndedMeans(before: World, called: World, db: Client, clerkOrgId: string, pending: seq<Effect>, commits: bool, outside: Outside)
    requires db !in before.owners && db !in before.effects
    requires called == World(before.owners[db := clerkOrgId], before.effects + {db},
                             before.scopes[db := Scope(clerkOrgId, Active, pending, [])])
    ensures Ended(called, db, commits, outside) ==
              before.(scopes := before.scopes[db :=
                Scope(clerkOrgId, if commits then Running(0, false) else Thrown, pending,
                      [if commits then Committed else RolledBack])])
  {
    AddThenRemove(before.owners, db, clerkOrgId, clerkOrgId);
    assert (before.effects + {db}) - {db} == before.effects;
    assert [] + [if commits then Committed else RolledBack] == [if commits then Committed else RolledBack];
  }

  // ----- withTenantResult --------------------------------------------------------------------

  /** withTenantResult: a failed result of the callback rolls its transaction back and is returned as it is,
      unless the roll-back fails with another error; every other failure of the transaction is an exception. */
  method WithTenantResult<T, E>(runtime: TenantRuntime, clerkOrgId: string, insideScope: bool, begins: bool,
                                actions: seq<Action>, settlement: Settlement<Result<T, E>>)
    returns (outcome: Outcome<Result<T, E>>, ghost db: Client)
    requires runtime.Valid()
    modifies runtime
    ensures runtime.Valid() && runtime.owners == old(runtime.owners) && runtime.effects == old(runtime.effects)
    ensures db == old(runtime.nextClient)
    ensures outcome.Resolved? <==>
              && !IsBlank(clerkOrgId) && !insideScope && begins && RunActions(actions, clerkOrgId, []).1
              && settlement.Value? && settlement.endsAsAsked
    ensures outcome.Resolved? ==> settlement.Value? && settlement.value == outcome.value
    ensures outcome.Resolved? && outcome.value.Failed? ==> runtime.journal == old(runtime.journal)[db := [RolledBack]]
    ensures outcome.Resolved? && outcome.value.Ok? ==>
              var (pending, _) := RunActions(actions, clerkOrgId, []);
              runtime.journal ==
                old(runtime.journal)[db := [Committed] + EffectsUpTo(pending, |pending|, runtime.outside(db))]
    ensures outcome.Rejected? ==> runtime.journal == old(runtime.journal)
                                  || runtime.journal == old(runtime.journal)[db := [RolledBack]]
  {
    hide EffectsUpTo, Reaches;
    var inner := if settlement.Value? && settlement.value.Failed? then Raise else settlement;
    outcome, db := runtime.WithTenantDb(clerkOrgId, insideScope, begins, actions, inner);
    var (_, done) := RunActions(actions, clerkOrgId, []);
    if settlement.Value? && settlement.value.Failed? && settlement.endsAsAsked {
      if !IsBlank(clerkOrgId) && !insideScope && begins && done {
        outcome := Resolved(settlement.value);
      }
    }
  }
}
