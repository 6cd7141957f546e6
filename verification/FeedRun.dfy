/** Any number of feed operations at once. A creation holds the account's plan-limit lock from its slug search to
    its insertion; a change reads the permission, then the state, then writes by id alone, and anything may come
    between. */
module FeedRun {
  import opened Common
  import opened FeedService

  type CallId = nat

  /** How far a call is: the permission given, the state read and accepted, or a feed about to be inserted. */
  datatype Call =
    | Asked(actor: Actor, id: FeedId, change: Change)
    | Accepted(actor: Actor, id: FeedId, change: Change)
    | Creating(feed: Feed, isDefault: bool)

  datatype World = World(
    feeds: map<FeedId, Feed>,
    defaults: set<FeedId>,
    activeTokens: map<FeedId, nat>,
    calls: map<CallId, Call>
  )

  datatype Event =
    | Ask(call: CallId, actor: Actor, id: FeedId, change: Change)
    | Load(call: CallId)
    | Write(call: CallId, now: int)
    | Prepare(call: CallId, feed: Feed, lowered: string, isDefault: bool)
    | Insert(call: CallId, id: FeedId)
    | Quit(call: CallId)

  const EMPTY := World(map[], {}, map[], map[])

  /** Nobody holds the lock of the account. */
  ghost predicate IsUnlocked(w: World, clerkOrgId: string) {
    forall c :: c in w.calls && w.calls[c].Creating? ==> w.calls[c].feed.clerkOrgId != clerkOrgId
  }

  ghost predicate HasDefault(w: World, clerkOrgId: string) {
    exists id :: id in w.defaults && id in w.feeds && w.feeds[id].clerkOrgId == clerkOrgId
  }

  ghost predicate Enabled(w: World, e: Event) {
    match e
    case Ask(call, _, _, _) => call !in w.calls
    case Load(call) => call in w.calls && w.calls[call].Asked?
    case Write(call, _) => call in w.calls && w.calls[call].Accepted? && w.calls[call].id in w.feeds && w.calls[call].id in w.activeTokens
    case Prepare(call, feed, lowered, isDefault) =>
      && call !in w.calls && IsUnlocked(w, feed.clerkOrgId)
      && feed.status == Active && feed.archivedAt == None
      && IsFirstFree(feed.slug, Slugify(lowered), TakenSlugs(w.feeds, feed.clerkOrgId))
      && (isDefault ==> !HasDefault(w, feed.clerkOrgId))
    case Insert(call, id) => call in w.calls && w.calls[call].Creating? && id !in w.feeds
    case Quit(call) => call in w.calls
  }

  ghost function Next(w: World, e: Event): World
    requires Enabled(w, e)
  {
    match e
    case Ask(call, actor, id, change) =>
      if AskRefusal(w.feeds, change, actor, id).Some? then w else w.(calls := w.calls[call := Asked(actor, id, change)])
    case Load(call) =>
      var c := w.calls[call];
      if StateRefusal(w.feeds, c.change, c.actor, c.id).Some? then w.(calls := w.calls - {call})
      else w.(calls := w.calls[call := Accepted(c.actor, c.id, c.change)])
    case Write(call, now) =>
      var c := w.calls[call];
      World(w.feeds[c.id := Written(w.feeds[c.id], c.change, now)], w.defaults,
            w.activeTokens[c.id := TokensWritten(w.activeTokens[c.id], c.change)], w.calls - {call})
    case Prepare(call, feed, _, isDefault) => w.(calls := w.calls[call := Creating(feed, isDefault)])
    case Insert(call, id) =>
      var c := w.calls[call];
      World(w.feeds[id := c.feed], if c.isDefault then w.defaults + {id} else w.defaults, w.activeTokens[id := 1], w.calls - {call})
    case Quit(call) => w.(calls := w.calls - {call})
  }

  /** The world that a sequence of events leads to from w, unless one of them cannot happen. */
  ghost function RunFrom(w: World, events: seq<Event>): Option<World>
    decreases |events|
  {
    if events == [] then Some(w)
    else if Enabled(w, events[0]) then RunFrom(Next(w, events[0]), events[1..])
    else None
  }

  ghost predicate Reaches(events: seq<Event>, w: World) {
    RunFrom(EMPTY, events) == Some(w)
  }

  // ----- slugs and default feeds -------------------------------------------------------------

  ghost predicate SlugIsFree(feeds: map<FeedId, Feed>, feed: Feed) {
    forall id :: id in feeds && feeds[id].clerkOrgId == feed.clerkOrgId ==> feeds[id].slug != feed.slug
  }

  /** What a creation relies on until it inserts its feed. */
  ghost predicate CreationInv(w: World, c: Call) {
    c.Creating? ==>
      && c.feed.status == Active && c.feed.archivedAt == None && SlugIsFree(w.feeds, c.feed)
      && (c.isDefault ==> !HasDefault(w, c.feed.clerkOrgId))
  }

  ghost predicate OneCreation(calls: map<CallId, Call>) {
    forall a, b :: a in calls && b in calls && a != b && calls[a].Creating? && calls[b].Creating? ==>
      calls[a].feed.clerkOrgId != calls[b].feed.clerkOrgId
  }

  ghost predicate Inv(w: World) {
    && w.activeTokens.Keys == w.feeds.Keys
    && UniqueSlugs(w.feeds) && OneDefault(w.feeds, w.defaults)
    && OneCreation(w.calls) && (forall c :: c in w.calls ==> CreationInv(w, w.calls[c]))
    && (forall c :: c in w.calls && w.calls[c].Accepted? ==> w.calls[c].id in w.feeds)
  }

  /** No write touches the account or the slug of a feed. */
  lemma WrittenKeeps(feed: Feed, change: Change, now: int)
    ensures Written(feed, change, now).clerkOrgId == feed.clerkOrgId && Written(feed, change, now).slug == feed.slug
  {
  }

  lemma WriteStep(w: World, e: Event)
    requires Inv(w) && Enabled(w, e) && e.Write?
    ensures Inv(Next(w, e))
  {
    hide IsFirstFree, TakenSlugs, Written, UniqueSlugs, OneDefault, OneCreation;
    var c := w.calls[e.call];
    WrittenKeeps(w.feeds[c.id], c.change, e.now);
    var v := Next(w, e);
    SameSlugs(w.feeds, w.defaults, c.id, v.feeds[c.id]);
    FewerCreations(w.calls, e.call);
    forall d | d in v.calls ensures CreationInv(v, v.calls[d]) {
      assert CreationInv(w, w.calls[d]);
    }
  }

  lemma SameSlugs(feeds: map<FeedId, Feed>, defaults: set<FeedId>, id: FeedId, feed: Feed)
    requires UniqueSlugs(feeds) && OneDefault(feeds, defaults) && id in feeds
    requires feed.clerkOrgId == feeds[id].clerkOrgId && feed.slug == feeds[id].slug
    ensures UniqueSlugs(feeds[id := feed]) && OneDefault(feeds[id := feed], defaults)
  {
  }

  lemma FewerCreations(calls: map<CallId, Call>, call: CallId)
    requires OneCreation(calls)
    ensures OneCreation(calls - {call})
  {
  }

  lemma InsertStep(w: World, e: Event)
    requires Inv(w) && Enabled(w, e) && e.Insert?
    ensures Inv(Next(w, e))
  {
    hide IsFirstFree, TakenSlugs, UniqueSlugs, OneDefault, OneCreation;
    var c, v := w.calls[e.call], Next(w, e);
    assert CreationInv(w, c);
    OneMoreFeed(w.feeds, w.defaults, e.id, c.feed, c.isDefault);
    FewerCreations(w.calls, e.call);
    forall d | d in v.calls ensures CreationInv(v, v.calls[d]) {
      assert CreationInv(w, w.calls[d]);
      if w.calls[d].Creating? { OtherAccount(w.calls, e.call, d); }
    }
  }

  lemma OtherAccount(calls: map<CallId, Call>, a: CallId, b: CallId)
    requires OneCreation(calls) && a in calls && b in calls && a != b && calls[a].Creating? && calls[b].Creating?
    ensures calls[a].feed.clerkOrgId != calls[b].feed.clerkOrgId
  {
  }

  lemma OneMoreFeed(feeds: map<FeedId, Feed>, defaults: set<FeedId>, id: FeedId, feed: Feed, isDefault: bool)
    requires UniqueSlugs(feeds) && OneDefault(feeds, defaults) && id !in feeds && SlugIsFree(feeds, feed)
    requires isDefault ==> forall d :: d in defaults && d in feeds ==> feeds[d].clerkOrgId != feed.clerkOrgId
    ensures UniqueSlugs(feeds[id := feed])
    ensures OneDefault(feeds[id := feed], if isDefault then defaults + {id} else defaults)
  {
  }

  lemma PrepareStep(w: World, e: Event)
    requires Inv(w) && Enabled(w, e) && e.Prepare?
    ensures Inv(Next(w, e))
  {
    hide UniqueSlugs, OneDefault, Slugify;
    var v := Next(w, e);
    forall id | id in w.feeds && w.feeds[id].clerkOrgId == e.feed.clerkOrgId ensures w.feeds[id].slug != e.feed.slug {
      assert w.feeds[id].slug in TakenSlugs(w.feeds, e.feed.clerkOrgId);
    }
    forall d | d in v.calls ensures CreationInv(v, v.calls[d]) {
      if d != e.call { assert CreationInv(w, w.calls[d]); }
    }
  }

  lemma OtherStep(w: World, e: Event)
    requires Inv(w) && Enabled(w, e) && (e.Ask? || e.Load? || e.Quit?)
    ensures Inv(Next(w, e))
  {
    hide UniqueSlugs, OneDefault;
    var v := Next(w, e);
    forall d | d in v.calls ensures CreationInv(v, v.calls[d]) {
      if v.calls[d].Creating? { assert CreationInv(w, w.calls[d]); }
    }
  }

  lemma InvStep(w: World, e: Event)
    requires Inv(w) && Enabled(w, e)
    ensures Inv(Next(w, e))
  {
    hide Inv, Next, Enabled;
    match e
    case Write(_, _) => WriteStep(w, e);
    case Insert(_, _) => InsertStep(w, e);
    case Prepare(_, _, _, _) => PrepareStep(w, e);
    case Ask(_, _, _, _) => OtherStep(w, e);
    case Load(_) => OtherStep(w, e);
    case Quit(_) => OtherStep(w, e);
  }

  lemma {:induction false} InvRun(w: World, events: seq<Event>)
    requires Inv(w) && RunFrom(w, events).Some?
    ensures Inv(RunFrom(w, events).value)
    decreases |events|
  {
    hide Inv, Next, Enabled;
    if events != [] {
      InvStep(w, events[0]);
      InvRun(Next(w, events[0]), events[1..]);
    }
  }

  /** Whatever comes between their steps, in every reachable state no two feeds of an account share a slug, and an
      account has at most one default feed. */
  lemma SlugsStayUnique(events: seq<Event>, w: World)
    requires Reaches(events, w)
    ensures Inv(w) && UniqueSlugs(w.feeds) && OneDefault(w.feeds, w.defaults)
  {
    hide RunFrom;
    InvRun(EMPTY, events);
  }

  // ----- the status columns ------------------------------------------------------------------

  /** A pause or resume that writes to a feed archived since it read it. */
  ghost predicate IsLateTransition(w: World, e: Event) {
    && e.Write? && e.call in w.calls && w.calls[e.call].Accepted?
    && (w.calls[e.call].change.Pause? || w.calls[e.call].change.Resume?)
    && w.calls[e.call].id in w.feeds && w.feeds[w.calls[e.call].id].archivedAt.Some?
  }

  /** Exactly when a write keeps the two columns and the tokens in agreement. */
  lemma WriteAgrees(feeds: map<FeedId, Feed>, tokens: map<FeedId, nat>, id: FeedId, change: Change, now: int)
    requires StatusAgrees(feeds, tokens) && id in feeds && id in tokens
    ensures StatusAgrees(feeds[id := Written(feeds[id], change, now)], tokens[id := TokensWritten(tokens[id], change)])
            <==> (change.Pause? || change.Resume? ==> feeds[id].archivedAt.None?)
  {
    var v := feeds[id := Written(feeds[id], change, now)];
    var t := tokens[id := TokensWritten(tokens[id], change)];
    assert StatusAgrees(v, t) ==> (v[id].status == Archived <==> v[id].archivedAt.Some?);
  }

  /** An event breaks the agreement exactly when it is a late transition. */
  lemma StatusStep(w: World, e: Event)
    requires Inv(w) && Enabled(w, e) && StatusAgrees(w.feeds, w.activeTokens)
    ensures var v := Next(w, e); StatusAgrees(v.feeds, v.activeTokens) <==> !IsLateTransition(w, e)
  {
    hide Written, TokensWritten, UniqueSlugs, OneDefault, IsFirstFree;
    if e.Write? {
      var c := w.calls[e.call];
      WriteAgrees(w.feeds, w.activeTokens, c.id, c.change, e.now);
    } else if e.Insert? {
      assert CreationInv(w, w.calls[e.call]);
    }
  }

  /** No event of the run from w is a late transition. */
  ghost predicate NoLateTransition(w: World, events: seq<Event>)
    decreases |events|
  {
    events == []
    || (Enabled(w, events[0]) && !IsLateTransition(w, events[0]) && NoLateTransition(Next(w, events[0]), events[1..]))
  }

  /** Archived feeds are marked in both columns and have no active token, in every state of the run from w. */
  ghost predicate AgreesThroughout(w: World, events: seq<Event>)
    decreases |events|
  {
    && StatusAgrees(w.feeds, w.activeTokens)
    && (events == [] || (Enabled(w, events[0]) && AgreesThroughout(Next(w, events[0]), events[1..])))
  }

  lemma {:induction false} StatusRun(w: World, events: seq<Event>)
    requires Inv(w) && StatusAgrees(w.feeds, w.activeTokens) && RunFrom(w, events).Some?
    ensures AgreesThroughout(w, events) <==> NoLateTransition(w, events)
    decreases |events|
  {
    hide Inv, Next, Enabled, IsLateTransition, StatusAgrees;
    if events != [] {
      StatusStep(w, events[0]);
      InvStep(w, events[0]);
      var v := Next(w, events[0]);
      if StatusAgrees(v.feeds, v.activeTokens) {
        StatusRun(v, events[1..]);
      }
    }
  }

  /** Over every run the columns and tokens agree throughout exactly when no pause or resume is late. */
  lemma StatusAgreesExactly(events: seq<Event>, w: World)
    requires Reaches(events, w)
    ensures AgreesThroughout(EMPTY, events) <==> NoLateTransition(EMPTY, events)
  {
    hide RunFrom, NoLateTransition, AgreesThroughout;
    StatusRun(EMPTY, events);
  }

  // ----- the race of a resume with an archive ------------------------------------------------

  /** Active or paused in one column and archived in the other. */
  predicate IsStuck(feed: Feed) {
    feed.status != Archived && feed.archivedAt.Some?
  }

  /** Nobody can change such a feed any more: not even an admin of its account gets anything but a refusal. */
  lemma StuckRefusesAll(feeds: map<FeedId, Feed>, id: FeedId, change: Change, actor: Actor)
    requires id in feeds && IsStuck(feeds[id])
    ensures StateRefusal(feeds, change, actor, id).Some?
    ensures actor.isAdmin && InScope(feeds[id], actor) && (change.Rename? && change.scopes.Some? ==> change.scopesValid) ==>
              Refusal(feeds, change, actor, id) == Some(if change.Restore? then InvalidStatusTransition else FeedArchived)
  {
  }

  ghost predicate NobodyAccepted(w: World, id: FeedId) {
    forall c :: c in w.calls && w.calls[c].Accepted? ==> w.calls[c].id != id
  }

  lemma StuckStep(w: World, e: Event, id: FeedId)
    requires Enabled(w, e) && id in w.feeds && IsStuck(w.feeds[id]) && NobodyAccepted(w, id)
    ensures var v := Next(w, e); id in v.feeds && v.feeds[id] == w.feeds[id] && NobodyAccepted(v, id)
  {
    hide IsFirstFree, Written, StateRefusal, AskRefusal;
    if e.Load? && w.calls[e.call].id == id {
      StuckRefusesAll(w.feeds, id, w.calls[e.call].change, w.calls[e.call].actor);
    }
  }

  /** Once no accepted call is left that could still write to it, it stays as it is for ever. */
  lemma {:induction false} StuckForEver(w: World, events: seq<Event>, id: FeedId)
    requires id in w.feeds && IsStuck(w.feeds[id]) && NobodyAccepted(w, id) && RunFrom(w, events).Some?
    ensures var v := RunFrom(w, events).value; id in v.feeds && v.feeds[id] == w.feeds[id]
    decreases |events|
  {
    hide Next, Enabled, IsStuck, NobodyAccepted;
    if events != [] {
      StuckStep(w, events[0], id);
      StuckForEver(Next(w, events[0]), events[1..], id);
    }
  }

  lemma RunStep(w: World, e: Event, events: seq<Event>)
    requires Enabled(w, e)
    ensures RunFrom(w, [e] + events) == RunFrom(Next(w, e), events)
  {
    hide Next, Enabled;
    assert ([e] + events)[1..] == events;
  }

  lemma {:induction false} RunConcat(w: World, first: seq<Event>, second: seq<Event>)
    requires RunFrom(w, first).Some?
    ensures RunFrom(w, first + second) == RunFrom(RunFrom(w, first).value, second)
    decreases |first|
  {
    hide Next, Enabled;
    if first == [] {
      assert first + second == second;
    } else {
      RunConcat(Next(w, first[0]), first[1..], second);
      assert (first + second)[0] == first[0] && (first + second)[1..] == first[1..] + second;
    }
  }

  /** The three steps of a change that nothing comes between do what the change does at once. */
  function Alone(call: CallId, actor: Actor, id: FeedId, change: Change, now: int): seq<Event> {
    [Ask(call, actor, id, change), Load(call), Write(call, now)]
  }

  function Changed(w: World, id: FeedId, change: Change, now: int): World
    requires id in w.feeds && id in w.activeTokens
  {
    w.(feeds := w.feeds[id := Written(w.feeds[id], change, now)],
       activeTokens := w.activeTokens[id := TokensWritten(w.activeTokens[id], change)])
  }

  lemma AskAndLoad(w: World, call: CallId, actor: Actor, id: FeedId, change: Change, events: seq<Event>)
    requires call !in w.calls && Refusal(w.feeds, change, actor, id).None?
    ensures RunFrom(w, [Ask(call, actor, id, change), Load(call)] + events)
            == RunFrom(w.(calls := w.calls[call := Accepted(actor, id, change)]), events)
  {
    hide RunFrom, StateRefusal, AskRefusal;
    var ask, load := Ask(call, actor, id, change), Load(call);
    var asked := w.(calls := w.calls[call := Asked(actor, id, change)]);
    assert Next(w, ask) == asked;
    assert asked.calls[call := Accepted(actor, id, change)] == w.calls[call := Accepted(actor, id, change)];
    RunStep(w, ask, [load] + events);
    RunStep(asked, load, events);
    assert [ask, load] + events == [ask] + ([load] + events);
  }

  lemma WriteNow(w: World, call: CallId, actor: Actor, id: FeedId, change: Change, now: int, events: seq<Event>)
    requires call !in w.calls && id in w.feeds && id in w.activeTokens
    ensures RunFrom(w.(calls := w.calls[call := Accepted(actor, id, change)]), [Write(call, now)] + events)
            == RunFrom(Changed(w, id, change, now), events)
  {
    hide RunFrom, Written;
    var ready := w.(calls := w.calls[call := Accepted(actor, id, change)]);
    RunStep(ready, Write(call, now), events);
    assert ready.calls - {call} == w.calls;
  }

  lemma AloneIsAtOnce(w: World, call: CallId, actor: Actor, id: FeedId, change: Change, now: int, events: seq<Event>)
    requires call !in w.calls && id in w.feeds && id in w.activeTokens && Refusal(w.feeds, change, actor, id).None?
    ensures RunFrom(w, Alone(call, actor, id, change, now) + events) == RunFrom(Changed(w, id, change, now), events)
  {
    hide RunFrom, Changed, Refusal;
    AskAndLoad(w, call, actor, id, change, [Write(call, now)] + events);
    WriteNow(w, call, actor, id, change, now, events);
    assert Alone(call, actor, id, change, now) + events
           == [Ask(call, actor, id, change), Load(call)] + ([Write(call, now)] + events);
  }

  /** A change that is refused leaves nothing behind, whether for its permission or for the state it reads. */
  lemma RefusedAlone(w: World, call: CallId, actor: Actor, id: FeedId, change: Change)
    requires call !in w.calls && Refusal(w.feeds, change, actor, id).Some?
    ensures var ask := Ask(call, actor, id, change);
            if AskRefusal(w.feeds, change, actor, id).Some? then RunFrom(w, [ask]) == Some(w)
            else RunFrom(w, [ask, Load(call)]) == Some(w)
  {
    hide RunFrom, StateRefusal, AskRefusal;
    var ask, load := Ask(call, actor, id, change), Load(call);
    NoMore(w);
    if AskRefusal(w.feeds, change, actor, id).Some? {
      RunStep(w, ask, []);
      assert [ask] + [] == [ask];
    } else {
      var asked := w.(calls := w.calls[call := Asked(actor, id, change)]);
      assert Next(w, ask) == asked && asked.calls - {call} == w.calls;
      RunStep(w, ask, [load]);
      RunStep(asked, load, []);
      assert [ask] + [load] == [ask, load] && [load] + [] == [load];
    }
  }

  /** A call `late` that has read the feed, another that changes it at once, and then the write of the first. */
  function Late(late: CallId, other: CallId, actor: Actor, id: FeedId, change: Change, between: Change, now: int): seq<Event> {
    [Ask(late, actor, id, change), Load(late)] + (Alone(other, actor, id, between, now) + [Write(late, now)])
  }

  lemma LateWrite(w: World, late: CallId, other: CallId, actor: Actor, id: FeedId, change: Change, between: Change, now: int)
    requires late !in w.calls && other !in w.calls && late != other && id in w.feeds && id in w.activeTokens
    requires Refusal(w.feeds, change, actor, id).None? && Refusal(w.feeds, between, actor, id).None?
    ensures RunFrom(w, Late(late, other, actor, id, change, between, now))
            == Some(Changed(Changed(w, id, between, now), id, change, now))
  {
    hide RunFrom, Refusal, Written, Alone;
    var ready := w.(calls := w.calls[late := Accepted(actor, id, change)]);
    AskAndLoad(w, late, actor, id, change, Alone(other, actor, id, between, now) + [Write(late, now)]);
    AloneIsAtOnce(ready, other, actor, id, between, now, [Write(late, now)]);
    var changed := Changed(w, id, between, now);
    assert Changed(ready, id, between, now) == changed.(calls := changed.calls[late := Accepted(actor, id, change)]);
    WriteNow(changed, late, actor, id, change, now, []);
    assert [Write(late, now)] + [] == [Write(late, now)];
    NoMore(Changed(changed, id, change, now));
  }

  lemma NoMore(w: World)
    ensures RunFrom(w, []) == Some(w)
  {
  }

  /** A resume that reads a paused feed, an archive, and then the write of the resume: the feed is active in one
      column, archived in the other, without a token, and stuck. */
  lemma ResumeAfterArchive(w: World, late: CallId, other: CallId, actor: Actor, id: FeedId, now: int)
    requires late !in w.calls && other !in w.calls && late != other && id in w.feeds && id in w.activeTokens
    requires w.feeds[id].status == Paused && w.feeds[id].archivedAt == None
    requires actor.isAdmin && InScope(w.feeds[id], actor)
    ensures var v := RunFrom(w, Late(late, other, actor, id, Resume, Archive, now));
            && v.Some? && id in v.value.feeds && id in v.value.activeTokens && v.value.calls == w.calls
            && v.value.feeds[id] == w.feeds[id].(status := Active, archivedAt := Some(now)) && IsStuck(v.value.feeds[id])
            && v.value.activeTokens[id] == 0
  {
    hide RunFrom, Late;
    LateWrite(w, late, other, actor, id, Resume, Archive, now);
  }

  /** A restore that reads an archived feed, another restore with a resume after it, and then the write of the
      first: the feed is paused again although the resume succeeded and nobody paused it. */
  lemma RestoreAfterResume(w: World, late: CallId, other: CallId, actor: Actor, id: FeedId, now: int)
    requires late !in w.calls && other !in w.calls && late != other && id in w.feeds && id in w.activeTokens
    requires w.feeds[id].status == Archived && actor.isAdmin && InScope(w.feeds[id], actor)
    ensures var resumed := Alone(other, actor, id, Restore, now) + Alone(other, actor, id, Resume, now);
            var events := [Ask(late, actor, id, Restore), Load(late)] + (resumed + [Write(late, now)]);
            var v := RunFrom(w, events);
            && v.Some? && id in v.value.feeds && v.value.feeds[id] == w.feeds[id].(status := Paused, archivedAt := None)
            && var u := RunFrom(w, resumed);
               u.Some? && id in u.value.feeds && u.value.feeds[id] == w.feeds[id].(status := Active, archivedAt := None)
  {
    hide RunFrom, Alone;
    var first, second := Alone(other, actor, id, Restore, now), Alone(other, actor, id, Resume, now);
    var last := [Write(late, now)];
    var ready := w.(calls := w.calls[late := Accepted(actor, id, Restore)]);
    AskAndLoad(w, late, actor, id, Restore, first + second + last);
    AloneIsAtOnce(ready, other, actor, id, Restore, now, second + last);
    assert first + second + last == first + (second + last);
    var restored := Changed(ready, id, Restore, now);
    AloneIsAtOnce(restored, other, actor, id, Resume, now, last);
    var changed := Changed(Changed(w, id, Restore, now), id, Resume, now);
    assert Changed(restored, id, Resume, now) == changed.(calls := changed.calls[late := Accepted(actor, id, Restore)]);
    WriteNow(changed, late, actor, id, Restore, now, []);
    assert last + [] == last;
    NoMore(Changed(changed, id, Restore, now));
    AloneIsAtOnce(w, other, actor, id, Restore, now, second);
    AloneIsAtOnce(Changed(w, id, Restore, now), other, actor, id, Resume, now, []);
    assert second + [] == second;
    NoMore(changed);
  }

  /** An update that reads a live feed, an archive, and then the write of the update: it changes an archived feed. */
  lemma RenameAfterArchive(w: World, late: CallId, other: CallId, actor: Actor, id: FeedId, name: string, now: int)
    requires late !in w.calls && other !in w.calls && late != other && id in w.feeds && id in w.activeTokens
    requires w.feeds[id].status != Archived && w.feeds[id].archivedAt == None
    requires actor.isAdmin && InScope(w.feeds[id], actor)
    ensures var v := RunFrom(w, Late(late, other, actor, id, Rename(Some(name), None, true), Archive, now));
            && v.Some? && id in v.value.feeds
            && v.value.feeds[id] == w.feeds[id].(name := name, status := Archived, archivedAt := Some(now))
  {
    hide RunFrom, Late;
    LateWrite(w, late, other, actor, id, Rename(Some(name), None, true), Archive, now);
  }

  // ----- the race from the beginning ---------------------------------------------------------

  const ADMIN := Actor("org", "company", "user", true)
  const TEAM_FEED := Feed("org", None, "", "feed", Active, None, Some("user"), 0, [OrgScope])

  lemma FeedCreated()
    ensures var w := World(map[0 := TEAM_FEED], {}, map[0 := 1], map[]);
            Reaches([Prepare(0, TEAM_FEED, "", false), Insert(0, 0)], w)
  {
    hide RunFrom;
    var prepare, insert := Prepare(0, TEAM_FEED, "", false), Insert(0, 0);
    assert Slugify("") == "feed" == Candidate("feed", 0);
    assert IsFirstFree("feed", Slugify(""), TakenSlugs(EMPTY.feeds, "org"));
    assert Enabled(EMPTY, prepare);
    var prepared := EMPTY.(calls := map[0 := Creating(TEAM_FEED, false)]);
    assert Next(EMPTY, prepare) == prepared;
    RunStep(EMPTY, prepare, [insert]);
    RunStep(prepared, insert, []);
    assert [prepare] + [insert] == [prepare, insert] && [insert] + [] == [insert];
    assert prepared.calls - {0} == map[];
    NoMore(Next(prepared, insert));
  }

  /** Created, paused, resumed and archived at once: a stuck feed is reachable from an empty table. */
  lemma StuckFeedReachable()
    ensures exists events, w :: Reaches(events, w) && 0 in w.feeds && IsStuck(w.feeds[0]) && NobodyAccepted(w, 0)
  {
    hide RunFrom, Alone, Late;
    var w := World(map[0 := TEAM_FEED], {}, map[0 := 1], map[]);
    var created := [Prepare(0, TEAM_FEED, "", false), Insert(0, 0)];
    var paused := Alone(0, ADMIN, 0, Pause, 1);
    var race := Late(1, 2, ADMIN, 0, Resume, Archive, 2);
    FeedCreated();
    RunConcat(EMPTY, created, paused + race);
    AloneIsAtOnce(w, 0, ADMIN, 0, Pause, 1, race);
    var u := Changed(w, 0, Pause, 1);
    ResumeAfterArchive(u, 1, 2, ADMIN, 0, 2);
    var v := RunFrom(u, race).value;
    assert Reaches(created + (paused + race), v);
  }
}
