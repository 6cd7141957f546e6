/** Calendar feeds of an account: slugs, the default feed, self-service feeds and the status lifecycle. */
module FeedService {
  import opened Common
  import opened Text

  // ----- slugs -------------------------------------------------------------------------------

  predicate IsSlugChar(c: char) {
    'a' <= c <= 'z' || '0' <= c <= '9'
  }

  /** .replace(/[^a-z0-9]+/g, "-"); `inRun` says that the character before was replaced too. */
  function ReplaceRuns(s: string, inRun: bool): string {
    if s == [] then []
    else if IsSlugChar(s[0]) then [s[0]] + ReplaceRuns(s[1..], false)
    else (if inRun then [] else "-") + ReplaceRuns(s[1..], true)
  }

  /** .replace(/^-+|-+$/g, "") */
  function StripLeading(s: string): string {
    if s != [] && s[0] == '-' then StripLeading(s[1..]) else s
  }

  function StripTrailing(s: string): string {
    if s != [] && s[|s| - 1] == '-' then StripTrailing(s[..|s| - 1]) else s
  }

  /** slugify of a name that toLowerCase has lowered. Its trim() removes only what the last step strips. */
  function Slugify(lowered: string): string {
    var slug := StripTrailing(StripLeading(ReplaceRuns(lowered, false)));
    if slug != [] then slug else "feed"
  }

  /** Words of a-z and 0-9 joined by single hyphens. */
  ghost predicate IsSlug(s: string) {
    && s != [] && IsSlugChar(s[0]) && IsSlugChar(s[|s| - 1])
    && (forall i :: 0 <= i < |s| ==> IsSlugChar(s[i]) || s[i] == '-')
    && (forall i :: 0 <= i < |s| - 1 ==> IsSlugChar(s[i]) || IsSlugChar(s[i + 1]))
  }

  ghost predicate IsHyphenated(s: string) {
    && (forall i :: 0 <= i < |s| ==> IsSlugChar(s[i]) || s[i] == '-')
    && (forall i :: 0 <= i < |s| - 1 ==> IsSlugChar(s[i]) || IsSlugChar(s[i + 1]))
  }

  lemma {:induction false} ReplaceRunsHyphenates(s: string, inRun: bool)
    ensures IsHyphenated(ReplaceRuns(s, inRun))
    ensures inRun && ReplaceRuns(s, inRun) != [] ==> IsSlugChar(ReplaceRuns(s, inRun)[0])
  {
    if s != [] {
      ReplaceRunsHyphenates(s[1..], !IsSlugChar(s[0]));
    }
  }

  lemma {:induction false} StripLeadingIsSuffix(s: string)
    requires IsHyphenated(s)
    ensures IsHyphenated(StripLeading(s)) && (StripLeading(s) != [] ==> IsSlugChar(StripLeading(s)[0]))
  {
    if s != [] && s[0] == '-' {
      StripLeadingIsSuffix(s[1..]);
    }
  }

  lemma {:induction false} StripTrailingIsPrefix(s: string)
    requires IsHyphenated(s) && (s != [] ==> IsSlugChar(s[0]))
    ensures StripTrailing(s) == [] || IsSlug(StripTrailing(s))
  {
    if s != [] && s[|s| - 1] == '-' {
      StripTrailingIsPrefix(s[..|s| - 1]);
    }
  }

  /** Every slug is well-formed. */
  lemma SlugifyWellFormed(lowered: string)
    ensures IsSlug(Slugify(lowered))
  {
    var replaced := ReplaceRuns(lowered, false);
    ReplaceRunsHyphenates(lowered, false);
    StripLeadingIsSuffix(replaced);
    StripTrailingIsPrefix(StripLeading(replaced));
  }

  lemma {:induction false} HyphenatedIsKept(s: string)
    requires IsHyphenated(s)
    ensures ReplaceRuns(s, false) == s
    ensures s != [] && IsSlugChar(s[0]) ==> ReplaceRuns(s, true) == s
  {
    if s != [] {
      HyphenatedIsKept(s[1..]);
      assert s == [s[0]] + s[1..];
    }
  }

  /** A slug slugifies to itself. */
  lemma SlugifyIdempotent(slug: string)
    requires IsSlug(slug)
    ensures Slugify(slug) == slug
  {
    HyphenatedIsKept(slug);
  }

  /** The letters and digits of a text, in order. */
  function SlugChars(s: string): string {
    if s == [] then [] else (if IsSlugChar(s[0]) then [s[0]] else []) + SlugChars(s[1..])
  }

  lemma {:induction false} SlugCharsConcat(a: string, b: string)
    ensures SlugChars(a + b) == SlugChars(a) + SlugChars(b)
  {
    hide IsSlugChar;
    if a == [] {
      assert a + b == b;
    } else {
      assert (a + b)[0] == a[0] && (a + b)[1..] == a[1..] + b;
      SlugCharsConcat(a[1..], b);
      var first := if IsSlugChar(a[0]) then [a[0]] else [];
      assert SlugChars(a) == first + SlugChars(a[1..]);
      assert SlugChars(a + b) == first + (SlugChars(a[1..]) + SlugChars(b));
    }
  }

  lemma {:induction false} ReplaceRunsKeeps(s: string, inRun: bool)
    ensures SlugChars(ReplaceRuns(s, inRun)) == SlugChars(s)
  {
    if s != [] {
      ReplaceRunsKeeps(s[1..], !IsSlugChar(s[0]));
      var first := if IsSlugChar(s[0]) then [s[0]] else if inRun then [] else "-";
      assert ReplaceRuns(s, inRun) == first + ReplaceRuns(s[1..], !IsSlugChar(s[0]));
      SlugCharsConcat(first, ReplaceRuns(s[1..], !IsSlugChar(s[0])));
      assert SlugChars(first) == if IsSlugChar(s[0]) then [s[0]] else [];
    }
  }

  lemma {:induction false} StripLeadingKeeps(s: string)
    ensures SlugChars(StripLeading(s)) == SlugChars(s)
  {
    if s != [] && s[0] == '-' {
      StripLeadingKeeps(s[1..]);
    }
  }

  lemma {:induction false} StripTrailingKeeps(s: string)
    ensures SlugChars(StripTrailing(s)) == SlugChars(s)
  {
    if s != [] && s[|s| - 1] == '-' {
      StripTrailingKeeps(s[..|s| - 1]);
      SlugCharsConcat(s[..|s| - 1], "-");
      assert s == s[..|s| - 1] + "-";
    }
  }

  /** A slug loses no letter or digit of the name; a name without any gets "feed". */
  lemma SlugifyKeepsLetters(lowered: string)
    ensures SlugChars(lowered) == [] ==> Slugify(lowered) == "feed"
    ensures SlugChars(lowered) != [] ==> SlugChars(Slugify(lowered)) == SlugChars(lowered)
  {
    var replaced := ReplaceRuns(lowered, false);
    ReplaceRunsKeeps(lowered, false);
    StripLeadingKeeps(replaced);
    StripTrailingKeeps(StripLeading(replaced));
    ReplaceRunsHyphenates(lowered, false);
    StripLeadingIsSuffix(replaced);
    StripTrailingIsPrefix(StripLeading(replaced));
  }

  /** How many letters and digits a text begins with. */
  function WordLength(s: string): (n: nat)
    ensures n <= |s| && (forall i :: 0 <= i < n ==> IsSlugChar(s[i])) && (n < |s| ==> !IsSlugChar(s[n]))
  {
    if s != [] && IsSlugChar(s[0]) then 1 + WordLength(s[1..]) else 0
  }

  /** The words of a text: its unbroken runs of a-z and 0-9. */
  function Words(s: string): (words: seq<string>)
    ensures forall i :: 0 <= i < |words| ==> words[i] != []
    decreases |s|
  {
    if s == [] then []
    else if IsSlugChar(s[0]) then [s[..WordLength(s)]] + Words(s[WordLength(s)..])
    else Words(s[1..])
  }

  function Hyphenated(words: seq<string>): string {
    if words == [] then "" else if |words| == 1 then words[0] else words[0] + "-" + Hyphenated(words[1..])
  }

  lemma {:induction false} ReplaceWord(s: string, n: nat, inRun: bool)
    requires n <= |s| && forall i :: 0 <= i < n ==> IsSlugChar(s[i])
    ensures ReplaceRuns(s, inRun) == s[..n] + ReplaceRuns(s[n..], if n == 0 then inRun else false)
  {
    if n > 0 {
      ReplaceWord(s[1..], n - 1, false);
      assert s[..n] == [s[0]] + s[1..][..n - 1] && s[n..] == s[1..][n - 1..];
    } else {
      assert s[0..] == s;
    }
  }

  lemma {:induction false} StripConcat(a: string, b: string)
    ensures StripTrailing(a + b) == if StripTrailing(b) != [] then a + StripTrailing(b) else StripTrailing(a)
    decreases |b|
  {
    if b == [] {
      assert a + b == a;
    } else if b[|b| - 1] == '-' {
      assert (a + b)[..|a + b| - 1] == a + b[..|b| - 1];
      StripConcat(a, b[..|b| - 1]);
    }
  }

  lemma WordThenRest(word: string, u: string)
    requires word != [] && IsSlugChar(word[|word| - 1])
    ensures StripTrailing(word) == word
    ensures StripTrailing(word + ("-" + u)) ==
              if StripTrailing(u) == [] then word else word + "-" + StripTrailing(u)
  {
    StripConcat(word, "-" + u);
    StripConcat("-", u);
    assert StripTrailing("-") == [] by { assert "-"[..0] == ""; }
    assert word + ("-" + StripTrailing(u)) == word + "-" + StripTrailing(u);
  }

  /** One step of ReplaceRuns and of Words over a word, and over a character that is in none. */
  lemma WordStep(s: string)
    requires s != [] && IsSlugChar(s[0])
    ensures var n := WordLength(s);
            && 0 < n && IsSlugChar(s[..n][n - 1])
            && ReplaceRuns(s, true) == s[..n] + (if n == |s| then "" else "-" + ReplaceRuns(s[n..], true))
            && Words(s) == [s[..n]] + Words(s[n..])
  {
    hide ReplaceRuns, Words, WordLength;
    var n := WordLength(s);
    WordFirst(s);
    ReplaceWord(s, n, true);
    assert s[..n][n - 1] == s[n - 1];
    var rest := s[n..];
    if n < |s| {
      assert rest[0] == s[n];
      OtherStep(rest);
    } else {
      NoWords();
      assert rest == "";
    }
  }

  lemma WordFirst(s: string)
    requires s != [] && IsSlugChar(s[0])
    ensures 0 < WordLength(s) && Words(s) == [s[..WordLength(s)]] + Words(s[WordLength(s)..])
  {
    hide ReplaceRuns;
  }

  lemma OtherStep(s: string)
    requires s != [] && !IsSlugChar(s[0])
    ensures ReplaceRuns(s, true) == ReplaceRuns(s[1..], true) && ReplaceRuns(s, false) == "-" + ReplaceRuns(s, true)
    ensures Words(s) == Words(s[1..])
  {
    assert ReplaceRuns(s, true) == [] + ReplaceRuns(s[1..], true) == ReplaceRuns(s[1..], true);
  }

  lemma HyphenatedStep(word: string, words: seq<string>)
    ensures Hyphenated([word] + words) == if words == [] then word else word + "-" + Hyphenated(words)
  {
    assert ([word] + words)[1..] == words;
  }

  lemma {:induction false} RunsAreWords(s: string)
    ensures StripTrailing(ReplaceRuns(s, true)) == Hyphenated(Words(s))
    decreases |s|
  {
    hide StripTrailing, ReplaceRuns, Words, Hyphenated, IsSlugChar;
    if s == [] {
      NoWords();
    } else if IsSlugChar(s[0]) {
      var n := WordLength(s);
      var word, rest := s[..n], s[n..];
      WordStep(s);
      WordThenRest(word, ReplaceRuns(rest, true));
      RunsAreWords(rest);
      HyphenatedStep(word, Words(rest));
      HyphenatedIsEmpty(Words(rest));
      if n == |s| {
        NoWords();
        assert rest == "" && word + "" == word;
      } else {
        assert word + ("-" + ReplaceRuns(rest, true)) == ReplaceRuns(s, true);
      }
    } else {
      OtherStep(s);
      RunsAreWords(s[1..]);
    }
  }

  lemma NoWords()
    ensures StripTrailing(ReplaceRuns("", true)) == Hyphenated(Words("")) == "" && Words("") == []
    ensures ReplaceRuns("", false) == ""
  {
  }

  lemma HyphenatedIsEmpty(words: seq<string>)
    requires forall i :: 0 <= i < |words| ==> words[i] != []
    ensures Hyphenated(words) == [] <==> words == []
  {
  }

  /** A slug is the words of the name joined by single hyphens; a name without words gets "feed". */
  lemma SlugifyIsWords(lowered: string)
    ensures Slugify(lowered) == if Words(lowered) == [] then "feed" else Hyphenated(Words(lowered))
  {
    hide ReplaceRuns, StripLeading, StripTrailing, Words, Hyphenated;
    RunsAreWords(lowered);
    HyphenatedIsEmpty(Words(lowered));
    WithoutLeading(lowered);
  }

  lemma WithoutLeading(s: string)
    ensures StripLeading(ReplaceRuns(s, false)) == ReplaceRuns(s, true)
  {
    var runs := ReplaceRuns(s, true);
    ReplaceRunsHyphenates(s, true);
    assert StripLeading(runs) == runs;
    if s != [] && !IsSlugChar(s[0]) {
      OtherStep(s);
      assert ("-" + runs)[1..] == runs;
    }
  }

  /** The candidates makeUniqueSlug tries, in order. */
  function Candidate(base: string, n: nat): string {
    if n == 0 then base else base + "-" + Decimal(n + 1)
  }

  /** They are base, base-2, base-3, ... */
  lemma CandidateTexts(base: string, n: nat)
    requires n >= 2
    ensures Candidate(base, 0) == base && Candidate(base, n - 1) == base + "-" + Decimal(n)
  {
  }

  lemma CandidatesDiffer(base: string, m: nat, n: nat)
    requires m != n
    ensures Candidate(base, m) != Candidate(base, n)
  {
    if m == 0 {
      assert |Candidate(base, n)| > |base|;
    } else if n == 0 {
      assert |Candidate(base, m)| > |base|;
    } else {
      DecimalInjective(m + 1, n + 1);
      assert Candidate(base, m)[|base| + 1..] == Decimal(m + 1);
      assert Candidate(base, n)[|base| + 1..] == Decimal(n + 1);
    }
  }

  // ----- feeds -------------------------------------------------------------------------------

  type FeedId = nat
  datatype ScopeType = SelfScope | ManagerTeam | OrgScope | TeamScope | PersonScope
  datatype Status = Active | Paused | Archived
  datatype OwnKind = Personal | Team

  datatype Feed = Feed(
    clerkOrgId: string,
    organisationId: Option<string>,
    name: string,
    slug: string,
    status: Status,
    archivedAt: Option<int>,
    createdBy: Option<string>,
    createdAt: int,
    scopes: seq<ScopeType>
  )

  datatype Error =
    | FeedArchived
    | FeedNotFound
    | InvalidScope
    | InvalidStatusTransition
    | NotAuthorised
    | UnknownError
    | InvalidRequest

  datatype Created = Created(created: bool, feedId: FeedId)

  /** Who acts, and for which account and company. */
  datatype Actor = Actor(clerkOrgId: string, organisationId: string, userId: string, isAdmin: bool)

  predicate InScope(feed: Feed, actor: Actor) {
    feed.clerkOrgId == actor.clerkOrgId && (feed.organisationId.None? || feed.organisationId.value == actor.organisationId)
  }

  /** isFeedOwner */
  predicate IsFeedOwner(feed: Feed, userId: string) {
    && feed.createdBy == Some(userId) && feed.scopes != []
    && forall i :: 0 <= i < |feed.scopes| ==> feed.scopes[i] == SelfScope || feed.scopes[i] == ManagerTeam
  }

  function OwnScope(kind: OwnKind): ScopeType {
    if kind == Personal then SelfScope else ManagerTeam
  }

  /** The feeds loadOwnFeedState looks for. */
  predicate IsOwnFeed(feed: Feed, actor: Actor, kind: OwnKind) {
    && feed.archivedAt.None? && InScope(feed, actor) && feed.createdBy == Some(actor.userId)
    && feed.scopes != [] && (forall i :: 0 <= i < |feed.scopes| ==> feed.scopes[i] == OwnScope(kind))
    && (feed.status == Active || feed.status == Paused)
  }

  /** The slugs taken in an account. */
  function TakenSlugs(feeds: map<FeedId, Feed>, clerkOrgId: string): set<string> {
    set id | id in feeds && feeds[id].clerkOrgId == clerkOrgId :: feeds[id].slug
  }

  /** The first candidate nobody in the account uses. */
  ghost predicate IsFirstFree(slug: string, base: string, taken: set<string>) {
    exists n: nat :: slug == Candidate(base, n) && slug !in taken && forall j: nat :: j < n ==> Candidate(base, j) in taken
  }

  /** No two feeds of an account share a slug. */
  ghost predicate UniqueSlugs(feeds: map<FeedId, Feed>) {
    forall a, b :: a in feeds && b in feeds && a != b && feeds[a].clerkOrgId == feeds[b].clerkOrgId ==>
      feeds[a].slug != feeds[b].slug
  }

  /** An account has at most one default feed. */
  ghost predicate OneDefault(feeds: map<FeedId, Feed>, defaults: set<FeedId>) {
    && (forall id :: id in defaults ==> id in feeds)
    && (forall a, b :: a in defaults && b in defaults && feeds[a].clerkOrgId == feeds[b].clerkOrgId ==> a == b)
  }

  /** An archived feed is marked in both columns, and nobody can fetch it any more. */
  ghost predicate StatusAgrees(feeds: map<FeedId, Feed>, activeTokens: map<FeedId, nat>) {
    forall id :: id in feeds ==>
      && (feeds[id].status == Archived <==> feeds[id].archivedAt.Some?)
      && (feeds[id].status == Archived ==> id in activeTokens && activeTokens[id] == 0)
  }

  lemma AddingKeeps(feeds: map<FeedId, Feed>, defaults: set<FeedId>, tokens: map<FeedId, nat>, id: FeedId, feed: Feed, isDefault: bool)
    requires UniqueSlugs(feeds) && OneDefault(feeds, defaults) && StatusAgrees(feeds, tokens) && id !in feeds
    requires forall a :: a in feeds && feeds[a].clerkOrgId == feed.clerkOrgId ==> feeds[a].slug != feed.slug
    requires isDefault ==> forall a :: a in defaults && a in feeds ==> feeds[a].clerkOrgId != feed.clerkOrgId
    requires feed.status == Active && feed.archivedAt.None?
    ensures UniqueSlugs(feeds[id := feed])
    ensures OneDefault(feeds[id := feed], if isDefault then defaults + {id} else defaults)
    ensures StatusAgrees(feeds[id := feed], tokens[id := 1])
  {
  }

  /** Changing a feed but for its account and slug keeps what holds of all feeds. */
  lemma ChangingKeeps(feeds: map<FeedId, Feed>, defaults: set<FeedId>, tokens: map<FeedId, nat>, id: FeedId, feed: Feed, active: nat)
    requires UniqueSlugs(feeds) && OneDefault(feeds, defaults) && StatusAgrees(feeds, tokens) && id in feeds && id in tokens
    requires feed.clerkOrgId == feeds[id].clerkOrgId && feed.slug == feeds[id].slug
    requires (feed.status == Archived <==> feed.archivedAt.Some?) && (feed.status == Archived ==> active == 0)
    ensures UniqueSlugs(feeds[id := feed]) && OneDefault(feeds[id := feed], defaults)
    ensures StatusAgrees(feeds[id := feed], tokens[id := active])
  {
  }

  /** What the surrounding services answer in one call: the time, the plan limit, and whether the first token
      is refused. */
  datatype Answers = Answers(now: int, withinLimit: Result<bool, Error>, tokenRefusal: Option<Error>)

  /** Why a feed is not created, if it is not. */
  function CreateRefusal(answers: Answers): Option<Error> {
    if answers.withinLimit.Failed? then Some(UnknownError)
    else if !answers.withinLimit.value then Some(InvalidRequest)
    else answers.tokenRefusal
  }

  /** Why an actor may not change a feed, if so: a feed of another account or company is not there, an admin
      may change any other, and everybody else only one of their own. */
  function ChangeRefusal(feeds: map<FeedId, Feed>, actor: Actor, id: FeedId): Option<Error> {
    if id !in feeds || !InScope(feeds[id], actor) then Some(FeedNotFound)
    else if actor.isAdmin || IsFeedOwner(feeds[id], actor.userId) then None
    else Some(NotAuthorised)
  }

  /** A feed is in an actor's reach exactly when it is of their account and of no company or their own; any other
      is answered as if it did not exist, whoever asks and whatever for. */
  lemma ReachMeaning(feeds: map<FeedId, Feed>, id: FeedId, actor: Actor, change: Change)
    requires id in feeds
    ensures InScope(feeds[id], actor) <==>
              && feeds[id].clerkOrgId == actor.clerkOrgId
              && (feeds[id].organisationId == None || feeds[id].organisationId == Some(actor.organisationId))
    ensures feeds[id].organisationId.Some? && feeds[id].organisationId.value != actor.organisationId ==>
              && ChangeRefusal(feeds, actor, id) == Some(FeedNotFound)
              && StateRefusal(feeds, change, actor, id) == Some(FeedNotFound)
    ensures InScope(feeds[id], actor) ==>
              ChangeRefusal(feeds, actor, id) ==
                if actor.isAdmin || IsFeedOwner(feeds[id], actor.userId) then None else Some(NotAuthorised)
    ensures feeds[id].clerkOrgId != actor.clerkOrgId ==>
              && ChangeRefusal(feeds, actor, id) == Some(FeedNotFound)
              && StateRefusal(feeds, change, actor, id) == Some(FeedNotFound)
  {
  }

  /** Whose feed a feed is: of its creator, when all its scopes are the creator's own calendar or team. */
  lemma OwnerMeaning(feed: Feed, userId: string)
    ensures IsFeedOwner(feed, userId) <==>
              feed.createdBy == Some(userId) && |feed.scopes| > 0 && forall s :: s in feed.scopes ==> s in {SelfScope, ManagerTeam}
  {
    assert IsFeedOwner(feed, userId) ==> forall s :: s in feed.scopes ==> s in {SelfScope, ManagerTeam};
    assert forall i :: 0 <= i < |feed.scopes| ==> feed.scopes[i] in feed.scopes;
  }

  /** What counts as an actor's own personal or team feed. */
  lemma OwnFeedMeaning(feed: Feed, actor: Actor, kind: OwnKind)
    ensures IsOwnFeed(feed, actor, kind) <==>
              && feed.createdBy == Some(actor.userId) && feed.archivedAt == None && feed.status != Archived
              && feed.clerkOrgId == actor.clerkOrgId
              && (feed.organisationId == None || feed.organisationId == Some(actor.organisationId))
              && |feed.scopes| > 0 && forall s :: s in feed.scopes ==> s == if kind == Personal then SelfScope else ManagerTeam
  {
    assert forall i :: 0 <= i < |feed.scopes| ==> feed.scopes[i] in feed.scopes;
  }

  // ----- changes to a feed -------------------------------------------------------------------

  /** updateFeed, pauseFeed, resumeFeed, archiveFeed and restoreFeed. */
  datatype Change =
    | Rename(name: Option<string>, scopes: Option<seq<ScopeType>>, scopesValid: bool)
    | Pause
    | Resume
    | Archive
    | Restore

  /** pauseFeed or resumeFeed, by the status they lead to. */
  function ToChange(toStatus: Status): Change {
    if toStatus == Paused then Pause else Resume
  }

  /** What is refused before the state of the feed is read. */
  function AskRefusal(feeds: map<FeedId, Feed>, change: Change, actor: Actor, id: FeedId): Option<Error> {
    if change.Restore? then if actor.isAdmin then None else Some(NotAuthorised)
    else if !actor.isAdmin && ChangeRefusal(feeds, actor, id).Some? then ChangeRefusal(feeds, actor, id)
    else if change.Rename? && change.scopes.Some? && !actor.isAdmin then Some(NotAuthorised)
    else if change.Rename? && change.scopes.Some? && !change.scopesValid then Some(InvalidScope)
    else None
  }

  /** What is refused for the state that is read. */
  function StateRefusal(feeds: map<FeedId, Feed>, change: Change, actor: Actor, id: FeedId): Option<Error> {
    if id !in feeds || !InScope(feeds[id], actor) then Some(FeedNotFound)
    else if change.Restore? then if feeds[id].status == Archived then None else Some(InvalidStatusTransition)
    else if feeds[id].status == Archived || feeds[id].archivedAt.Some? then Some(FeedArchived)
    else if (change.Pause? && feeds[id].status != Active) || (change.Resume? && feeds[id].status != Paused) then
      Some(InvalidStatusTransition)
    else None
  }

  /** The answer of a call that nothing comes between. */
  function Refusal(feeds: map<FeedId, Feed>, change: Change, actor: Actor, id: FeedId): Option<Error> {
    if AskRefusal(feeds, change, actor, id).Some? then AskRefusal(feeds, change, actor, id)
    else StateRefusal(feeds, change, actor, id)
  }

  /** The columns an update writes, whatever the row holds by then. */
  function Written(feed: Feed, change: Change, now: int): Feed {
    match change
    case Rename(name, scopes, _) => feed.(name := name.GetOr(feed.name), scopes := scopes.GetOr(feed.scopes))
    case Pause => feed.(status := Paused)
    case Resume => feed.(status := Active)
    case Archive => feed.(status := Archived, archivedAt := Some(now))
    case Restore => feed.(status := Paused, archivedAt := None)
  }

  function TokensWritten(active: nat, change: Change): nat {
    if change.Archive? then 0 else active
  }

  class FeedTable {
    var feeds: map<FeedId, Feed>
    var defaults: set<FeedId>             // feeds whose creation is audited as the default feed
    var activeTokens: map<FeedId, nat>    // number of active tokens of each feed
    var nextId: FeedId

    ghost predicate Valid()
      reads this
    {
      && activeTokens.Keys == feeds.Keys
      && (forall id :: id in feeds ==> id < nextId)
      && UniqueSlugs(feeds) && OneDefault(feeds, defaults) && StatusAgrees(feeds, activeTokens)
    }

    constructor ()
      ensures Valid() && feeds == map[]
    {
      feeds, defaults, activeTokens, nextId := map[], {}, map[], 0;
    }

    /** Tries base, base-2, base-3, ...: it ends because the candidates differ and only finitely many are taken. */
    method MakeUniqueSlug(clerkOrgId: string, lowered: string) returns (slug: string)
      ensures IsFirstFree(slug, Slugify(lowered), TakenSlugs(feeds, clerkOrgId))
      ensures forall id :: id in feeds && feeds[id].clerkOrgId == clerkOrgId ==> feeds[id].slug != slug
    {
      hide Decimal, Slugify;
      var base := Slugify(lowered);
      slug := base;
      var suffix := 2;
      ghost var taken, tried: set<string> := TakenSlugs(feeds, clerkOrgId), {};
      while slug in TakenSlugs(feeds, clerkOrgId)
        invariant suffix >= 2 && slug == Candidate(base, suffix - 2)
        invariant forall j: nat :: j < suffix - 2 ==> Candidate(base, j) in taken
        invariant tried <= taken && |tried| == suffix - 2
        invariant forall s :: s in tried ==> exists j: nat :: j < suffix - 2 && s == Candidate(base, j)
        decreases |taken - tried|
      {
        forall j: nat | j < suffix - 2 ensures Candidate(base, j) != slug {
          CandidatesDiffer(base, j, suffix - 2);
        }
        tried := tried + {slug};
        slug := base + "-" + Decimal(suffix);
        suffix := suffix + 1;
      }
      assert slug == Candidate(base, suffix - 2);
      forall id | id in feeds && feeds[id].clerkOrgId == clerkOrgId ensures feeds[id].slug != slug {
        assert feeds[id].slug in taken;
      }
    }

    /** The creation shared by the three entry points: plan limit, slug, row and first token, or nothing. */
    method Create(clerkOrgId: string, organisationId: Option<string>, name: string, lowered: string,
                  createdBy: Option<string>, scopes: seq<ScopeType>, isDefault: bool, answers: Answers)
      returns (result: Result<FeedId, Error>)
      requires Valid()
      requires isDefault ==> forall id :: id in defaults && id in feeds ==> feeds[id].clerkOrgId != clerkOrgId
      modifies this
      ensures Valid()
      ensures CreateRefusal(answers) == if result.Failed? then Some(result.error) else None
      ensures answers.withinLimit.Failed? ==> result == Failed(UnknownError)
      ensures answers.withinLimit == Ok(false) ==> result == Failed(InvalidRequest)
      ensures answers.withinLimit == Ok(true) && answers.tokenRefusal.Some? ==> result == Failed(answers.tokenRefusal.value)
      ensures result.Failed? ==> feeds == old(feeds) && defaults == old(defaults) && activeTokens == old(activeTokens)
      ensures result.Ok? ==>
                && result.value == old(nextId) && result.value !in old(feeds) && result.value in feeds
                && feeds == old(feeds)[result.value := feeds[result.value]]
                && activeTokens == old(activeTokens)[result.value := 1]
                && defaults == (if isDefault then old(defaults) + {result.value} else old(defaults))
                && (exists slug :: IsFirstFree(slug, Slugify(lowered), TakenSlugs(old(feeds), clerkOrgId))
                      && feeds[result.value] ==
                           Feed(clerkOrgId, organisationId, name, slug, Active, None, createdBy, answers.now, scopes))
    {
      hide Slugify, IsFirstFree, TakenSlugs, UniqueSlugs, OneDefault, StatusAgrees;
      if answers.withinLimit.Failed? {
        return Failed(UnknownError);
      }
      if !answers.withinLimit.value {
        return Failed(InvalidRequest);
      }
      var slug := MakeUniqueSlug(clerkOrgId, lowered);
      if answers.tokenRefusal.Some? {
        return Failed(answers.tokenRefusal.value);
      }
      var id := nextId;
      var feed := Feed(clerkOrgId, organisationId, name, slug, Active, None, createdBy, answers.now, scopes);
      assert id !in feeds;
      AddingKeeps(feeds, defaults, activeTokens, id, feed, isDefault);
      nextId := nextId + 1;
      feeds := feeds[id := feed];
      activeTokens := activeTokens[id := 1];
      if isDefault {
        defaults := defaults + {id};
      }
      return Ok(id);
    }

    method CreateFeed(actor: Actor, name: string, lowered: string, scopes: Result<seq<ScopeType>, Error>, answers: Answers)
      returns (result: Result<FeedId, Error>)
      requires Valid()
      modifies this
      ensures Valid()
      ensures !actor.isAdmin ==> result == Failed(NotAuthorised)
      ensures actor.isAdmin && scopes.Failed? ==> result == Failed(scopes.error)
      ensures actor.isAdmin && scopes.Ok? ==> CreateRefusal(answers) == if result.Failed? then Some(result.error) else None
      ensures result.Failed? ==> feeds == old(feeds) && activeTokens == old(activeTokens)
      ensures result.Ok? ==>
                && result.value !in old(feeds) && result.value in feeds
                && feeds == old(feeds)[result.value := feeds[result.value]]
                && activeTokens == old(activeTokens)[result.value := 1]
                && feeds[result.value].clerkOrgId == actor.clerkOrgId && feeds[result.value].status == Active
                && feeds[result.value].organisationId == Some(actor.organisationId)
                && feeds[result.value].createdBy == Some(actor.userId)
                && feeds[result.value].name == name && feeds[result.value].scopes == scopes.value
                && IsFirstFree(feeds[result.value].slug, Slugify(lowered), TakenSlugs(old(feeds), actor.clerkOrgId))
      ensures defaults == old(defaults)
    {
      hide Slugify, IsFirstFree, TakenSlugs, UniqueSlugs, OneDefault, StatusAgrees;
      if !actor.isAdmin {
        return Failed(NotAuthorised);
      }
      if scopes.Failed? {
        return Failed(scopes.error);
      }
      result := Create(actor.clerkOrgId, Some(actor.organisationId), name, lowered, Some(actor.userId), scopes.value, false, answers);
    }

    /** A default feed of the account, if it has one. */
    method FindDefault(clerkOrgId: string) returns (found: Option<FeedId>)
      requires Valid()
      ensures found.Some? ==> found.value in defaults && found.value in feeds && feeds[found.value].clerkOrgId == clerkOrgId
      ensures found.None? ==> forall id :: id in defaults && id in feeds ==> feeds[id].clerkOrgId != clerkOrgId
    {
      hide UniqueSlugs, StatusAgrees;
      var rest := defaults;
      while rest != {}
        invariant rest <= defaults
        invariant forall id :: id in defaults && id !in rest && id in feeds ==> feeds[id].clerkOrgId != clerkOrgId
        decreases rest
      {
        var id :| id in rest;
        if feeds[id].clerkOrgId == clerkOrgId {
          return Some(id);
        }
        rest := rest - {id};
      }
      return None;
    }

    /** ensureDefaultCalendarFeed: an account that has a default feed, whatever its status, gets it back
        unchanged; otherwise one is created. */
    method EnsureDefaultCalendarFeed(clerkOrgId: string, name: string, lowered: string, createdBy: Option<string>, answers: Answers)
      returns (result: Result<Created, Error>)
      requires Valid()
      modifies this
      ensures Valid()
      ensures forall id :: id in old(defaults) && id in old(feeds) && old(feeds)[id].clerkOrgId == clerkOrgId ==>
                && result == Ok(Created(false, id))
                && feeds == old(feeds) && defaults == old(defaults) && activeTokens == old(activeTokens)
      ensures (forall id :: id in old(defaults) && id in old(feeds) ==> old(feeds)[id].clerkOrgId != clerkOrgId) ==>
                && CreateRefusal(answers) == (if result.Failed? then Some(result.error) else None)
                && (result.Ok? ==>
                      && result.value.created && result.value.feedId !in old(feeds) && result.value.feedId in feeds
                      && feeds[result.value.feedId].name == name && feeds[result.value.feedId].scopes == [OrgScope]
                      && feeds[result.value.feedId].organisationId == None && feeds[result.value.feedId].createdBy == createdBy
                      && feeds[result.value.feedId].status == Active
                      && IsFirstFree(feeds[result.value.feedId].slug, Slugify(lowered), TakenSlugs(old(feeds), clerkOrgId)))
      ensures result.Ok? ==>
                && result.value.feedId in defaults && result.value.feedId in feeds
                && feeds[result.value.feedId].clerkOrgId == clerkOrgId
                && feeds == old(feeds)[result.value.feedId := feeds[result.value.feedId]]
      ensures result.Failed? ==> feeds == old(feeds) && defaults == old(defaults) && activeTokens == old(activeTokens)
    {
      hide Slugify, IsFirstFree, TakenSlugs, UniqueSlugs, StatusAgrees;
      var existing := FindDefault(clerkOrgId);
      if existing.Some? {
        return Ok(Created(false, existing.value));
      }
      var made := Create(clerkOrgId, None, name, lowered, createdBy, [OrgScope], true, answers);
      if made.Failed? {
        return Failed(made.error);
      }
      return Ok(Created(true, made.value));
    }

    /** The feed of an actor's own kind that was created first, if any. */
    method FindOwn(actor: Actor, kind: OwnKind) returns (found: Option<FeedId>)
      requires Valid()
      ensures found.Some? ==>
                && found.value in feeds && IsOwnFeed(feeds[found.value], actor, kind)
                && forall id :: id in feeds && IsOwnFeed(feeds[id], actor, kind) ==> feeds[found.value].createdAt <= feeds[id].createdAt
      ensures found.None? ==> forall id :: id in feeds ==> !IsOwnFeed(feeds[id], actor, kind)
    {
      hide IsOwnFeed, Valid;
      found := None;
      var rest := feeds.Keys;
      while rest != {}
        invariant rest <= feeds.Keys
        invariant found.Some? ==>
                    && found.value in feeds && IsOwnFeed(feeds[found.value], actor, kind)
                    && forall id :: id in feeds && id !in rest && IsOwnFeed(feeds[id], actor, kind) ==>
                         feeds[found.value].createdAt <= feeds[id].createdAt
        invariant found.None? ==> forall id :: id in feeds && id !in rest ==> !IsOwnFeed(feeds[id], actor, kind)
        decreases rest
      {
        var id :| id in rest;
        rest := rest - {id};
        if IsOwnFeed(feeds[id], actor, kind) && (found.None? || feeds[id].createdAt < feeds[found.value].createdAt) {
          found := Some(id);
        }
      }
    }

    /** createOwnFeed: who already has a feed of the kind gets that one, however often the form is sent. */
    method CreateOwnFeed(actor: Actor, kind: OwnKind, isLinkedToPerson: bool, hasDirectReports: bool,
                         name: string, lowered: string, answers: Answers)
      returns (result: Result<Created, Error>)
      requires Valid()
      modifies this
      ensures Valid() && defaults == old(defaults)
      ensures !isLinkedToPerson ==> result == Failed(InvalidRequest)
      ensures isLinkedToPerson && (exists id :: id in old(feeds) && IsOwnFeed(old(feeds)[id], actor, kind)) ==>
                result.Ok? && !result.value.created && feeds == old(feeds) && activeTokens == old(activeTokens)
      ensures isLinkedToPerson && (forall id :: id in old(feeds) ==> !IsOwnFeed(old(feeds)[id], actor, kind)) ==>
                (if kind == Team && !hasDirectReports then Some(NotAuthorised) else CreateRefusal(answers)) ==
                (if result.Failed? then Some(result.error) else None)
      ensures result.Ok? ==>
                && result.value.feedId in feeds && IsOwnFeed(feeds[result.value.feedId], actor, kind)
                && feeds == old(feeds)[result.value.feedId := feeds[result.value.feedId]]
                && (result.value.created <==> result.value.feedId !in old(feeds))
                && (result.value.created ==>
                      && feeds[result.value.feedId].name == name && feeds[result.value.feedId].organisationId == None
                      && feeds[result.value.feedId].scopes == [if kind == Personal then SelfScope else ManagerTeam]
                      && IsFirstFree(feeds[result.value.feedId].slug, Slugify(lowered), TakenSlugs(old(feeds), actor.clerkOrgId)))
      ensures result.Failed? ==> feeds == old(feeds) && activeTokens == old(activeTokens)
    {
      hide Slugify, IsFirstFree, TakenSlugs, UniqueSlugs, OneDefault, StatusAgrees;
      if !isLinkedToPerson {
        return Failed(InvalidRequest);
      }
      var existing := FindOwn(actor, kind);
      if existing.Some? {
        return Ok(Created(false, existing.value));
      }
      if kind == Team && !hasDirectReports {
        return Failed(NotAuthorised);
      }
      var made := Create(actor.clerkOrgId, None, name, lowered, Some(actor.userId), [OwnScope(kind)], false, answers);
      if made.Failed? {
        return Failed(made.error);
      }
      return Ok(Created(true, made.value));
    }

    // ----- changes ---------------------------------------------------------------------------

    /** authoriseFeedChange: None is permission. */
    method Authorise(actor: Actor, id: FeedId) returns (refusal: Option<Error>)
      ensures refusal == if actor.isAdmin then None else ChangeRefusal(feeds, actor, id)
      ensures refusal.None? && !actor.isAdmin ==>
                && id in feeds && feeds[id].createdBy == Some(actor.userId)
                && feeds[id].clerkOrgId == actor.clerkOrgId && OrgScope !in feeds[id].scopes
      ensures !actor.isAdmin && id in feeds && !InScope(feeds[id], actor) ==>
                refusal == ChangeRefusal(map[], actor, id)
    {
      if actor.isAdmin {
        return None;
      }
      if id !in feeds || !InScope(feeds[id], actor) {
        return Some(FeedNotFound);
      }
      return if IsFeedOwner(feeds[id], actor.userId) then None else Some(NotAuthorised);
    }

    /** One row changed in place. */
    method Replace(id: FeedId, feed: Feed, active: nat)
      requires Valid() && id in feeds
      requires feed.clerkOrgId == feeds[id].clerkOrgId && feed.slug == feeds[id].slug
      requires (feed.status == Archived <==> feed.archivedAt.Some?) && (feed.status == Archived ==> active == 0)
      modifies this`feeds, this`activeTokens
      ensures Valid()
      ensures feeds == old(feeds)[id := feed] && activeTokens == old(activeTokens)[id := active]
    {
      hide UniqueSlugs, OneDefault, StatusAgrees;
      ChangingKeeps(feeds, defaults, activeTokens, id, feed, active);
      feeds, activeTokens := feeds[id := feed], activeTokens[id := active];
    }

    /** updateFeed: the name may change, the slug never does. */
    method UpdateFeed(actor: Actor, id: FeedId, name: Option<string>, scopes: Option<seq<ScopeType>>, scopesValid: bool)
      returns (result: Result<Feed, Error>)
      requires Valid()
      modifies this
      ensures Refusal(old(feeds), Rename(name, scopes, scopesValid), actor, id) == if result.Failed? then Some(result.error) else None
      ensures result.Failed? ==> feeds == old(feeds) && activeTokens == old(activeTokens)
      ensures result.Ok? ==>
                && id in old(feeds) && id in old(activeTokens)
                && feeds == old(feeds)[id := Written(old(feeds)[id], Rename(name, scopes, scopesValid), 0)]
                && activeTokens == old(activeTokens)[id := TokensWritten(old(activeTokens)[id], Rename(name, scopes, scopesValid))]
      ensures Valid() && defaults == old(defaults) && activeTokens == old(activeTokens)
      ensures (if actor.isAdmin && scopes.Some? && !scopesValid then Some(InvalidScope)
               else if ChangeRefusal(old(feeds), actor, id).Some? then ChangeRefusal(old(feeds), actor, id)
               else if scopes.Some? && !actor.isAdmin then Some(NotAuthorised)
               else if old(feeds)[id].status == Archived then Some(FeedArchived)
               else None) == if result.Failed? then Some(result.error) else None
      ensures result.Failed? ==> feeds == old(feeds)
      ensures result.Ok? ==>
                && feeds == old(feeds)[id := result.value]
                && result.value == old(feeds)[id].(
                     name := if name.Some? then name.value else old(feeds)[id].name,
                     scopes := if scopes.Some? then scopes.value else old(feeds)[id].scopes)
    {
      hide UniqueSlugs, OneDefault;
      var refusal := Authorise(actor, id);
      if refusal.Some? {
        return Failed(refusal.value);
      }
      if scopes.Some? && !actor.isAdmin {
        return Failed(NotAuthorised);
      }
      if scopes.Some? && !scopesValid {
        return Failed(InvalidScope);
      }
      if id !in feeds || !InScope(feeds[id], actor) {
        return Failed(FeedNotFound);
      }
      if feeds[id].status == Archived || feeds[id].archivedAt.Some? {
        return Failed(FeedArchived);
      }
      var feed := feeds[id].(
        name := if name.Some? then name.value else feeds[id].name,
        scopes := if scopes.Some? then scopes.value else feeds[id].scopes);
      assert activeTokens == activeTokens[id := activeTokens[id]];
      Replace(id, feed, activeTokens[id]);
      return Ok(feed);
    }

    /** pauseFeed and resumeFeed. */
    method TransitionFeed(actor: Actor, id: FeedId, fromStatus: Status, toStatus: Status) returns (result: Result<Feed, Error>)
      requires Valid() && ((fromStatus == Active && toStatus == Paused) || (fromStatus == Paused && toStatus == Active))
      modifies this
      ensures Refusal(old(feeds), ToChange(toStatus), actor, id) == if result.Failed? then Some(result.error) else None
      ensures result.Failed? ==> feeds == old(feeds) && activeTokens == old(activeTokens)
      ensures result.Ok? ==>
                && id in old(feeds) && id in old(activeTokens)
                && feeds == old(feeds)[id := Written(old(feeds)[id], ToChange(toStatus), 0)]
                && activeTokens == old(activeTokens)[id := TokensWritten(old(activeTokens)[id], ToChange(toStatus))]
      ensures Valid() && defaults == old(defaults) && activeTokens == old(activeTokens)
      ensures (if ChangeRefusal(old(feeds), actor, id).Some? then ChangeRefusal(old(feeds), actor, id)
               else if old(feeds)[id].status == Archived then Some(FeedArchived)
               else if old(feeds)[id].status != fromStatus then Some(InvalidStatusTransition)
               else None) == if result.Failed? then Some(result.error) else None
      ensures result.Ok? ==> id in feeds && result.value == feeds[id]
      ensures feeds == if result.Ok? then old(feeds)[id := old(feeds)[id].(status := toStatus)] else old(feeds)
    {
      hide UniqueSlugs, OneDefault;
      var refusal := Authorise(actor, id);
      if refusal.Some? {
        return Failed(refusal.value);
      }
      if id !in feeds || !InScope(feeds[id], actor) {
        return Failed(FeedNotFound);
      }
      if feeds[id].status == Archived || feeds[id].archivedAt.Some? {
        return Failed(FeedArchived);
      }
      if feeds[id].status != fromStatus {
        return Failed(InvalidStatusTransition);
      }
      var feed := feeds[id].(status := toStatus);
      assert activeTokens == activeTokens[id := activeTokens[id]];
      Replace(id, feed, activeTokens[id]);
      return Ok(feed);
    }

    /** archiveFeed also revokes every active token of the feed. */
    method ArchiveFeed(actor: Actor, id: FeedId, now: int) returns (result: Result<Feed, Error>)
      requires Valid()
      modifies this
      ensures Refusal(old(feeds), Archive, actor, id) == if result.Failed? then Some(result.error) else None
      ensures result.Failed? ==> feeds == old(feeds) && activeTokens == old(activeTokens)
      ensures result.Ok? ==>
                && id in old(feeds) && id in old(activeTokens)
                && feeds == old(feeds)[id := Written(old(feeds)[id], Archive, now)]
                && activeTokens == old(activeTokens)[id := TokensWritten(old(activeTokens)[id], Archive)]
      ensures Valid() && defaults == old(defaults)
      ensures (if ChangeRefusal(old(feeds), actor, id).Some? then ChangeRefusal(old(feeds), actor, id)
               else if old(feeds)[id].status == Archived then Some(FeedArchived)
               else None) == if result.Failed? then Some(result.error) else None
      ensures result.Ok? ==> id in feeds && result.value == feeds[id]
      ensures result.Failed? ==> feeds == old(feeds) && activeTokens == old(activeTokens)
      ensures result.Ok? ==>
                && feeds == old(feeds)[id := old(feeds)[id].(status := Archived, archivedAt := Some(now))]
                && activeTokens == old(activeTokens)[id := 0]
    {
      hide UniqueSlugs, OneDefault;
      var refusal := Authorise(actor, id);
      if refusal.Some? {
        return Failed(refusal.value);
      }
      if id !in feeds || !InScope(feeds[id], actor) {
        return Failed(FeedNotFound);
      }
      if feeds[id].status == Archived || feeds[id].archivedAt.Some? {
        return Failed(FeedArchived);
      }
      var feed := feeds[id].(status := Archived, archivedAt := Some(now));
      Replace(id, feed, 0);
      return Ok(feed);
    }

    /** restoreFeed brings an archived feed back paused, without a token. */
    method RestoreFeed(actor: Actor, id: FeedId) returns (result: Result<Feed, Error>)
      requires Valid()
      modifies this
      ensures Refusal(old(feeds), Restore, actor, id) == if result.Failed? then Some(result.error) else None
      ensures result.Failed? ==> feeds == old(feeds) && activeTokens == old(activeTokens)
      ensures result.Ok? ==>
                && id in old(feeds) && id in old(activeTokens)
                && feeds == old(feeds)[id := Written(old(feeds)[id], Restore, 0)]
                && activeTokens == old(activeTokens)[id := TokensWritten(old(activeTokens)[id], Restore)]
      ensures Valid() && defaults == old(defaults) && activeTokens == old(activeTokens)
      ensures (if !actor.isAdmin then Some(NotAuthorised)
               else if ChangeRefusal(old(feeds), actor, id).Some? then ChangeRefusal(old(feeds), actor, id)
               else if old(feeds)[id].status != Archived then Some(InvalidStatusTransition)
               else None) == if result.Failed? then Some(result.error) else None
      ensures feeds == if result.Ok? then old(feeds)[id := old(feeds)[id].(status := Paused, archivedAt := None)] else old(feeds)
      ensures result.Ok? ==> id in feeds && result.value == feeds[id] && activeTokens[id] == 0
    {
      hide UniqueSlugs, OneDefault;
      if !actor.isAdmin {
        return Failed(NotAuthorised);
      }
      if id !in feeds || !InScope(feeds[id], actor) {
        return Failed(FeedNotFound);
      }
      if feeds[id].status != Archived {
        return Failed(InvalidStatusTransition);
      }
      var feed := feeds[id].(status := Paused, archivedAt := None);
      assert activeTokens == activeTokens[id := activeTokens[id]];
      Replace(id, feed, activeTokens[id]);
      return Ok(feed);
    }
  }
}
