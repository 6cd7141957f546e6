/** The notification list: filters, keyset pages over (created_at, id) and the read marks. */
module NotificationPaging {
  import opened Common

  type Kind = string
  datatype Category = LeaveLifecycle | ApprovalFlow | Sync | System

  /** The notification types the schema knows, and the category of those in the type registry. */
  datatype Registry = Registry(known: set<Kind>, categories: map<Kind, Category>)

  /** A row: ids are uuids, compared as numbers; times are milliseconds. */
  datatype Row = Row(
    id: int,
    createdAt: int,
    clerkOrgId: string,
    organisationClerkOrgId: string,
    recipientUserId: string,
    kind: Kind,
    readAt: Option<int>
  )

  datatype User = User(clerkOrgId: string, userId: string)
  datatype Filters = Filters(
    category: seq<Category>,
    dateFrom: Option<int>,
    dateTo: Option<int>,
    kinds: seq<Kind>,
    unreadOnly: bool
  )
  datatype Cursor = Cursor(createdAt: int, id: int)

  /** The cursor text of a request: absent, empty, unreadable, or the encoding of a cursor. */
  datatype CursorText = Absent | Blank | Unreadable | Encoded(cursor: Cursor)

  /** The condition handed to the database. */
  datatype Where = Where(
    user: User,
    unreadOnly: bool,
    kinds: Option<seq<Kind>>,
    dateFrom: Option<int>,
    dateTo: Option<int>,
    before: Option<Cursor>
  )

  datatype Error = ValidationError | NotificationNotFound | NotRecipient

  // ----- filters -----------------------------------------------------------------------------

  predicate AllKnown(kinds: seq<Kind>, registry: Registry) {
    forall i :: 0 <= i < |kinds| ==> kinds[i] in registry.known
  }

  /** The types of the requested categories that the registry lists. */
  predicate InCategories(kind: Kind, categories: seq<Category>, registry: Registry) {
    kind in registry.categories && registry.categories[kind] in categories
  }

  function KeepKinds(kinds: seq<Kind>, categories: seq<Category>, registry: Registry): (kept: seq<Kind>)
    ensures forall kind :: kind in kept <==> kind in kinds && InCategories(kind, categories, registry)
  {
    if kinds == [] then []
    else if InCategories(kinds[0], categories, registry) then [kinds[0]] + KeepKinds(kinds[1..], categories, registry)
    else KeepKinds(kinds[1..], categories, registry)
  }

  /** buildWhere: an empty list of types or categories sets no constraint. `listed` is the registry's list. */
  function BuildWhere(user: User, filters: Filters, cursor: Option<Cursor>, registry: Registry, listed: seq<Kind>): Where {
    var categoryKinds := if filters.category != [] then Some(KeepKinds(listed, filters.category, registry)) else None;
    var requested := if filters.kinds != [] then Some(filters.kinds) else None;
    var kinds :=
      match (requested, categoryKinds)
      case (Some(r), Some(c)) => Some(Intersection(r, c))
      case (Some(r), None) => Some(r)
      case (None, c) => c;
    Where(user, filters.unreadOnly, kinds, filters.dateFrom, filters.dateTo, cursor)
  }

  function Intersection(a: seq<Kind>, b: seq<Kind>): (kept: seq<Kind>)
    ensures forall kind :: kind in kept <==> kind in a && kind in b
  {
    if a == [] then [] else if a[0] in b then [a[0]] + Intersection(a[1..], b) else Intersection(a[1..], b)
  }

  predicate ComesAfter(row: Row, cursor: Cursor) {
    row.createdAt < cursor.createdAt || (row.createdAt == cursor.createdAt && row.id < cursor.id)
  }

  predicate Matches(row: Row, where: Where) {
    && row.clerkOrgId == where.user.clerkOrgId
    && row.organisationClerkOrgId == where.user.clerkOrgId
    && row.recipientUserId == where.user.userId
    && (where.unreadOnly ==> row.readAt == None)
    && (where.kinds.Some? ==> row.kind in where.kinds.value)
    && (where.dateFrom.Some? ==> row.createdAt >= where.dateFrom.value)
    && (where.dateTo.Some? ==> row.createdAt <= where.dateTo.value)
    && (where.before.Some? ==> ComesAfter(row, where.before.value))
  }

  /** What a list request asks for, said without the intermediate type lists. */
  lemma FilterMeaning(row: Row, user: User, filters: Filters, cursor: Option<Cursor>, registry: Registry, listed: seq<Kind>)
    requires forall kind :: kind in listed <==> kind in registry.categories
    ensures Matches(row, BuildWhere(user, filters, cursor, registry, listed)) <==>
              && row.clerkOrgId == row.organisationClerkOrgId == user.clerkOrgId && row.recipientUserId == user.userId
              && (filters.unreadOnly ==> row.readAt == None)
              && (filters.kinds == [] || row.kind in filters.kinds)
              && (filters.category == []
                  || (row.kind in registry.categories && registry.categories[row.kind] in filters.category))
              && (filters.dateFrom.None? || filters.dateFrom.value <= row.createdAt)
              && (filters.dateTo.None? || row.createdAt <= filters.dateTo.value)
              && (cursor.None? || row.createdAt < cursor.value.createdAt
                  || (row.createdAt == cursor.value.createdAt && row.id < cursor.value.id))
  {
  }

  // ----- the ordered query -------------------------------------------------------------------

  predicate Newer(a: Row, b: Row) {
    a.createdAt > b.createdAt || (a.createdAt == b.createdAt && a.id > b.id)
  }

  predicate Descending(rows: seq<Row>) {
    forall i, j :: 0 <= i < j < |rows| ==> Newer(rows[i], rows[j])
  }

  predicate DistinctIds(rows: seq<Row>) {
    forall i, j :: 0 <= i < j < |rows| ==> rows[i].id != rows[j].id
  }

  function Filter(rows: seq<Row>, where: Where): (kept: seq<Row>)
    ensures forall row :: row in kept <==> row in rows && Matches(row, where)
  {
    if rows == [] then []
    else if Matches(rows[0], where) then [rows[0]] + Filter(rows[1..], where)
    else Filter(rows[1..], where)
  }

  lemma {:induction false} FilterKeepsDistinct(rows: seq<Row>, where: Where)
    requires DistinctIds(rows)
    ensures DistinctIds(Filter(rows, where))
  {
    hide Matches;
    if rows != [] {
      FilterKeepsDistinct(rows[1..], where);
      forall row | row in Filter(rows[1..], where) ensures row.id != rows[0].id {
        var i :| 0 <= i < |rows[1..]| && rows[1..][i] == row;
        assert rows[i + 1] == row;
      }
    }
  }

  function Insert(row: Row, sorted: seq<Row>): seq<Row> {
    if sorted == [] || Newer(row, sorted[0]) then [row] + sorted else [sorted[0]] + Insert(row, sorted[1..])
  }

  /** ORDER BY created_at DESC, id DESC. */
  function SortDescending(rows: seq<Row>): seq<Row> {
    if rows == [] then [] else Insert(rows[0], SortDescending(rows[1..]))
  }

  lemma {:induction false} InsertSorts(row: Row, sorted: seq<Row>)
    requires Descending(sorted) && forall r :: r in sorted ==> r.id != row.id
    ensures Descending(Insert(row, sorted))
    ensures forall r :: r in Insert(row, sorted) <==> r == row || r in sorted
    ensures |Insert(row, sorted)| == |sorted| + 1
  {
    if sorted != [] && !Newer(row, sorted[0]) {
      InsertSorts(row, sorted[1..]);
      var rest := Insert(row, sorted[1..]);
      forall i | 0 <= i < |rest| ensures Newer(sorted[0], rest[i]) {
        assert rest[i] in rest;
      }
    } else {
      forall i | 0 <= i < |sorted| ensures Newer(row, sorted[i]) {
      }
    }
  }

  lemma {:induction false} SortIsOrderedPermutation(rows: seq<Row>)
    requires DistinctIds(rows)
    ensures Descending(SortDescending(rows))
    ensures forall r :: r in SortDescending(rows) <==> r in rows
    ensures |SortDescending(rows)| == |rows|
  {
    hide Newer, Insert;
    if rows != [] {
      SortIsOrderedPermutation(rows[1..]);
      forall r | r in rows[1..] ensures r.id != rows[0].id {
        var i :| 0 <= i < |rows[1..]| && rows[1..][i] == r;
        assert rows[i + 1] == r;
      }
      InsertSorts(rows[0], SortDescending(rows[1..]));
    }
  }

  /** A descending list is fixed by its elements. */
  lemma {:induction false} DescendingUnique(a: seq<Row>, b: seq<Row>)
    requires Descending(a) && Descending(b)
    requires forall r :: r in a <==> r in b
    ensures a == b
  {
    if a == [] {
      assert forall i :: 0 <= i < |b| ==> b[i] in b;
    } else {
      assert a[0] in a;
      assert b != [] && b[0] in b;
      assert a[0] == b[0];
      assert a == [a[0]] + a[1..] && b == [b[0]] + b[1..];
      forall r ensures r in a[1..] <==> r in b[1..] {
        assert r in a[1..] <==> r in a && r != a[0];
        assert r in b[1..] <==> r in b && r != b[0];
      }
      DescendingUnique(a[1..], b[1..]);
    }
  }

  /** findMany: the matching rows, newest first. */
  function FindAll(rows: seq<Row>, where: Where): seq<Row> {
    SortDescending(Filter(rows, where))
  }

  lemma FindAllExact(rows: seq<Row>, where: Where)
    requires DistinctIds(rows)
    ensures Descending(FindAll(rows, where))
    ensures forall row :: row in FindAll(rows, where) <==> row in rows && Matches(row, where)
  {
    hide Matches, Newer;
    FilterKeepsDistinct(rows, where);
    SortIsOrderedPermutation(Filter(rows, where));
  }

  // ----- pages -------------------------------------------------------------------------------

  datatype Page = Page(rows: seq<Row>, next: Option<Cursor>)

  function KeyOf(row: Row): Cursor {
    Cursor(row.createdAt, row.id)
  }

  /** One page: pageSize + 1 rows are read to learn whether another page follows. */
  function ListPage(rows: seq<Row>, where: Where, pageSize: int): Page
    requires pageSize >= 1
  {
    var all := FindAll(rows, where);
    var found := if |all| > pageSize + 1 then all[..pageSize + 1] else all;
    var pageRows := if |found| > pageSize then found[..pageSize] else found;
    Page(pageRows, if |found| > pageSize then Some(KeyOf(pageRows[pageSize - 1])) else None)
  }

  /** A page is a prefix of the full answer; the next cursor is its last row, and null exactly at the end. */
  lemma PageIsPrefix(rows: seq<Row>, where: Where, pageSize: int)
    requires pageSize >= 1
    ensures var all, page := FindAll(rows, where), ListPage(rows, where, pageSize);
            && page.rows == all[..if |all| < pageSize then |all| else pageSize]
            && (page.next.None? <==> |all| <= pageSize)
            && (page.next.Some? ==> |page.rows| == pageSize && page.next.value == KeyOf(all[pageSize - 1]))
  {
    hide FindAll;
  }

  datatype Walk = Walk(rows: seq<Row>, finished: bool)

  /** Following nextCursor, the table at call i being tables[i]: anything may happen to it between calls. */
  ghost function Follow(tables: seq<seq<Row>>, where: Where, pageSize: int): Walk
    requires pageSize >= 1
  {
    if tables == [] then Walk([], false)
    else
      var page := ListPage(tables[0], where, pageSize);
      if page.next.None? then Walk(page.rows, true)
      else
        var rest := Follow(tables[1..], where.(before := page.next), pageSize);
        Walk(page.rows + rest.rows, rest.finished)
  }

  ghost predicate Tables(tables: seq<seq<Row>>) {
    forall i :: 0 <= i < |tables| ==> DistinctIds(tables[i])
  }

  /** Nothing repeats: the pages of a walk, put together, strictly descend by (created_at, id), whatever is
      inserted, deleted or marked read between the calls. */
  lemma {:induction false} WalkDescends(tables: seq<seq<Row>>, where: Where, pageSize: int)
    requires pageSize >= 1 && Tables(tables)
    ensures Descending(Follow(tables, where, pageSize).rows)
    ensures forall row :: row in Follow(tables, where, pageSize).rows ==> Matches(row, where)
  {
    hide FindAll, ListPage, Newer, Matches, DistinctIds;
    if tables != [] {
      var page := ListPage(tables[0], where, pageSize);
      var all := FindAll(tables[0], where);
      FindAllExact(tables[0], where);
      PageIsPrefix(tables[0], where, pageSize);
      if page.next.Some? {
        var deeper := where.(before := page.next);
        var rest := Follow(tables[1..], deeper, pageSize).rows;
        WalkDescends(tables[1..], deeper, pageSize);
        forall row | row in rest ensures Matches(row, where) {
          AfterPage(page, where, row, pageSize);
        }
        forall i, j | 0 <= i < |page.rows| && 0 <= j < |rest| ensures Newer(page.rows[i], rest[j]) {
          assert rest[j] in rest;
          AfterPage(page, where, rest[j], pageSize);
          AboveLast(page.rows, i, rest[j]);
        }
      }
    }
  }

  lemma AfterPage(page: Page, where: Where, row: Row, pageSize: int)
    requires pageSize >= 1 && |page.rows| == pageSize && page.next == Some(KeyOf(page.rows[pageSize - 1]))
    requires Matches(page.rows[pageSize - 1], where)
    requires Matches(row, where.(before := page.next))
    ensures Matches(row, where) && Newer(page.rows[pageSize - 1], row)
  {
  }

  lemma AboveLast(rows: seq<Row>, i: nat, below: Row)
    requires Descending(rows) && i < |rows| && Newer(rows[|rows| - 1], below)
    ensures Newer(rows[i], below)
  {
    if i < |rows| - 1 {
      assert Newer(rows[i], rows[|rows| - 1]);
    }
  }

  /** At every call some row with this key matches. */
  ghost predicate MatchesThroughout(tables: seq<seq<Row>>, where: Where, key: Cursor) {
    forall i :: 0 <= i < |tables| ==> exists row :: row in tables[i] && KeyOf(row) == key && Matches(row, where)
  }

  /** Nothing is missed: a row that matches throughout a finished walk is on one of its pages. */
  lemma {:induction false} WalkMissesNothing(tables: seq<seq<Row>>, where: Where, pageSize: int, key: Cursor)
    requires pageSize >= 1 && Tables(tables)
    requires Follow(tables, where, pageSize).finished && MatchesThroughout(tables, where, key)
    ensures exists row :: row in Follow(tables, where, pageSize).rows && KeyOf(row) == key
  {
    hide FindAll, ListPage, Newer, Matches, DistinctIds;
    var page := ListPage(tables[0], where, pageSize);
    var all := FindAll(tables[0], where);
    FindAllExact(tables[0], where);
    PageIsPrefix(tables[0], where, pageSize);
    var row :| row in tables[0] && KeyOf(row) == key && Matches(row, where);
    var k :| 0 <= k < |all| && all[k] == row;
    if page.next.None? || k < pageSize {
      assert page.rows[k] == row;
      assert row in Follow(tables, where, pageSize).rows;
    } else {
      var deeper := where.(before := page.next);
      assert Newer(all[pageSize - 1], row);
      forall i | 0 <= i < |tables[1..]|
        ensures exists r :: r in tables[1..][i] && KeyOf(r) == key && Matches(r, deeper)
      {
        assert tables[1..][i] == tables[i + 1];
        var r :| r in tables[i + 1] && KeyOf(r) == key && Matches(r, where);
        StillAfter(where, deeper, all[pageSize - 1], row, r);
      }
      WalkMissesNothing(tables[1..], deeper, pageSize, key);
      var found :| found in Follow(tables[1..], deeper, pageSize).rows && KeyOf(found) == key;
      assert found in Follow(tables, where, pageSize).rows;
    }
  }

  lemma StillAfter(where: Where, deeper: Where, last: Row, row: Row, same: Row)
    requires deeper == where.(before := Some(KeyOf(last))) && Newer(last, row) && KeyOf(same) == KeyOf(row)
    requires Matches(same, where)
    ensures Matches(same, deeper)
  {
  }

  /** Said with the columns: along a walk the creation time falls, and where it stays the id falls. */
  lemma WalkIsNewestFirst(tables: seq<seq<Row>>, where: Where, pageSize: int, i: nat, j: nat)
    requires pageSize >= 1 && Tables(tables) && i < j < |Follow(tables, where, pageSize).rows|
    ensures var rows := Follow(tables, where, pageSize).rows;
            rows[i].createdAt > rows[j].createdAt || (rows[i].createdAt == rows[j].createdAt && rows[i].id > rows[j].id)
  {
    hide Follow;
    WalkDescends(tables, where, pageSize);
  }

  /** And it is there once: two positions of a walk never carry the same key. */
  lemma WalkShowsOnce(tables: seq<seq<Row>>, where: Where, pageSize: int, i: nat, j: nat)
    requires pageSize >= 1 && Tables(tables)
    requires i < |Follow(tables, where, pageSize).rows| && j < |Follow(tables, where, pageSize).rows|
    requires KeyOf(Follow(tables, where, pageSize).rows[i]) == KeyOf(Follow(tables, where, pageSize).rows[j])
    ensures i == j
  {
    hide Follow;
    WalkDescends(tables, where, pageSize);
  }

  /** On an unchanging table a walk ends, after one call for each started page, with the full sorted answer. */
  lemma {:induction false} WalkOfFixedTable(rows: seq<Row>, where: Where, pageSize: int, calls: nat)
    requires pageSize >= 1 && DistinctIds(rows)
    requires calls >= 1 && |FindAll(rows, where)| <= calls * pageSize
    ensures Follow(seq(calls, _ => rows), where, pageSize) == Walk(FindAll(rows, where), true)
    decreases calls
  {
    hide FindAll, ListPage, Newer, Matches, DistinctIds;
    var tables := seq(calls, _ => rows);
    var all := FindAll(rows, where);
    var page := ListPage(rows, where, pageSize);
    PageIsPrefix(rows, where, pageSize);
    if page.next.None? {
      assert page.rows == all;
    } else {
      var deeper := where.(before := page.next);
      RestOfAnswer(rows, where, pageSize);
      assert calls > 1;
      assert (calls - 1) * pageSize == calls * pageSize - pageSize;
      assert tables[1..] == seq(calls - 1, _ => rows);
      WalkOfFixedTable(rows, deeper, pageSize, calls - 1);
      assert all == page.rows + all[pageSize..];
    }
  }

  lemma RestOfAnswer(rows: seq<Row>, where: Where, pageSize: int)
    requires pageSize >= 1 && DistinctIds(rows) && |FindAll(rows, where)| > pageSize
    ensures var all := FindAll(rows, where);
            FindAll(rows, where.(before := Some(KeyOf(all[pageSize - 1])))) == all[pageSize..]
  {
    hide FindAll, Matches, DistinctIds;
    var all := FindAll(rows, where);
    var deeper := where.(before := Some(KeyOf(all[pageSize - 1])));
    FindAllExact(rows, where);
    FindAllExact(rows, deeper);
    var rest := FindAll(rows, deeper);
    forall row ensures row in rest <==> row in all[pageSize..] {
      LaterMatches(row, where, all[pageSize - 1]);
      if row in rest {
        assert row in all;
        var k :| 0 <= k < |all| && all[k] == row;
        assert all[pageSize..][k - pageSize] == row;
      }
      if row in all[pageSize..] {
        var k :| 0 <= k < |all[pageSize..]| && all[pageSize..][k] == row;
        assert all[k + pageSize] == row && row in all;
        assert Newer(all[pageSize - 1], row);
      }
    }
    DescendingUnique(rest, all[pageSize..]);
  }

  lemma LaterMatches(row: Row, where: Where, last: Row)
    requires Matches(last, where)
    ensures Matches(row, where.(before := Some(KeyOf(last)))) <==> Matches(row, where) && Newer(last, row)
  {
  }

  // ----- read marks --------------------------------------------------------------------------

  /** The unread notifications of a user. */
  predicate IsUnreadOf(row: Row, user: User) {
    && row.clerkOrgId == user.clerkOrgId && row.organisationClerkOrgId == user.clerkOrgId
    && row.recipientUserId == user.userId && row.readAt == None
  }

  function CountUnread(rows: seq<Row>, user: User): nat {
    if rows == [] then 0 else CountUnread(rows[1..], user) + if IsUnreadOf(rows[0], user) then 1 else 0
  }

  /** The condition of a list of a user's unread notifications. */
  function UnreadWhere(user: User, registry: Registry, listed: seq<Kind>): Where {
    BuildWhere(user, Filters([], None, None, [], true), None, registry, listed)
  }

  lemma {:induction false} SortKeepsLength(rows: seq<Row>)
    ensures |SortDescending(rows)| == |rows|
  {
    if rows != [] {
      SortKeepsLength(rows[1..]);
      InsertLengthens(rows[0], SortDescending(rows[1..]));
    }
  }

  lemma {:induction false} InsertLengthens(row: Row, sorted: seq<Row>)
    ensures |Insert(row, sorted)| == |sorted| + 1
  {
    if sorted != [] {
      InsertLengthens(row, sorted[1..]);
    }
  }

  lemma {:induction false} CountIsFilter(rows: seq<Row>, user: User, registry: Registry, listed: seq<Kind>)
    ensures |Filter(rows, UnreadWhere(user, registry, listed))| == CountUnread(rows, user)
  {
    if rows != [] {
      CountIsFilter(rows[1..], user, registry, listed);
    }
  }

  /** The unread count is the length of the user's list of unread notifications. */
  lemma CountIsUnreadList(rows: seq<Row>, user: User, registry: Registry, listed: seq<Kind>)
    ensures CountUnread(rows, user) == |FindAll(rows, UnreadWhere(user, registry, listed))|
  {
    hide UnreadWhere;
    CountIsFilter(rows, user, registry, listed);
    SortKeepsLength(Filter(rows, UnreadWhere(user, registry, listed)));
  }

  /** Every unread notification of the user stamped, all other rows as they were. */
  function StampAll(rows: seq<Row>, user: User, now: int): (stamped: seq<Row>)
    ensures |stamped| == |rows|
  {
    seq(|rows|, i requires 0 <= i < |rows| => if IsUnreadOf(rows[i], user) then rows[i].(readAt := Some(now)) else rows[i])
  }

  /** Whose notifications are stamped, row by row: the unread ones of this recipient in this account, and nobody
      else's, keep everything but their mark. */
  lemma StampAllMeaning(rows: seq<Row>, user: User, now: int, i: nat)
    requires i < |rows|
    ensures StampAll(rows, user, now)[i] ==
              if rows[i].recipientUserId == user.userId && rows[i].readAt == None
                 && rows[i].clerkOrgId == user.clerkOrgId && rows[i].organisationClerkOrgId == user.clerkOrgId then
                rows[i].(readAt := Some(now))
              else rows[i]
  {
  }

  lemma {:induction false} StampAllLeavesNone(rows: seq<Row>, user: User, now: int)
    ensures CountUnread(StampAll(rows, user, now), user) == 0
  {
    if rows != [] {
      StampAllLeavesNone(rows[1..], user, now);
      assert StampAll(rows, user, now)[1..] == StampAll(rows[1..], user, now);
    }
  }

  /** Marking one unread notification lowers the unread count of its recipient by one and of nobody else. */
  lemma {:induction false} StampOneCounts(rows: seq<Row>, i: nat, now: int, user: User)
    requires i < |rows| && rows[i].readAt == None
    ensures var after := rows[i := rows[i].(readAt := Some(now))];
            var counted := rows[i].recipientUserId == user.userId
                           && rows[i].clerkOrgId == rows[i].organisationClerkOrgId == user.clerkOrgId;
            CountUnread(after, user) == CountUnread(rows, user) - if counted then 1 else 0
  {
    var after := rows[i := rows[i].(readAt := Some(now))];
    if i > 0 {
      StampOneCounts(rows[1..], i - 1, now, user);
      assert after[1..] == rows[1..][i - 1 := rows[i].(readAt := Some(now))];
    }
  }

  /** Read marks neither move rows in the order nor change what a list without `unreadOnly` matches. */
  lemma MarksKeepPlaces(row: Row, now: int, where: Where, other: Row)
    requires !where.unreadOnly
    ensures var marked := row.(readAt := Some(now));
            && (Matches(marked, where) <==> Matches(row, where))
            && (Newer(marked, other) <==> Newer(row, other)) && (Newer(other, marked) <==> Newer(other, row))
  {
  }

  /** The guarded update of markAsRead: it stamps the notification only while it is the user's and unread. */
  function StampGuarded(rows: seq<Row>, user: User, id: int, readAt: int): (stamped: seq<Row>)
    ensures |stamped| == |rows|
  {
    seq(|rows|, i requires 0 <= i < |rows| =>
      if rows[i].id == id && IsUnreadOf(rows[i], user) then rows[i].(readAt := Some(readAt)) else rows[i])
  }

  /** A mark made between markAsRead's read and its update: the table the update finds holds the row anyhow
      marked. The first mark stays, and the time returned for the row that was read unread is the stored one
      exactly when nobody else has marked it meanwhile, or with the very same time. */
  lemma RacingMark(rows: seq<Row>, i: nat, user: User, read: Row, now: int)
    requires i < |rows| && IsUnreadOf(read, user) && rows[i] == read.(readAt := rows[i].readAt)
    ensures var after := StampGuarded(rows, user, read.id, now)[i];
            && after == read.(readAt := Some(rows[i].readAt.GetOr(now)))
            && (after.readAt == Some(now) <==> rows[i].readAt == None || rows[i].readAt == Some(now))
  {
  }

  datatype Listing = Listing(page: Page, unreadCount: nat)
  datatype Marked = Marked(readAt: int, unreadCount: nat)

  lemma OnlyRow(rows: seq<Row>, i: nat)
    requires DistinctIds(rows) && i < |rows|
    ensures forall row :: row in rows && row.id == rows[i].id ==> row == rows[i]
  {
  }

  class NotificationTable {
    var rows: seq<Row>

    ghost predicate Valid()
      reads this
    {
      DistinctIds(rows)
    }

    constructor ()
      ensures Valid() && rows == []
    {
      rows := [];
    }

    method ListForUser(user: User, filters: Filters, cursor: CursorText, pageSize: Option<int>, registry: Registry, listed: seq<Kind>)
      returns (result: Result<Listing, Error>)
      requires Valid()
      ensures result.Failed? ==> result.error == ValidationError
      ensures result.Failed? <==>
                || (pageSize.Some? && !(1 <= pageSize.value <= 100))
                || user.clerkOrgId == "" || user.userId == ""
                || (exists kind :: kind in filters.kinds && kind !in registry.known) || cursor == Unreadable
      ensures result.Ok? ==>
                var before := if cursor.Encoded? then Some(cursor.cursor) else None;
                && result.value.page ==
                     ListPage(rows, BuildWhere(user, filters, before, registry, listed), pageSize.GetOr(25))
                && result.value.unreadCount == |FindAll(rows, UnreadWhere(user, registry, listed))|
    {
      if (pageSize.Some? && !(1 <= pageSize.value <= 100)) || user.clerkOrgId == "" || user.userId == "" {
        return Failed(ValidationError);
      }
      if !AllKnown(filters.kinds, registry) {
        return Failed(ValidationError);
      }
      var size := pageSize.GetOr(25);
      if cursor == Unreadable {
        return Failed(ValidationError);
      }
      var before := if cursor.Encoded? then Some(cursor.cursor) else None;
      var page := ListPage(rows, BuildWhere(user, filters, before, registry, listed), size);
      var unread := CountUnread(rows, user);
      CountIsUnreadList(rows, user, registry, listed);
      return Ok(Listing(page, unread));
    }

    method FindById(user: User, id: int) returns (index: int)
      requires Valid()
      ensures -1 <= index < |rows|
      ensures index >= 0 ==>
                rows[index].id == id && rows[index].clerkOrgId == rows[index].organisationClerkOrgId == user.clerkOrgId
      ensures index == -1 ==> forall row :: row in rows && row.id == id ==>
                                !(row.clerkOrgId == row.organisationClerkOrgId == user.clerkOrgId)
    {
      for i := 0 to |rows|
        invariant forall k :: 0 <= k < i && rows[k].id == id ==>
                    !(rows[k].clerkOrgId == rows[k].organisationClerkOrgId == user.clerkOrgId)
      {
        if rows[i].id == id && rows[i].clerkOrgId == user.clerkOrgId && rows[i].organisationClerkOrgId == user.clerkOrgId {
          return i;
        }
      }
      return -1;
    }

    /** Marks one notification read; a second call keeps the first mark and changes nothing. */
    method MarkAsRead(user: User, id: int, now: int) returns (result: Result<Marked, Error>)
      requires Valid()
      modifies this
      ensures Valid()
      ensures result.Failed? ==> rows == old(rows)
      ensures result == Failed(ValidationError) <==> user.clerkOrgId == "" || user.userId == ""
      ensures result == Failed(NotificationNotFound) <==>
                && user.clerkOrgId != "" && user.userId != ""
                && (forall row :: row in old(rows) && row.id == id ==>
                      !(row.clerkOrgId == row.organisationClerkOrgId == user.clerkOrgId))
      ensures result == Failed(NotRecipient) <==>
                && user.clerkOrgId != "" && user.userId != ""
                && (exists row :: row in old(rows) && row.id == id && row.recipientUserId != user.userId
                      && row.clerkOrgId == row.organisationClerkOrgId == user.clerkOrgId)
      ensures result.Ok? ==>
                exists i :: 0 <= i < |old(rows)| && old(rows)[i].id == id
                  && old(rows)[i].recipientUserId == user.userId
                  && old(rows)[i].clerkOrgId == old(rows)[i].organisationClerkOrgId == user.clerkOrgId
                  && result.value.readAt == old(rows)[i].readAt.GetOr(now)
                  && rows == StampGuarded(old(rows), user, id, result.value.readAt)
                  && rows == old(rows)[i := old(rows)[i].(readAt := Some(result.value.readAt))]
                  && result.value.unreadCount == CountUnread(rows, user)
                  && CountUnread(rows, user) == CountUnread(old(rows), user) - (if old(rows)[i].readAt.None? then 1 else 0)
    {
      if user.clerkOrgId == "" || user.userId == "" {
        return Failed(ValidationError);
      }
      var i := FindById(user, id);
      if i < 0 {
        return Failed(NotificationNotFound);
      }
      assert rows[i] in rows;
      assert forall row :: row in rows && row.id == id ==> row == rows[i] by { OnlyRow(rows, i); }
      if rows[i].recipientUserId != user.userId {
        return Failed(NotRecipient);
      }
      var readAt := rows[i].readAt.GetOr(now);
      assert rows[i].readAt.Some? ==> rows == rows[i := rows[i].(readAt := Some(readAt))];
      if rows[i].readAt.None? {
        StampOneCounts(rows, i, readAt, user);
        assert forall k :: 0 <= k < |rows| && k != i ==> rows[k].id != id;
        rows := rows[i := rows[i].(readAt := Some(readAt))];
      }
      var unread := CountUnread(rows, user);
      return Ok(Marked(readAt, unread));
    }

    /** Marks every unread notification of the user read, returning how many there were. */
    method MarkAllAsRead(user: User, now: int) returns (result: Result<nat, Error>)
      requires Valid()
      modifies this
      ensures Valid()
      ensures result.Failed? <==> user.clerkOrgId == "" || user.userId == ""
      ensures result.Failed? ==> result.error == ValidationError && rows == old(rows)
      ensures result.Ok? ==>
                && |rows| == |old(rows)|
                && (forall i :: 0 <= i < |rows| ==>
                      rows[i] == if old(rows)[i].recipientUserId == user.userId && old(rows)[i].readAt == None
                                    && old(rows)[i].clerkOrgId == old(rows)[i].organisationClerkOrgId == user.clerkOrgId then
                                   old(rows)[i].(readAt := Some(now))
                                 else old(rows)[i])
                && result.value == CountUnread(old(rows), user) && CountUnread(rows, user) == 0
    {
      if user.clerkOrgId == "" || user.userId == "" {
        return Failed(ValidationError);
      }
      var markedCount := CountUnread(rows, user);
      StampAllLeavesNone(rows, user, now);
      rows := StampAll(rows, user, now);
      return Ok(markedCount);
    }
  }
}
