/** The audit log, read page by page: each page is one query for the rows below a cursor. */
module AuditSpec {
  import opened Prelude
  import opened JsText

  datatype Visibility = Owner | Admin | System

  datatype Outcome = Success | Failure

  /** `occurredAt` in milliseconds, the precision of the column; `detail` stands for the columns no query tests. */
  datatype Row = Row(id: Text, occurredAt: int, ownerUserId: Option<string>, visibility: Visibility, action: string, result: Outcome, detail: string)

  datatype Cursor = Cursor(id: Text, occurredAt: int)

  datatype Query = Query(action: Option<string>, result: Option<Outcome>, from: Option<int>, until: Option<int>, cursor: Option<string>, limit: Option<nat>)

  /** Whose events a caller may see. */
  datatype Scope = Scope(ownerUserId: Option<string>, admin: bool)

  datatype Page = Page(events: seq<Row>, nextCursor: Option<string>)

  /** The text form of a cursor: JSON in base64url. Decoding yields the two members, the time only if it is a date. */
  datatype Codec = Codec(encode: Cursor -> string, decode: string -> Option<(Text, Option<int>)>)

  ghost predicate RoundTrips(codec: Codec) {
    forall c: Cursor :: codec.decode(codec.encode(c)) == Some((c.id, Some(c.occurredAt)))
  }

  const DEFAULT_PAGE_SIZE: nat := 50

  function Limit(q: Query): nat {
    if q.limit.Some? then q.limit.value else DEFAULT_PAGE_SIZE
  }

  function DecodeCursor(codec: Codec, text: string): Result<Cursor> {
    var parsed := codec.decode(text);
    if parsed.None? || parsed.value.0 == [] || parsed.value.1.None? then Err("audit_cursor_invalid")
    else Ok(Cursor(parsed.value.0, parsed.value.1.value))
  }

  // ---- the order of the log ----

  predicate Before(a: Cursor, b: Cursor) {
    a.occurredAt < b.occurredAt || (a.occurredAt == b.occurredAt && Less(a.id, b.id))
  }

  function Key(r: Row): Cursor {
    Cursor(r.id, r.occurredAt)
  }

  lemma BeforeTransitive(a: Cursor, b: Cursor, c: Cursor)
    requires Before(a, b) && Before(b, c)
    ensures Before(a, c)
  {
    if a.occurredAt == b.occurredAt == c.occurredAt {
      LessTransitive(a.id, b.id, c.id);
    }
  }

  lemma BeforeTotal(a: Cursor, b: Cursor)
    ensures !Before(a, a)
    ensures Before(a, b) || Before(b, a) || a == b
    ensures !(Before(a, b) && Before(b, a))
  {
    LessIrreflexive(a.id);
    LessTotal(a.id, b.id);
    LessAsymmetric(a.id, b.id);
  }

  /** Latest first. */
  ghost predicate Descending(rows: seq<Row>) {
    forall i, j :: 0 <= i < j < |rows| ==> Before(Key(rows[j]), Key(rows[i]))
  }

  /** The primary key. */
  ghost predicate UniqueIds(table: seq<Row>) {
    forall i, j :: 0 <= i < j < |table| ==> table[i].id != table[j].id
  }

  // ---- SELECT ... WHERE ... ORDER BY occurred_at DESC, id DESC ----

  function Place(r: Row, rows: seq<Row>): seq<Row> {
    if rows == [] || Before(Key(rows[0]), Key(r)) then [r] + rows else [rows[0]] + Place(r, rows[1..])
  }

  function Select(table: seq<Row>, keep: Row -> bool): seq<Row> {
    if table == [] then [] else
    var rest := Select(table[1..], keep);
    if keep(table[0]) then Place(table[0], rest) else rest
  }

  lemma {:induction false} PlaceKeeps(r: Row, rows: seq<Row>)
    requires Descending(rows) && forall i :: 0 <= i < |rows| ==> Key(rows[i]) != Key(r)
    ensures Descending(Place(r, rows))
    ensures forall x :: x in Place(r, rows) <==> x == r || x in rows
  {
    if rows == [] {
    } else if Before(Key(rows[0]), Key(r)) {
      forall j | 0 < j < |rows| ensures Before(Key(rows[j]), Key(r)) {
        BeforeTransitive(Key(rows[j]), Key(rows[0]), Key(r));
      }
    } else {
      BeforeTotal(Key(rows[0]), Key(r));
      PlaceKeeps(r, rows[1..]);
      var placed := Place(r, rows[1..]);
      forall j | 0 <= j < |placed| ensures Before(Key(placed[j]), Key(rows[0])) {
        assert placed[j] in placed;
      }
    }
  }

  /** The query returns the rows it is asked for, each once, latest first. */
  lemma {:induction false} SelectExact(table: seq<Row>, keep: Row -> bool)
    requires UniqueIds(table)
    ensures Descending(Select(table, keep))
    ensures forall x :: x in Select(table, keep) <==> x in table && keep(x)
  {
    if table != [] {
      var rest := Select(table[1..], keep);
      SelectExact(table[1..], keep);
      forall i | 0 <= i < |rest| ensures Key(rest[i]) != Key(table[0]) {
        assert rest[i] in rest;
      }
      if keep(table[0]) {
        PlaceKeeps(table[0], rest);
      }
      assert table == [table[0]] + table[1..];
    }
  }

  /** There is only one descending arrangement of a set of rows. */
  lemma {:induction false} DescendingUnique(a: seq<Row>, b: seq<Row>)
    requires Descending(a) && Descending(b) && forall x :: x in a <==> x in b
    ensures a == b
  {
    if a == [] {
      assert forall i :: 0 <= i < |b| ==> b[i] in b;
    } else {
      assert a[0] in a && a[0] in b;
      assert b[0] in b && b[0] in a;
      SameLatest(a, b);
      assert forall x :: x in a[1..] <==> x in b[1..] by {
        LatestOnce(a);
        LatestOnce(b);
      }
      DescendingUnique(a[1..], b[1..]);
      assert a == [a[0]] + a[1..] && b == [b[0]] + b[1..];
    }
  }

  lemma SameLatest(a: seq<Row>, b: seq<Row>)
    requires Descending(a) && Descending(b) && a != [] && b != [] && a[0] in b && b[0] in a
    ensures a[0] == b[0]
  {
    var i :| 0 <= i < |b| && b[i] == a[0];
    var j :| 0 <= j < |a| && a[j] == b[0];
    if i > 0 && j > 0 {
      BeforeTotal(Key(a[0]), Key(b[0]));
    }
  }

  lemma LatestOnce(a: seq<Row>)
    requires Descending(a) && a != []
    ensures forall x :: x in a[1..] <==> x in a && x != a[0]
  {
    BeforeTotal(Key(a[0]), Key(a[0]));
    assert a == [a[0]] + a[1..];
  }

  /** Only what the condition says of the table's rows matters. */
  lemma {:induction false} SelectSame(table: seq<Row>, f: Row -> bool, g: Row -> bool)
    requires forall r :: r in table ==> f(r) == g(r)
    ensures Select(table, f) == Select(table, g)
  {
    if table != [] {
      assert table[0] in table;
      assert forall r :: r in table[1..] ==> r in table;
      SelectSame(table[1..], f, g);
    }
  }

  // ---- what a page is ----

  /** The caller may see the row, and it passes the query's filters. */
  predicate Matches(scope: Scope, q: Query, r: Row) {
    (if scope.admin then r.visibility != Owner else r.visibility == Owner)
    && (scope.ownerUserId.Some? ==> r.ownerUserId == scope.ownerUserId)
    && (q.action.Some? ==> r.action == q.action.value)
    && (q.result.Some? ==> r.result == q.result.value)
    && (q.from.Some? ==> r.occurredAt >= q.from.value)
    && (q.until.Some? ==> r.occurredAt <= q.until.value)
  }

  /** The whole filtered log, latest first. */
  function Log(table: seq<Row>, scope: Scope, q: Query): seq<Row> {
    Select(table, InLog(scope, q))
  }

  function InLog(scope: Scope, q: Query): Row -> bool {
    r => Matches(scope, q, r)
  }

  function InRest(scope: Scope, q: Query, cursor: Cursor): Row -> bool {
    r => Matches(scope, q, r) && Before(Key(r), cursor)
  }

  /** The part of it below a cursor. */
  function Rest(table: seq<Row>, scope: Scope, q: Query, cursor: Cursor): seq<Row> {
    Select(table, InRest(scope, q, cursor))
  }

  function Take(rows: seq<Row>, n: nat): seq<Row> {
    if |rows| <= n then rows else rows[..n]
  }

  function PageOf(codec: Codec, rows: seq<Row>, limit: nat): Page {
    var events := Take(rows, limit);
    Page(events, if |rows| > limit && limit > 0 then Some(codec.encode(Key(events[limit - 1]))) else None)
  }

  /** The answer to a query: the first `limit` rows of the log, or of its part below the cursor, and a cursor if more follow. */
  function List(codec: Codec, table: seq<Row>, scope: Scope, q: Query): Result<Page> {
    if q.cursor.None? then Ok(PageOf(codec, Log(table, scope, q), Limit(q))) else
    var cursor := DecodeCursor(codec, q.cursor.value);
    if cursor.Err? then Err(cursor.error) else Ok(PageOf(codec, Rest(table, scope, q, cursor.value), Limit(q)))
  }

  /** The caller sees exactly the rows of their kind that pass every filter: administrators those that are not an owner's own,
      owners their own. */
  lemma LogExact(table: seq<Row>, scope: Scope, q: Query, r: Row)
    requires UniqueIds(table)
    ensures r in Log(table, scope, q) <==>
            r in table
            && (if scope.admin then r.visibility == Admin || r.visibility == System else r.visibility == Owner)
            && (scope.ownerUserId == None || scope.ownerUserId == r.ownerUserId)
            && (q.action == None || q.action == Some(r.action)) && (q.result == None || q.result == Some(r.result))
            && (q.from == None || q.from.value <= r.occurredAt) && (q.until == None || r.occurredAt <= q.until.value)
  {
    SelectExact(table, InLog(scope, q));
  }

  /** The latest event comes first; of two at the same time, the one with the greater id. */
  lemma LatestFirst(table: seq<Row>, scope: Scope, q: Query, i: nat, j: nat)
    requires UniqueIds(table) && i < j < |Log(table, scope, q)|
    ensures
      var a, b := Log(table, scope, q)[i], Log(table, scope, q)[j];
      a.occurredAt > b.occurredAt || (a.occurredAt == b.occurredAt && Less(b.id, a.id))
  {
    SelectExact(table, InLog(scope, q));
  }

  /** A page has as many rows as asked for, fifty if nothing is said, or all there are; its cursor is its last row's, if more follow. */
  lemma PageExact(codec: Codec, table: seq<Row>, scope: Scope, q: Query)
    requires q.cursor.None?
    ensures
      var log := Log(table, scope, q);
      var limit := if q.limit.Some? then q.limit.value else 50;
      List(codec, table, scope, q).Ok?
      && var page := List(codec, table, scope, q).value;
         |page.events| == (if |log| <= limit then |log| else limit) && page.events == log[..|page.events|]
         && page.nextCursor == if |log| > limit > 0 then Some(codec.encode(Cursor(log[limit - 1].id, log[limit - 1].occurredAt))) else None
  {
  }

  /** A cursor is refused exactly when it does not read as an id and a time. */
  lemma CursorRefusedIff(codec: Codec, table: seq<Row>, scope: Scope, q: Query)
    ensures List(codec, table, scope, q) == Err("audit_cursor_invalid") <==>
            q.cursor.Some? && (codec.decode(q.cursor.value).None? || codec.decode(q.cursor.value).value.0 == []
                               || codec.decode(q.cursor.value).value.1.None?)
    ensures List(codec, table, scope, q).Err? ==> List(codec, table, scope, q) == Err("audit_cursor_invalid")
  {
  }

  // ---- following the cursors ----

  /** Below the i-th row of the log is the rest of it, whatever was appended above in the meantime. */
  lemma RestIsTail(table: seq<Row>, later: seq<Row>, scope: Scope, q: Query, i: nat)
    requires UniqueIds(table) && UniqueIds(later) && i < |Log(table, scope, q)|
    requires forall r :: r in table ==> r in later
    requires forall r :: r in later && r !in table && Matches(scope, q, r) ==> !Before(Key(r), Key(Log(table, scope, q)[i]))
    ensures Rest(later, scope, q, Key(Log(table, scope, q)[i])) == Log(table, scope, q)[i + 1..]
  {
    var log := Log(table, scope, q);
    var cursor := Key(log[i]);
    var rest := Rest(later, scope, q, cursor);
    SelectExact(table, InLog(scope, q));
    SelectExact(later, InRest(scope, q, cursor));
    forall x ensures x in rest <==> x in log[i + 1..] {
      if x in log[i + 1..] {
        var j :| i < j < |log| && log[j] == x;
        assert x in log;
      }
      if x in rest {
        assert x in table && x in log;
        var j :| 0 <= j < |log| && log[j] == x;
        if j <= i {
          BeforeTotal(Key(x), cursor);
        }
        assert log[i + 1..][j - i - 1] == x;
      }
    }
    DescendingUnique(rest, log[i + 1..]);
  }

  /** Page k was asked for with the cursor of the page before it. */
  ghost predicate Continues(codec: Codec, table: seq<Row>, scope: Scope, q: Query, before: Page, page: Page) {
    before.nextCursor.Some? && List(codec, table, scope, q.(cursor := before.nextCursor)) == Ok(page)
  }

  /** A reader's pages: the first without a cursor, each next with the cursor of the one before, on the table as it then is. */
  ghost predicate Session(codec: Codec, tables: seq<seq<Row>>, scope: Scope, q: Query, pages: seq<Page>) {
    0 < |pages| == |tables| && q.cursor.None?
    && List(codec, tables[0], scope, q) == Ok(pages[0])
    && forall k: nat :: k + 1 < |pages| ==> Continues(codec, tables[k + 1], scope, q, pages[k], pages[k + 1])
  }

  function AllEvents(pages: seq<Page>): seq<Row> {
    if pages == [] then [] else AllEvents(pages[..|pages| - 1]) + pages[|pages| - 1].events
  }

  /** Between two pages the table only grows, and only by rows that are not below what has been read. */
  ghost predicate AppendsAbove(table: seq<Row>, later: seq<Row>, scope: Scope, q: Query, read: nat) {
    (forall r :: r in table ==> r in later)
    && forall r :: r in later && r !in table && Matches(scope, q, r) && 0 < read <= |Log(table, scope, q)| ==>
         !Before(Key(r), Key(Log(table, scope, q)[read - 1]))
  }

  ghost predicate TableOk(first: seq<Row>, table: seq<Row>, scope: Scope, q: Query, read: nat) {
    UniqueIds(table) && AppendsAbove(first, table, scope, q, read)
  }

  /** What pages have shown of a log: its beginning, and all of it once a page has no cursor. */
  ghost predicate Shows(codec: Codec, log: seq<Row>, shown: seq<Row>, nextCursor: Option<string>) {
    if nextCursor.None? then shown == log
    else 0 < |shown| < |log| && shown == log[..|shown|] && nextCursor == Some(codec.encode(Key(log[|shown| - 1])))
  }

  /** Before each page but the first, the table may have grown above what has been read. */
  ghost predicate Growing(tables: seq<seq<Row>>, scope: Scope, q: Query, pages: seq<Page>)
    requires |tables| == |pages|
  {
    forall k :: 0 <= k < |tables| ==> TableOk(tables[0], tables[k], scope, q, |AllEvents(pages[..k])|)
  }

  /** Following the cursors reads the log as it was at the first page, with no row repeated or skipped. */
  lemma {:induction false} PagesFollowLog(codec: Codec, tables: seq<seq<Row>>, scope: Scope, q: Query, pages: seq<Page>)
    requires RoundTrips(codec) && Session(codec, tables, scope, q, pages) && Limit(q) > 0
    requires Growing(tables, scope, q, pages) && forall r :: r in tables[0] ==> r.id != []
    ensures Shows(codec, Log(tables[0], scope, q), AllEvents(pages), pages[|pages| - 1].nextCursor)
  {
    var n := |pages| - 1;
    var log, limit := Log(tables[0], scope, q), Limit(q);
    if n == 0 {
      assert AllEvents(pages[..0]) == [];
      PageExtends(codec, log, 0, limit);
      assert log[0..] == log && log[..0] + pages[0].events == AllEvents(pages);
    } else {
      SessionPrefix(codec, tables, scope, q, pages, n);
      PagesFollowLog(codec, tables[..n], scope, q, pages[..n]);
      assert Continues(codec, tables[(n - 1) + 1], scope, q, pages[n - 1], pages[(n - 1) + 1]);
      assert TableOk(tables[0], tables[0], scope, q, |AllEvents(pages[..0])|);
      assert TableOk(tables[0], tables[n], scope, q, |AllEvents(pages[..n])|);
      NextPage(codec, tables[0], tables[n], scope, q, AllEvents(pages[..n]), pages[n - 1], pages[n]);
    }
  }

  /** Every page but the last is full, so the reader is done after at most one page per `limit` rows and one more. */
  lemma {:induction false} PagesAreFew(codec: Codec, tables: seq<seq<Row>>, scope: Scope, q: Query, pages: seq<Page>)
    requires RoundTrips(codec) && Session(codec, tables, scope, q, pages) && Limit(q) > 0
    requires Growing(tables, scope, q, pages) && forall r :: r in tables[0] ==> r.id != []
    ensures (|pages| - 1) * Limit(q) <= |Log(tables[0], scope, q)|
  {
    PagesFollowLog(codec, tables, scope, q, pages);
    var n := |pages| - 1;
    if n > 0 {
      SessionPrefix(codec, tables, scope, q, pages, n);
      PagesFollowLog(codec, tables[..n], scope, q, pages[..n]);
      assert Continues(codec, tables[(n - 1) + 1], scope, q, pages[n - 1], pages[(n - 1) + 1]);
      FullPages(codec, tables[..n], scope, q, pages[..n]);
    }
  }

  lemma {:induction false} FullPages(codec: Codec, tables: seq<seq<Row>>, scope: Scope, q: Query, pages: seq<Page>)
    requires Session(codec, tables, scope, q, pages) && Limit(q) > 0 && pages[|pages| - 1].nextCursor.Some?
    ensures |AllEvents(pages)| == |pages| * Limit(q)
  {
    var n := |pages| - 1;
    assert |AllEvents(pages)| == |AllEvents(pages[..n])| + |pages[n].events|;
    if n == 0 {
      assert AllEvents(pages[..0]) == [];
      FullPage(codec, tables[0], scope, q, pages[0]);
      Multiply(0, Limit(q));
    } else {
      assert Continues(codec, tables[(n - 1) + 1], scope, q, pages[n - 1], pages[(n - 1) + 1]);
      FullPage(codec, tables[n], scope, q.(cursor := pages[n - 1].nextCursor), pages[n]);
      SessionPrefix(codec, tables, scope, q, pages, n);
      FullPages(codec, tables[..n], scope, q, pages[..n]);
      Multiply(n, Limit(q));
    }
  }

  lemma FullPage(codec: Codec, table: seq<Row>, scope: Scope, q: Query, page: Page)
    requires List(codec, table, scope, q) == Ok(page) && page.nextCursor.Some?
    ensures |page.events| == Limit(q)
  {
  }

  lemma Multiply(n: nat, limit: nat)
    ensures n * limit + limit == (n + 1) * limit
  {
  }

  lemma SessionPrefix(codec: Codec, tables: seq<seq<Row>>, scope: Scope, q: Query, pages: seq<Page>, n: nat)
    requires Session(codec, tables, scope, q, pages) && 0 < n < |pages|
    ensures Session(codec, tables[..n], scope, q, pages[..n])
    ensures Growing(tables, scope, q, pages) ==> Growing(tables[..n], scope, q, pages[..n])
    ensures tables[..n][0] == tables[0] && pages[..n][n - 1] == pages[n - 1]
  {
    forall k: nat | k + 1 < n ensures Continues(codec, tables[..n][k + 1], scope, q, pages[..n][k], pages[..n][k + 1]) {
      assert Continues(codec, tables[k + 1], scope, q, pages[k], pages[k + 1]);
    }
    if Growing(tables, scope, q, pages) {
      forall k | 0 <= k < n ensures TableOk(tables[..n][0], tables[..n][k], scope, q, |AllEvents(pages[..n][..k])|) {
        assert pages[..n][..k] == pages[..k];
        assert TableOk(tables[0], tables[k], scope, q, |AllEvents(pages[..k])|);
      }
    }
  }

  lemma NextPage(codec: Codec, first: seq<Row>, table: seq<Row>, scope: Scope, q: Query, shown: seq<Row>, before: Page, page: Page)
    requires RoundTrips(codec) && Limit(q) > 0 && UniqueIds(first) && TableOk(first, table, scope, q, |shown|)
    requires forall r :: r in first ==> r.id != []
    requires Continues(codec, table, scope, q, before, page)
    requires Shows(codec, Log(first, scope, q), shown, before.nextCursor)
    ensures Shows(codec, Log(first, scope, q), shown + page.events, page.nextCursor)
  {
    var log := Log(first, scope, q);
    var cursor := Key(log[|shown| - 1]);
    SelectExact(first, InLog(scope, q));
    assert log[|shown| - 1] in log;
    assert DecodeCursor(codec, before.nextCursor.value) == Ok(cursor);
    RestIsTail(first, table, scope, q, |shown| - 1);
    RestIgnoresCursor(table, scope, q, q.(cursor := before.nextCursor), cursor);
    PageExtends(codec, log, |shown|, Limit(q));
  }

  lemma RestIgnoresCursor(table: seq<Row>, scope: Scope, q: Query, next: Query, cursor: Cursor)
    requires next == q.(cursor := next.cursor)
    ensures Rest(table, scope, next, cursor) == Rest(table, scope, q, cursor)
  {
    SelectSame(table, InRest(scope, next, cursor), InRest(scope, q, cursor));
  }

  lemma PageExtends(codec: Codec, log: seq<Row>, read: nat, limit: nat)
    requires read <= |log| && limit > 0
    ensures
      var page := PageOf(codec, log[read..], limit);
      if page.nextCursor.Some? then
        read + limit < |log| && log[..read] + page.events == log[..read + limit] && page.nextCursor == Some(codec.encode(Key(log[read + limit - 1])))
      else log[..read] + page.events == log
  {
  }

  /** A row is below the cursor exactly when it comes later in the log than the row the cursor names. */
  lemma RestExact(table: seq<Row>, scope: Scope, q: Query, cursor: Cursor, r: Row)
    requires UniqueIds(table)
    ensures r in Rest(table, scope, q, cursor) <==> r in Log(table, scope, q) && Before(Key(r), cursor)
    ensures Descending(Rest(table, scope, q, cursor)) && Descending(Log(table, scope, q))
  {
    SelectExact(table, InRest(scope, q, cursor));
    SelectExact(table, InLog(scope, q));
  }
}

module AuditQueries {
  import opened Prelude
  import opened JsText
  import opened AuditSpec

  /** One conjunct of the WHERE clause, with its value. */
  datatype Clause =
    | VisibilityIn(allowed: seq<Visibility>)
    | OwnerIs(ownerUserId: string)
    | ActionIs(action: string)
    | ResultIs(result: Outcome)
    | Since(from: int)
    | Until(until: int)
    | Below(cursor: Cursor)

  predicate Holds(c: Clause, r: Row) {
    match c
    case VisibilityIn(allowed) => r.visibility in allowed
    case OwnerIs(ownerUserId) => r.ownerUserId == Some(ownerUserId)
    case ActionIs(action) => r.action == action
    case ResultIs(result) => r.result == result
    case Since(from) => r.occurredAt >= from
    case Until(until) => r.occurredAt <= until
    case Below(cursor) => r.occurredAt < cursor.occurredAt || (r.occurredAt == cursor.occurredAt && Less(r.id, cursor.id))
  }

  predicate AllHold(clauses: seq<Clause>, r: Row) {
    forall i :: 0 <= i < |clauses| ==> Holds(clauses[i], r)
  }

  function Where(clauses: seq<Clause>): Row -> bool {
    r => AllHold(clauses, r)
  }

  /** Asking for one row more than the page holds tells whether another page follows. */
  lemma SplitPage(codec: Codec, rows: seq<Row>, limit: nat)
    ensures
      var fetched := Take(rows, limit + 1);
      var page := Take(fetched, limit);
      Page(page, if |fetched| > limit && page != [] then Some(codec.encode(Key(page[|page| - 1]))) else None) == PageOf(codec, rows, limit)
  {
  }

  lemma OneMoreHolds(clauses: seq<Clause>, c: Clause)
    ensures forall r :: AllHold(clauses + [c], r) <==> AllHold(clauses, r) && Holds(c, r)
  {
    forall r ensures AllHold(clauses + [c], r) <==> AllHold(clauses, r) && Holds(c, r) {
      if AllHold(clauses + [c], r) {
        assert Holds((clauses + [c])[|clauses|], r);
        assert forall i :: 0 <= i < |clauses| ==> (clauses + [c])[i] == clauses[i];
      }
    }
  }

  class AuditQueryService {
    const codec: Codec
    var table: seq<Row>

    constructor (codec: Codec)
      ensures this.codec == codec && table == []
    {
      this.codec, table := codec, [];
    }

    method ListAdmin(q: Query) returns (listed: Result<Page>)
      ensures listed == List(codec, table, Scope(None, true), q)
    {
      listed := Run(Scope(None, true), q);
    }

    method ListOwner(ownerUserId: string, q: Query) returns (listed: Result<Page>)
      ensures listed == List(codec, table, Scope(Some(ownerUserId), false), q)
    {
      listed := Run(Scope(Some(ownerUserId), false), q);
    }

    method Run(scope: Scope, q: Query) returns (listed: Result<Page>)
      ensures listed == List(codec, table, scope, q)
    {
      var limit := Limit(q);
      var clauses := Filters(scope, q);
      if q.cursor.Some? {
        var cursor := DecodeCursor(codec, q.cursor.value);
        if cursor.Err? {
          return Err(cursor.error);
        }
        OneMoreHolds(clauses, Below(cursor.value));
        clauses := clauses + [Below(cursor.value)];
        SelectSame(table, Where(clauses), InRest(scope, q, cursor.value));
      } else {
        SelectSame(table, Where(clauses), InLog(scope, q));
      }
      SplitPage(codec, Select(table, Where(clauses)), limit);
      var rows := Take(Select(table, Where(clauses)), limit + 1);
      var page := Take(rows, limit);
      var next := None;
      if |rows| > limit && page != [] {
        next := Some(codec.encode(Key(page[|page| - 1])));
      }
      return Ok(Page(page, next));
    }

    method Filters(scope: Scope, q: Query) returns (clauses: seq<Clause>)
      ensures forall r :: AllHold(clauses, r) <==> Matches(scope, q, r)
    {
      clauses := [VisibilityIn(if scope.admin then [Admin, System] else [Owner])];
      assert forall r :: AllHold(clauses, r) <==> Holds(clauses[0], r);
      if scope.ownerUserId.Some? {
        OneMoreHolds(clauses, OwnerIs(scope.ownerUserId.value));
        clauses := clauses + [OwnerIs(scope.ownerUserId.value)];
      }
      if q.action.Some? {
        OneMoreHolds(clauses, ActionIs(q.action.value));
        clauses := clauses + [ActionIs(q.action.value)];
      }
      if q.result.Some? {
        OneMoreHolds(clauses, ResultIs(q.result.value));
        clauses := clauses + [ResultIs(q.result.value)];
      }
      if q.from.Some? {
        OneMoreHolds(clauses, Since(q.from.value));
        clauses := clauses + [Since(q.from.value)];
      }
      if q.until.Some? {
        OneMoreHolds(clauses, Until(q.until.value));
        clauses := clauses + [Until(q.until.value)];
      }
    }
  }
}
