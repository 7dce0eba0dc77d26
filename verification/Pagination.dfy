// Keyset pagination: pages of a table in (date, id) descending order, linked by cursors.
module Pagination {
  import opened Prelude
  import opened Base64
  import opened Cursors

  datatype Item = Item(date: Date, id: Text)

  type Table = seq<Item>

  // ----- The order -----

  // Byte order, as the database compares ids.
  predicate Lex(a: Text, b: Text) {
    b != [] && (a == [] || a[0] < b[0] || (a[0] == b[0] && Lex(a[1..], b[1..])))
  }

  // The order of ids is that of the first byte in which they differ, or a proper prefix first.
  lemma {:induction false} LexExactly(a: Text, b: Text)
    ensures Lex(a, b) <==> exists k :: 0 <= k <= |a| && LexAt(a, b, k)
  {
    if a != [] && b != [] && a[0] == b[0] {
      LexExactly(a[1..], b[1..]);
      if Lex(a, b) {
        var k :| 0 <= k <= |a[1..]| && LexAt(a[1..], b[1..], k);
        assert a[..k + 1] == [a[0]] + a[1..][..k] && b[..k + 1] == [b[0]] + b[1..][..k];
        assert LexAt(a, b, k + 1);
      }
      if k :| 0 <= k <= |a| && LexAt(a, b, k) {
        assert k > 0 && a[1..][..k - 1] == a[..k][1..] && b[1..][..k - 1] == b[..k][1..];
        assert LexAt(a[1..], b[1..], k - 1);
      }
    } else {
      assert a[..0] == b[..0];
      assert Lex(a, b) ==> LexAt(a, b, 0);
      assert forall k :: 1 <= k <= |a| && LexAt(a, b, k) ==> a[..k][0] == b[..k][0];
    }
  }

  ghost predicate LexAt(a: Text, b: Text, k: nat) {
    && k <= |a| && k < |b| && a[..k] == b[..k] && (k == |a| || a[k] < b[k])
  }

  lemma {:induction false} LexTransitive(a: Text, b: Text, c: Text)
    requires Lex(a, b) && Lex(b, c)
    ensures Lex(a, c)
  {
    if a != [] && a[0] == b[0] == c[0] {
      LexTransitive(a[1..], b[1..], c[1..]);
    }
  }

  lemma {:induction false} LexTotal(a: Text, b: Text)
    ensures Lex(a, b) || Lex(b, a) || a == b
    ensures !(Lex(a, b) && Lex(b, a)) && !Lex(a, a)
  {
    if a != [] {
      LexTotal(a[1..], a[1..]);
      if b != [] && a[0] == b[0] {
        LexTotal(a[1..], b[1..]);
        assert a == [a[0]] + a[1..] && b == [b[0]] + b[1..];
      }
    }
  }

  // `a` is listed before `b`: date descending, then id descending.
  predicate Precedes(a: Item, b: Item) {
    a.date > b.date || (a.date == b.date && Lex(b.id, a.id))
  }

  // Later dates first; on one date, ids in descending byte order.
  lemma PrecedesExactly(a: Item, b: Item)
    ensures a.date > b.date ==> Precedes(a, b)
    ensures a.date < b.date ==> !Precedes(a, b)
    ensures a.date == b.date ==> (Precedes(a, b) <==> exists k :: 0 <= k <= |b.id| && LexAt(b.id, a.id, k))
  {
    LexExactly(b.id, a.id);
  }

  lemma PrecedesTransitive(a: Item, b: Item, c: Item)
    requires Precedes(a, b) && Precedes(b, c)
    ensures Precedes(a, c)
  {
    if a.date == b.date == c.date {
      LexTransitive(c.id, b.id, a.id);
    }
  }

  lemma PrecedesTotal(a: Item, b: Item)
    ensures Precedes(a, b) || Precedes(b, a) || a == b
    ensures !(Precedes(a, b) && Precedes(b, a)) && !Precedes(a, a)
  {
    LexTotal(a.id, b.id);
    LexTotal(a.id, a.id);
  }

  // Strictly ordered, so without repetition.
  ghost predicate Sorted(s: seq<Item>) {
    forall i, j :: 0 <= i < j < |s| ==> Precedes(s[i], s[j])
  }

  // ----- The database's answers -----

  function Insert(x: Item, s: seq<Item>): seq<Item> {
    if s == [] || Precedes(x, s[0]) then [x] + s else [s[0]] + Insert(x, s[1..])
  }

  lemma {:induction false} InsertSorts(x: Item, s: seq<Item>)
    requires Sorted(s) && x !in s
    ensures Sorted(Insert(x, s))
    ensures forall y :: y in Insert(x, s) <==> y == x || y in s
  {
    if s != [] {
      PrecedesTotal(x, s[0]);
      if Precedes(x, s[0]) {
        forall j | 0 <= j < |s| ensures Precedes(x, s[j]) {
          if j > 0 {
            PrecedesTransitive(x, s[0], s[j]);
          }
        }
      } else {
        InsertSorts(x, s[1..]);
        assert s[0] in s;
        forall y | y in Insert(x, s[1..]) ensures Precedes(s[0], y) {
          if y != x {
            var k :| 0 <= k < |s[1..]| && s[1..][k] == y;
          }
        }
        assert s == [s[0]] + s[1..];
      }
    }
  }

  // ORDER BY date DESC, id DESC.
  function Listing(table: Table): seq<Item> {
    if table == [] then [] else Insert(table[0], Listing(table[1..]))
  }

  predicate Distinct(table: Table) {
    forall i, j :: 0 <= i < j < |table| ==> table[i] != table[j]
  }

  lemma {:induction false} ListingSorts(table: Table)
    requires Distinct(table)
    ensures Sorted(Listing(table))
    ensures forall x :: x in Listing(table) <==> x in table
  {
    if table != [] {
      ListingSorts(table[1..]);
      assert table[0] !in table[1..];
      InsertSorts(table[0], Listing(table[1..]));
      assert table == [table[0]] + table[1..];
    }
  }

  function Where(rows: seq<Item>, condition: Item -> bool): seq<Item> {
    if rows == [] then [] else
      (if condition(rows[0]) then [rows[0]] else []) + Where(rows[1..], condition)
  }

  lemma {:induction false} WhereKeeps(rows: seq<Item>, condition: Item -> bool)
    ensures forall x :: x in Where(rows, condition) <==> x in rows && condition(x)
    ensures Sorted(rows) ==> Sorted(Where(rows, condition))
    ensures |Where(rows, condition)| <= |rows|
  {
    if rows != [] {
      WhereKeeps(rows[1..], condition);
      var kept := Where(rows[1..], condition);
      if Sorted(rows) {
        forall y | y in kept ensures Precedes(rows[0], y) {
          assert y in rows[1..];
        }
      }
      assert Where(rows, condition) == (if condition(rows[0]) then [rows[0]] else []) + kept;
      assert rows == [rows[0]] + rows[1..];
    }
  }

  function Take(rows: seq<Item>, n: nat): seq<Item> {
    if |rows| <= n then rows else rows[..n]
  }

  // The query being built: conditions are added, the row limit is set, then it is run.
  class QueryBuilder {
    const table: Table
    var condition: Item -> bool
    var limit: nat

    constructor (table: Table, condition: Item -> bool)
      ensures this.table == table && this.condition == condition
    {
      this.table, this.condition, this.limit := table, condition, |table|;
    }

    method AndWhere(more: Item -> bool)
      modifies this`condition
      ensures forall x :: condition(x) <==> old(condition)(x) && more(x)
    {
      var before := condition;
      condition := x => before(x) && more(x);
    }

    method SetTake(n: nat)
      modifies this`limit
      ensures limit == n
    {
      limit := n;
    }

    method GetMany() returns (items: seq<Item>)
      ensures items == Take(Where(Listing(table), condition), limit)
    {
      items := Take(Where(Listing(table), condition), limit);
    }
  }

  // ----- One page -----

  const MAX_PAGE_LIMIT := 100
  const DEFAULT_PAGE_LIMIT := 20

  // An absent limit, or one that is not a finite number, is the default.
  function ClampPageLimit(limit: Option<int>): (n: nat)
    ensures 1 <= n <= 100
    ensures limit.None? ==> n == 20
    ensures limit.Some? && 1 <= limit.value <= 100 ==> n == limit.value
    ensures limit.Some? && limit.value < 1 ==> n == 1
    ensures limit.Some? && limit.value > 100 ==> n == 100
  {
    Max(1, Min(MAX_PAGE_LIMIT, if limit.Some? then limit.value else DEFAULT_PAGE_LIMIT))
  }

  // Word characters only, and no digit in front.
  predicate SafeIdentifier(name: string) {
    && name != ""
    && !('0' <= name[0] <= '9')
    && forall i :: 0 <= i < |name| ==>
         'a' <= name[i] <= 'z' || 'A' <= name[i] <= 'Z' || '0' <= name[i] <= '9' || name[i] == '_'
  }

  lemma SafeIdentifierExactly(name: string)
    ensures SafeIdentifier(name) <==>
              && name != ""
              && (name[0] == '_' || 'a' <= name[0] <= 'z' || 'A' <= name[0] <= 'Z')
              && forall c :: c in name[1..] ==> c == '_' || 'a' <= c <= 'z' || 'A' <= c <= 'Z' || '0' <= c <= '9'
  {
    if name != "" {
      assert name == [name[0]] + name[1..];
      assert forall i :: 0 < i < |name| ==> name[i] in name[1..];
    }
  }

  datatype Options = Options(cursor: string, limit: Option<int>, alias: string, dateField: string)

  datatype PageError = UnsafeIdentifier | BadCursor(error: CursorError)

  datatype Page = Page(data: seq<Item>, nextCursor: Option<string>)

  // Rows after a position in the listing; before the first row if there is none.
  predicate IsAfter(position: Option<Item>, x: Item) {
    position.None? || Precedes(position.value, x)
  }

  // What is left of the filtered listing after a position.
  function Rest(table: Table, filter: Item -> bool, position: Option<Item>): seq<Item> {
    Where(Where(Listing(table), filter), x => IsAfter(position, x))
  }

  function PageAt(codec: DateCodec, table: Table, filter: Item -> bool, position: Option<Item>, limit: nat): Page
    requires limit >= 1
  {
    var rest := Rest(table, filter, position);
    if |rest| <= limit then Page(rest, None)
    else Page(rest[..limit], Some(EncodeCursor(codec, rest[limit - 1].date, rest[limit - 1].id)))
  }

  // The page of at most `limit` rows after a position, told without the query: in order,
  // and every matching row after the position is on it, or comes after all of it; then and
  // only then there is a next cursor, that of its last row.
  ghost predicate ShowsNext(codec: DateCodec, table: Table, p: Item -> bool, q: Item -> bool, position: Option<Item>,
                            limit: nat, page: Page) {
    && |page.data| <= limit && Sorted(page.data)
    && (forall x :: x in page.data ==> x in table && p(x) && q(x) && IsAfter(position, x))
    && (forall x :: x in table && p(x) && q(x) && IsAfter(position, x) && x !in page.data ==>
          page.nextCursor.Some? && forall y :: y in page.data ==> Precedes(y, x))
    && (page.nextCursor.Some? ==>
          && |page.data| == limit > 0
          && page.nextCursor.value == EncodeCursor(codec, page.data[limit - 1].date, page.data[limit - 1].id)
          && exists x :: x in table && p(x) && q(x) && IsAfter(position, x) && x !in page.data)
  }

  lemma PageShowsNext(codec: DateCodec, table: Table, p: Item -> bool, q: Item -> bool, position: Option<Item>, limit: nat)
    requires limit >= 1 && Distinct(table)
    ensures ShowsNext(codec, table, p, q, position, limit, PageAt(codec, table, Both(p, q), position, limit))
  {
    var rest := Rest(table, Both(p, q), position);
    RestIsLeft(table, Both(p, q), position);
    if |rest| > limit {
      CutInTwo(rest, limit);
      var x := rest[limit];
      assert x in table && p(x) && q(x) && IsAfter(position, x);
    }
  }

  lemma RestIsLeft(table: Table, filter: Item -> bool, position: Option<Item>)
    requires Distinct(table)
    ensures Sorted(Rest(table, filter, position))
    ensures forall x :: x in Rest(table, filter, position) <==> x in table && filter(x) && IsAfter(position, x)
  {
    ListingSorts(table);
    WhereKeeps(Listing(table), filter);
    WhereKeeps(Where(Listing(table), filter), x => IsAfter(position, x));
  }

  lemma CutInTwo(rest: seq<Item>, limit: nat)
    requires Sorted(rest) && limit < |rest|
    ensures Sorted(rest[..limit]) && rest[limit] in rest && rest[limit] !in rest[..limit]
    ensures forall x, y :: x in rest && x !in rest[..limit] && y in rest[..limit] ==> Precedes(y, x)
  {
    forall k | 0 <= k < limit
      ensures rest[k] in rest[..limit] && rest[k] != rest[limit]
    {
      assert rest[..limit][k] == rest[k];
      PrecedesTotal(rest[k], rest[limit]);
    }
    forall x, y | x in rest && x !in rest[..limit] && y in rest[..limit]
      ensures Precedes(y, x)
    {
      var i :| 0 <= i < |rest| && rest[i] == x;
      var j :| 0 <= j < limit && rest[j] == y;
    }
  }

  // Where a cursor says to go on; the empty string is no cursor.
  function Position(codec: DateCodec, cursor: string): Result<Option<Item>, CursorError> {
    if cursor == "" then Ok(None) else
      match DecodeCursor(codec, cursor)
      case Ok(at) => Ok(Some(Item(at.date, at.id)))
      case Err(error) => Err(error)
  }

  lemma {:induction false} WhereTwice(rows: seq<Item>, p: Item -> bool, q: Item -> bool, both: Item -> bool)
    requires forall x :: both(x) <==> p(x) && q(x)
    ensures Where(Where(rows, p), q) == Where(rows, both)
  {
    if rows != [] {
      WhereTwice(rows[1..], p, q, both);
      var rest := Where(rows[1..], p);
      if p(rows[0]) {
        assert ([rows[0]] + rest)[1..] == rest;
      } else {
        assert Where(rows, p) == [] + rest == rest;
      }
    }
  }

  // The answer that a call with this cursor gets.
  function PageFor(codec: DateCodec, table: Table, filter: Item -> bool, cursor: string, limit: nat)
      : Result<Page, CursorError>
    requires limit >= 1
  {
    match Position(codec, cursor)
    case Err(error) => Err(error)
    case Ok(position) => Ok(PageAt(codec, table, filter, position, limit))
  }

  // The conditions that the caller's query comes with, and the filters of the call.
  function Both(p: Item -> bool, q: Item -> bool): Item -> bool {
    x => p(x) && q(x)
  }

  method ExecutePagination(codec: DateCodec, qb: QueryBuilder, options: Options, filters: Item -> bool)
      returns (r: Result<Page, PageError>)
    modifies qb
    ensures !SafeIdentifier(options.alias) || !SafeIdentifier(options.dateField) ==> r == Err(UnsafeIdentifier)
    ensures SafeIdentifier(options.alias) && SafeIdentifier(options.dateField) ==>
              match PageFor(codec, qb.table, Both(old(qb.condition), filters), options.cursor, ClampPageLimit(options.limit))
              case Ok(page) => r == Ok(page)
              case Err(error) => r == Err(BadCursor(error))
    ensures Distinct(qb.table) && r.Ok? ==>
              && Position(codec, options.cursor).Ok?
              && ShowsNext(codec, qb.table, old(qb.condition), filters, Position(codec, options.cursor).value,
                           ClampPageLimit(options.limit), r.value)
  {
    var effectiveLimit := ClampPageLimit(options.limit);
    ghost var filter := Both(qb.condition, filters);
    if !SafeIdentifier(options.alias) || !SafeIdentifier(options.dateField) {
      return Err(UnsafeIdentifier);
    }
    qb.AndWhere(filters);
    qb.SetTake(effectiveLimit + 1);
    ghost var position: Option<Item> := None;
    if options.cursor != "" {
      var decoded := DecodeCursor(codec, options.cursor);
      if decoded.Err? {
        return Err(BadCursor(decoded.error));
      }
      var date, id := decoded.value.date, decoded.value.id;
      position := Some(Item(date, id));
      qb.AndWhere((x: Item) => x.date < date || (x.date == date && Lex(x.id, id)));
    }
    assert Position(codec, options.cursor) == Ok(position);
    if Distinct(qb.table) {
      PageShowsNext(codec, qb.table, old(qb.condition), filters, position, effectiveLimit);
    }
    var page := FetchPage(codec, qb, filter, position, effectiveLimit);
    r := Ok(page);
  }

  // The second half: run the query for one row more than the page, and name the page's last
  // row in the next cursor if there is one more.
  method FetchPage(codec: DateCodec, qb: QueryBuilder, ghost filter: Item -> bool, ghost position: Option<Item>,
                   effectiveLimit: nat) returns (page: Page)
    requires effectiveLimit >= 1 && qb.limit == effectiveLimit + 1
    requires forall x :: qb.condition(x) <==> filter(x) && IsAfter(position, x)
    ensures page == PageAt(codec, qb.table, filter, position, effectiveLimit)
  {
    var items := qb.GetMany();
    WhereTwice(Listing(qb.table), filter, x => IsAfter(position, x), qb.condition);
    ghost var rest := Rest(qb.table, filter, position);
    var nextCursor := None;
    if |items| > effectiveLimit {
      items := items[..|items| - 1];
      var lastItem := items[|items| - 1];
      assert items == rest[..effectiveLimit];
      nextCursor := Some(EncodeCursor(codec, lastItem.date, lastItem.id));
    }
    page := Page(items, nextCursor);
  }
}
