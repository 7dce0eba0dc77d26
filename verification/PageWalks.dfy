// Following nextCursor from page to page, over a table that may change between the pages.
module PageWalks {
  import opened Prelude
  import opened Cursors
  import opened Pagination

  // Rows are distinct and their ids survive a cursor.
  ghost predicate GoodTable(table: Table) {
    Distinct(table) && forall x :: x in table ==> Portable(x.id)
  }

  // ----- Walks with any way of fetching a page after a position -----

  // A page, and the position to go on from.
  datatype Fetched = Fetched(data: seq<Item>, next: Option<Item>)

  type Fetch = (Table, Option<Item>) -> Fetched

  // The page is in order and holds matching rows after the position; it is full, and ends
  // where the next one starts, if there is a next one; and every other matching row after
  // the position is after the page.
  ghost predicate PageSpec(table: Table, filter: Item -> bool, position: Option<Item>, limit: nat, page: Fetched) {
    && Sorted(page.data)
    && (forall x :: x in page.data ==> x in table && filter(x) && IsAfter(position, x))
    && (page.next.Some? ==> |page.data| == limit >= 1 && page.next.value == page.data[limit - 1])
    && (page.next.None? ==> |page.data| <= limit)
    && (forall x :: x in table && filter(x) && IsAfter(position, x) && x !in page.data ==>
          page.next.Some? && Precedes(page.next.value, x))
  }

  ghost predicate FetchesPages(fetch: Fetch, filter: Item -> bool, limit: nat) {
    forall table, position :: GoodTable(table) ==> PageSpec(table, filter, position, limit, fetch(table, position))
  }

  // Pages fetched one after the other, page `i` from the table as it is then.
  ghost predicate IsWalk(fetch: Fetch, tables: seq<Table>, walk: seq<Fetched>) {
    && |walk| == |tables| >= 1
    && (forall i :: 0 <= i < |tables| ==> GoodTable(tables[i]))
    && walk[0] == fetch(tables[0], None)
    && forall i :: 1 <= i < |walk| ==> Follows(fetch, tables, walk, i)
  }

  ghost predicate Follows(fetch: Fetch, tables: seq<Table>, walk: seq<Fetched>, i: nat)
    requires 1 <= i < |walk| == |tables|
  {
    walk[i - 1].next.Some? && walk[i] == fetch(tables[i], walk[i - 1].next)
  }

  // Everything the first `n` pages showed, in order.
  ghost function Shown(walk: seq<Fetched>, n: nat): seq<Item>
    requires n <= |walk|
  {
    if n == 0 then [] else Shown(walk, n - 1) + walk[n - 1].data
  }

  lemma SortedAppend(s: seq<Item>, t: seq<Item>)
    requires Sorted(s) && Sorted(t)
    requires s != [] && t != [] ==> Precedes(s[|s| - 1], t[0])
    ensures Sorted(s + t)
  {
    var u := s + t;
    forall i, j | 0 <= i < j < |u|
      ensures Precedes(u[i], u[j])
    {
      if i < |s| <= j {
        if i < |s| - 1 {
          PrecedesTransitive(s[i], s[|s| - 1], t[0]);
        }
        if j > |s| {
          PrecedesTransitive(s[i], t[0], t[j - |s|]);
        }
      }
    }
  }

  // The rows a walk has neither shown nor lost lie ahead of it.
  ghost predicate Ahead(walk: seq<Fetched>, n: nat, x: Item)
    requires 1 <= n <= |walk|
  {
    walk[n - 1].next.Some? && Precedes(walk[n - 1].next.value, x)
  }

  // After `n` pages what was shown is in order, and ends where the next page starts.
  lemma {:induction false} WalkSoFar(fetch: Fetch, tables: seq<Table>, filter: Item -> bool, limit: nat, walk: seq<Fetched>, n: nat)
    requires FetchesPages(fetch, filter, limit) && IsWalk(fetch, tables, walk) && 1 <= n <= |walk|
    ensures InOrder(walk, n)
  {
    if n == 1 {
      assert PageSpec(tables[0], filter, None, limit, walk[0]);
      assert Shown(walk, 1) == [] + walk[0].data == walk[0].data;
    } else {
      WalkSoFar(fetch, tables, filter, limit, walk, n - 1);
      assert Follows(fetch, tables, walk, n - 1);
      OneMorePage(tables[n - 1], filter, limit, walk, n);
    }
  }

  ghost predicate InOrder(walk: seq<Fetched>, n: nat)
    requires 1 <= n <= |walk|
  {
    var shown := Shown(walk, n);
    Sorted(shown) && (walk[n - 1].next.Some? ==> shown != [] && shown[|shown| - 1] == walk[n - 1].next.value)
  }

  lemma OneMorePage(table: Table, filter: Item -> bool, limit: nat, walk: seq<Fetched>, n: nat)
    requires 2 <= n <= |walk| && walk[n - 2].next.Some? && InOrder(walk, n - 1)
    requires PageSpec(table, filter, walk[n - 2].next, limit, walk[n - 1])
    ensures InOrder(walk, n)
  {
    AppendPage(Shown(walk, n - 1), walk[n - 1].data, walk[n - 2].next.value);
  }

  // As long as there is a next page, every page so far was full.
  lemma {:induction false} FullPagesSoFar(fetch: Fetch, tables: seq<Table>, filter: Item -> bool, limit: nat,
                                          walk: seq<Fetched>, n: nat)
    requires FetchesPages(fetch, filter, limit) && IsWalk(fetch, tables, walk) && 1 <= n <= |walk|
    requires walk[n - 1].next.Some?
    ensures |Shown(walk, n)| == n * limit
  {
    if n == 1 {
      assert PageSpec(tables[0], filter, None, limit, walk[0]);
      assert Shown(walk, 0) == [];
    } else {
      assert Follows(fetch, tables, walk, n - 1);
      FullPagesSoFar(fetch, tables, filter, limit, walk, n - 1);
      assert PageSpec(tables[n - 1], filter, walk[n - 2].next, limit, walk[n - 1]);
      assert n * limit == (n - 1) * limit + limit;
    }
  }

  lemma AppendPage(shown: seq<Item>, data: seq<Item>, position: Item)
    requires Sorted(shown) && Sorted(data) && shown != [] && shown[|shown| - 1] == position
    requires forall x :: x in data ==> Precedes(position, x)
    ensures Sorted(shown + data)
  {
    if data != [] {
      assert data[0] in data;
    }
    SortedAppend(shown, data);
  }

  lemma {:induction false} ShownAreMatchingRows(fetch: Fetch, tables: seq<Table>, filter: Item -> bool, limit: nat,
                                                walk: seq<Fetched>, n: nat, x: Item)
    requires FetchesPages(fetch, filter, limit) && IsWalk(fetch, tables, walk) && n <= |walk| && x in Shown(walk, n)
    ensures filter(x) && exists i :: 0 <= i < n && x in tables[i]
  {
    if x in Shown(walk, n - 1) {
      ShownAreMatchingRows(fetch, tables, filter, limit, walk, n - 1, x);
    } else {
      assert n > 1 ==> Follows(fetch, tables, walk, n - 1);
      assert PageSpec(tables[n - 1], filter, if n == 1 then None else walk[n - 2].next, limit, walk[n - 1]);
      assert x in tables[n - 1];
    }
  }

  // A matching row that is there for the first `n` pages has been shown or lies ahead.
  lemma {:induction false} SteadyRowSoFar(fetch: Fetch, tables: seq<Table>, filter: Item -> bool, limit: nat, walk: seq<Fetched>,
                                          n: nat, x: Item)
    requires FetchesPages(fetch, filter, limit) && IsWalk(fetch, tables, walk) && 1 <= n <= |walk|
    requires filter(x) && forall i :: 0 <= i < n ==> x in tables[i]
    ensures x in Shown(walk, n) || Ahead(walk, n, x)
  {
    if n == 1 {
      assert PageSpec(tables[0], filter, None, limit, walk[0]);
      assert Shown(walk, 1) == [] + walk[0].data;
    } else {
      SteadyRowSoFar(fetch, tables, filter, limit, walk, n - 1, x);
      assert Follows(fetch, tables, walk, n - 1);
      assert PageSpec(tables[n - 1], filter, walk[n - 2].next, limit, walk[n - 1]);
    }
  }

  // ----- Walks with cursors instead of positions -----

  // What a call with a cursor answers, and the position a cursor stands for.
  type Answer = (Table, string) -> Result<Page, CursorError>
  type Decoder = string -> Result<Option<Item>, CursorError>

  // Each page is the answer to a call with the cursor of the page before, until there is none.
  ghost predicate IsCursorWalk(answer: Answer, tables: seq<Table>, pages: seq<Page>) {
    && |pages| == |tables| >= 1
    && (forall i :: 0 <= i < |tables| ==> GoodTable(tables[i]))
    && answer(tables[0], "") == Ok(pages[0])
    && forall i :: 1 <= i < |pages| ==> FollowsCursor(answer, tables, pages, i)
  }

  ghost predicate FollowsCursor(answer: Answer, tables: seq<Table>, pages: seq<Page>, i: nat)
    requires 1 <= i < |pages| == |tables|
  {
    pages[i - 1].nextCursor.Some? && answer(tables[i], pages[i - 1].nextCursor.value) == Ok(pages[i])
  }

  ghost predicate IsFinished(pages: seq<Page>)
    requires |pages| >= 1
  {
    pages[|pages| - 1].nextCursor.None?
  }

  ghost function AllShown(pages: seq<Page>): seq<Item> {
    if pages == [] then [] else AllShown(pages[..|pages| - 1]) + pages[|pages| - 1].data
  }

  ghost predicate SamePage(decode: Decoder, page: Page, fetched: Fetched) {
    && page.data == fetched.data
    && (page.nextCursor.Some? <==> fetched.next.Some?)
    && (page.nextCursor.Some? ==> decode(page.nextCursor.value) == Ok(fetched.next))
  }

  ghost predicate Agrees(answer: Answer, decode: Decoder, fetch: Fetch) {
    && decode("") == Ok(None)
    && forall table, cursor :: GoodTable(table) && decode(cursor).Ok? ==>
         answer(table, cursor).Ok? && SamePage(decode, answer(table, cursor).value, fetch(table, decode(cursor).value))
  }

  // A walk so far is a walk.
  lemma CursorWalkSoFar(answer: Answer, tables: seq<Table>, pages: seq<Page>)
    requires IsCursorWalk(answer, tables, pages) && |pages| > 1
    ensures IsCursorWalk(answer, tables[..|pages| - 1], pages[..|pages| - 1])
  {
    var n := |pages| - 1;
    forall i | 1 <= i < n
      ensures FollowsCursor(answer, tables[..n], pages[..n], i)
    {
      assert FollowsCursor(answer, tables, pages, i);
    }
  }

  // The pages are those of a walk by positions.
  ghost predicate IsFaithful(decode: Decoder, fetch: Fetch, tables: seq<Table>, pages: seq<Page>, walk: seq<Fetched>) {
    && |pages| == |tables| && IsWalk(fetch, tables, walk)
    && (forall i :: 0 <= i < |pages| ==> SamePage(decode, pages[i], walk[i]))
    && Shown(walk, |walk|) == AllShown(pages)
  }

  lemma OneMoreCursor(answer: Answer, decode: Decoder, fetch: Fetch, tables: seq<Table>, pages: seq<Page>, before: seq<Fetched>)
      returns (walk: seq<Fetched>)
    requires Agrees(answer, decode, fetch) && IsCursorWalk(answer, tables, pages) && |pages| > 1
    requires IsFaithful(decode, fetch, tables[..|pages| - 1], pages[..|pages| - 1], before)
    ensures IsFaithful(decode, fetch, tables, pages, walk)
  {
    var n := |pages| - 1;
    assert SamePage(decode, pages[..n][n - 1], before[n - 1]) && FollowsCursor(answer, tables, pages, n);
    walk := before + [fetch(tables[n], before[n - 1].next)];
    forall i | 1 <= i < |walk|
      ensures Follows(fetch, tables, walk, i)
    {
      assert i < n ==> Follows(fetch, tables[..n], before, i);
    }
    forall i | 0 <= i < |pages|
      ensures SamePage(decode, pages[i], walk[i])
    {
      assert i < n ==> SamePage(decode, pages[..n][i], before[i]);
    }
    ShownPrefix(before, walk, n);
  }

  // Following cursors is following positions.
  lemma {:induction false} CursorsAreFaithful(answer: Answer, decode: Decoder, fetch: Fetch, tables: seq<Table>, pages: seq<Page>)
      returns (walk: seq<Fetched>)
    requires Agrees(answer, decode, fetch) && IsCursorWalk(answer, tables, pages)
    ensures IsFaithful(decode, fetch, tables, pages, walk)
  {
    if |pages| == 1 {
      walk := [fetch(tables[0], None)];
      assert pages[..0] == [];
      assert Shown(walk, 1) == Shown(walk, 0) + walk[0].data;
    } else {
      var n := |pages| - 1;
      CursorWalkSoFar(answer, tables, pages);
      var before := CursorsAreFaithful(answer, decode, fetch, tables[..n], pages[..n]);
      walk := OneMoreCursor(answer, decode, fetch, tables, pages, before);
    }
  }

  lemma {:induction false} ShownPrefix(before: seq<Fetched>, walk: seq<Fetched>, n: nat)
    requires before <= walk && n <= |before|
    ensures Shown(before, n) == Shown(walk, n)
  {
    if n > 0 {
      ShownPrefix(before, walk, n - 1);
    }
  }

  // ----- The helper's own pages -----

  // What is left after a position is in order, and is exactly the matching rows after it.
  lemma RestIs(table: Table, filter: Item -> bool, position: Option<Item>)
    requires Distinct(table)
    ensures Sorted(Rest(table, filter, position))
    ensures forall x :: x in Rest(table, filter, position) <==> x in table && filter(x) && IsAfter(position, x)
  {
    ListingSorts(table);
    WhereKeeps(Listing(table), filter);
    WhereKeeps(Where(Listing(table), filter), x => IsAfter(position, x));
  }

  // The first `limit` rows of what is left, by position instead of by cursor.
  function FetchAt(table: Table, filter: Item -> bool, position: Option<Item>, limit: nat): Fetched
    requires limit >= 1
  {
    var rest := Rest(table, filter, position);
    if |rest| <= limit then Fetched(rest, None) else Fetched(rest[..limit], Some(rest[limit - 1]))
  }

  lemma FetchAtIsAPage(table: Table, filter: Item -> bool, position: Option<Item>, limit: nat)
    requires limit >= 1 && GoodTable(table)
    ensures PageSpec(table, filter, position, limit, FetchAt(table, filter, position, limit))
  {
    RestIs(table, filter, position);
    CutSorted(Rest(table, filter, position), limit);
  }

  lemma CutSorted(rest: seq<Item>, limit: nat)
    requires Sorted(rest) && 1 <= limit
    ensures |rest| > limit ==> forall x :: x in rest && x !in rest[..limit] ==> Precedes(rest[limit - 1], x)
  {
    if |rest| > limit {
      forall x | x in rest && x !in rest[..limit]
        ensures Precedes(rest[limit - 1], x)
      {
        var k :| 0 <= k < |rest| && rest[k] == x;
        assert forall j :: 0 <= j < limit ==> rest[j] in rest[..limit];
      }
    }
  }

  // The cursor of a page leads to the position that the page ends at.
  lemma CursorLeadsOn(codec: DateCodec, table: Table, filter: Item -> bool, position: Option<Item>, limit: nat)
    requires limit >= 1 && GoodTable(table) && Lossless(codec)
    ensures var page, fetched := PageAt(codec, table, filter, position, limit), FetchAt(table, filter, position, limit);
            && page.data == fetched.data
            && (page.nextCursor.Some? <==> fetched.next.Some?)
            && (page.nextCursor.Some? ==> Position(codec, page.nextCursor.value) == Ok(fetched.next))
  {
    var rest := Rest(table, filter, position);
    if |rest| > limit {
      RestIs(table, filter, position);
      var last := rest[limit - 1];
      assert last in rest;
      CursorRoundTripExactly(codec, last.date, last.id);
      assert codec.print_(last.date) + [BAR] + last.id != [];
      assert EncodeCursor(codec, last.date, last.id) != "";
    }
  }

  // The helper's calls for one filter and limit, seen as the three functions above.
  function Fetcher(filter: Item -> bool, limit: nat): Fetch
    requires limit >= 1
  {
    (table, position) => FetchAt(table, filter, position, limit)
  }

  function Answers(codec: DateCodec, filter: Item -> bool, limit: nat): Answer
    requires limit >= 1
  {
    (table, cursor) => PageFor(codec, table, filter, cursor, limit)
  }

  function Positions(codec: DateCodec): Decoder {
    cursor => Position(codec, cursor)
  }

  lemma HelperFetchesPages(codec: DateCodec, filter: Item -> bool, limit: nat)
    requires limit >= 1 && Lossless(codec)
    ensures FetchesPages(Fetcher(filter, limit), filter, limit)
    ensures Agrees(Answers(codec, filter, limit), Positions(codec), Fetcher(filter, limit))
  {
    forall table, position | GoodTable(table)
      ensures PageSpec(table, filter, position, limit, Fetcher(filter, limit)(table, position))
    {
      FetchAtIsAPage(table, filter, position, limit);
    }
    forall table, cursor | GoodTable(table) && Positions(codec)(cursor).Ok?
      ensures Answers(codec, filter, limit)(table, cursor).Ok?
      ensures SamePage(Positions(codec), Answers(codec, filter, limit)(table, cursor).value,
                       Fetcher(filter, limit)(table, Positions(codec)(cursor).value))
    {
      CursorLeadsOn(codec, table, filter, Position(codec, cursor).value, limit);
    }
  }

  ghost predicate IsHelperWalk(codec: DateCodec, tables: seq<Table>, filter: Item -> bool, limit: nat, pages: seq<Page>)
    requires limit >= 1
  {
    IsCursorWalk(Answers(codec, filter, limit), tables, pages)
  }

  // Rows may come and go between the pages: what is shown is in (date, id) descending order,
  // so no row is shown twice, and a matching row that was there throughout is shown.
  lemma FinishedWalkShowsSteadyRows(codec: DateCodec, tables: seq<Table>, filter: Item -> bool, limit: nat,
                                    pages: seq<Page>)
    requires limit >= 1 && Lossless(codec) && IsHelperWalk(codec, tables, filter, limit, pages) && IsFinished(pages)
    ensures Sorted(AllShown(pages))
    ensures forall x :: (forall i :: 0 <= i < |tables| ==> x in tables[i]) && filter(x) ==> x in AllShown(pages)
    ensures forall x :: x in AllShown(pages) ==> filter(x) && exists i :: 0 <= i < |tables| && x in tables[i]
  {
    HelperFetchesPages(codec, filter, limit);
    SteadyRowsShown(Answers(codec, filter, limit), Positions(codec), Fetcher(filter, limit), tables, filter, limit, pages);
  }

  lemma SteadyRowsShown(answer: Answer, decode: Decoder, fetch: Fetch, tables: seq<Table>, filter: Item -> bool, limit: nat,
                        pages: seq<Page>)
    requires FetchesPages(fetch, filter, limit) && Agrees(answer, decode, fetch)
    requires IsCursorWalk(answer, tables, pages) && IsFinished(pages)
    ensures Sorted(AllShown(pages))
    ensures forall x :: (forall i :: 0 <= i < |tables| ==> x in tables[i]) && filter(x) ==> x in AllShown(pages)
    ensures forall x :: x in AllShown(pages) ==> filter(x) && exists i :: 0 <= i < |tables| && x in tables[i]
  {
    var walk := CursorsAreFaithful(answer, decode, fetch, tables, pages);
    var n := |walk|;
    WalkSoFar(fetch, tables, filter, limit, walk, n);
    assert SamePage(decode, pages[n - 1], walk[n - 1]);
    forall x | (forall i :: 0 <= i < |tables| ==> x in tables[i]) && filter(x)
      ensures x in AllShown(pages)
    {
      SteadyRowSoFar(fetch, tables, filter, limit, walk, n, x);
    }
    forall x | x in AllShown(pages)
      ensures filter(x) && exists i :: 0 <= i < |tables| && x in tables[i]
    {
      ShownAreMatchingRows(fetch, tables, filter, limit, walk, n, x);
    }
  }

  lemma SortedShowsOnce(s: seq<Item>, i: nat, j: nat)
    requires Sorted(s) && i < |s| && j < |s| && s[i] == s[j]
    ensures i == j
  {
    PrecedesTotal(s[i], s[j]);
  }

  // ----- A table that does not change -----

  lemma {:induction false} SortedSameRows(s: seq<Item>, t: seq<Item>)
    requires Sorted(s) && Sorted(t) && forall x :: x in s <==> x in t
    ensures s == t
  {
    assert |s| > 0 ==> s[0] in t;
    assert |t| > 0 ==> t[0] in s;
    if |s| > 0 {
      var i :| 0 <= i < |t| && t[i] == s[0];
      var j :| 0 <= j < |s| && s[j] == t[0];
      PrecedesTotal(s[0], t[0]);
      assert s[0] == t[0];
      forall x
        ensures x in s[1..] <==> x in t[1..]
      {
        PrecedesTotal(s[0], s[0]);
        assert x in s <==> x == s[0] || x in s[1..];
        assert x in t <==> x == t[0] || x in t[1..];
        assert s[0] !in s[1..] && t[0] !in t[1..];
      }
      SortedSameRows(s[1..], t[1..]);
      assert s == [s[0]] + s[1..] && t == [t[0]] + t[1..];
    }
  }

  ghost function Still(table: Table, n: nat): seq<Table> {
    seq(n, _ => table)
  }

  // A finished walk shows the filtered listing, in pages of exactly the limit but the last.
  lemma StaticWalkIsTheListing(codec: DateCodec, table: Table, filter: Item -> bool, limit: nat, pages: seq<Page>)
    requires limit >= 1 && Lossless(codec) && IsHelperWalk(codec, Still(table, |pages|), filter, limit, pages)
    requires IsFinished(pages)
    ensures AllShown(pages) == Where(Listing(table), filter)
    ensures forall i :: 0 <= i < |pages| - 1 ==> |pages[i].data| == limit
    ensures |pages[|pages| - 1].data| <= limit
  {
    var tables := Still(table, |pages|);
    assert GoodTable(tables[0]);
    FinishedWalkShowsSteadyRows(codec, tables, filter, limit, pages);
    ListingSorts(table);
    WhereKeeps(Listing(table), filter);
    forall x
      ensures x in AllShown(pages) <==> x in Where(Listing(table), filter)
    {
      assert x in table ==> forall i :: 0 <= i < |tables| ==> x in tables[i];
    }
    SortedSameRows(AllShown(pages), Where(Listing(table), filter));
    HelperFetchesPages(codec, filter, limit);
    PageSizes(Answers(codec, filter, limit), Positions(codec), Fetcher(filter, limit), tables, filter, limit, pages);
  }

  lemma PageSizes(answer: Answer, decode: Decoder, fetch: Fetch, tables: seq<Table>, filter: Item -> bool, limit: nat,
                  pages: seq<Page>)
    requires FetchesPages(fetch, filter, limit) && Agrees(answer, decode, fetch) && IsCursorWalk(answer, tables, pages)
    ensures forall i :: 0 <= i < |pages| - 1 ==> |pages[i].data| == limit
    ensures |pages[|pages| - 1].data| <= limit
  {
    var walk := CursorsAreFaithful(answer, decode, fetch, tables, pages);
    forall i | 0 <= i < |pages|
      ensures i < |pages| - 1 ==> |pages[i].data| == limit
      ensures |pages[i].data| <= limit
    {
      assert SamePage(decode, pages[i], walk[i]);
      if i > 0 {
        assert Follows(fetch, tables, walk, i);
      }
      assert PageSpec(tables[i], filter, if i == 0 then None else walk[i - 1].next, limit, walk[i]);
      if i < |pages| - 1 {
        assert FollowsCursor(answer, tables, pages, i + 1);
      }
    }
  }

  // A walk that still has a cursor has shown that many full pages of the listing ...
  lemma WalkIsBounded(codec: DateCodec, table: Table, filter: Item -> bool, limit: nat, pages: seq<Page>)
    requires limit >= 1 && Lossless(codec) && IsHelperWalk(codec, Still(table, |pages|), filter, limit, pages)
    requires !IsFinished(pages)
    ensures |pages| * limit <= |Where(Listing(table), filter)|
  {
    var tables := Still(table, |pages|);
    assert GoodTable(tables[0]);
    HelperFetchesPages(codec, filter, limit);
    var fetch := Fetcher(filter, limit);
    FullPagesShown(Answers(codec, filter, limit), Positions(codec), fetch, tables, filter, limit, pages);
    ListingSorts(table);
    WhereKeeps(Listing(table), filter);
    SortedInjects(AllShown(pages), Where(Listing(table), filter));
  }

  lemma FullPagesShown(answer: Answer, decode: Decoder, fetch: Fetch, tables: seq<Table>, filter: Item -> bool, limit: nat,
                       pages: seq<Page>)
    requires FetchesPages(fetch, filter, limit) && Agrees(answer, decode, fetch)
    requires IsCursorWalk(answer, tables, pages) && !IsFinished(pages)
    ensures |AllShown(pages)| == |pages| * limit && Sorted(AllShown(pages))
    ensures forall x :: x in AllShown(pages) ==> filter(x) && exists i :: 0 <= i < |tables| && x in tables[i]
  {
    var walk := CursorsAreFaithful(answer, decode, fetch, tables, pages);
    assert SamePage(decode, pages[|pages| - 1], walk[|pages| - 1]);
    WalkSoFar(fetch, tables, filter, limit, walk, |walk|);
    FullPagesSoFar(fetch, tables, filter, limit, walk, |walk|);
    forall x | x in AllShown(pages)
      ensures filter(x) && exists i :: 0 <= i < |tables| && x in tables[i]
    {
      ShownAreMatchingRows(fetch, tables, filter, limit, walk, |walk|, x);
    }
  }

  // ... so following cursors comes to an end, whatever page it has reached.
  lemma {:induction false} StaticWalkEnds(codec: DateCodec, table: Table, filter: Item -> bool, limit: nat, pages: seq<Page>)
      returns (all: seq<Page>)
    requires limit >= 1 && Lossless(codec) && IsHelperWalk(codec, Still(table, |pages|), filter, limit, pages)
    ensures pages <= all && IsHelperWalk(codec, Still(table, |all|), filter, limit, all) && IsFinished(all)
    decreases |Where(Listing(table), filter)| - |pages|
  {
    if IsFinished(pages) {
      all := pages;
    } else {
      WalkIsBounded(codec, table, filter, limit, pages);
      MultiplyAtLeast(|pages|, limit);
      HelperFetchesPages(codec, filter, limit);
      var longer := WalkGrows(Answers(codec, filter, limit), Positions(codec), Fetcher(filter, limit), table, pages);
      all := StaticWalkEnds(codec, table, filter, limit, longer);
    }
  }

  lemma MultiplyAtLeast(n: nat, limit: nat)
    requires limit >= 1
    ensures n * limit >= n
  {
  }

  lemma WalkGrows(answer: Answer, decode: Decoder, fetch: Fetch, table: Table, pages: seq<Page>) returns (longer: seq<Page>)
    requires Agrees(answer, decode, fetch) && IsCursorWalk(answer, Still(table, |pages|), pages) && !IsFinished(pages)
    ensures |longer| == |pages| + 1 && pages <= longer && IsCursorWalk(answer, Still(table, |longer|), longer)
  {
    var n := |pages|;
    var tables := Still(table, n);
    assert GoodTable(tables[0]);
    var walk := CursorsAreFaithful(answer, decode, fetch, tables, pages);
    assert SamePage(decode, pages[n - 1], walk[n - 1]);
    longer := pages + [answer(table, pages[n - 1].nextCursor.value).value];
    forall i | 1 <= i < |longer|
      ensures FollowsCursor(answer, Still(table, |longer|), longer, i)
    {
      if i < n {
        assert FollowsCursor(answer, tables, pages, i);
      }
    }
  }

  lemma {:induction false} SortedInjects(s: seq<Item>, t: seq<Item>)
    requires Sorted(s) && forall x :: x in s ==> x in t
    ensures |s| <= |t|
  {
    if s != [] {
      var last := s[|s| - 1];
      assert last in s;
      var i :| 0 <= i < |t| && t[i] == last;
      var rest := t[..i] + t[i + 1..];
      assert t == t[..i] + [last] + t[i + 1..];
      forall x | x in s[..|s| - 1]
        ensures x in rest
      {
        PrecedesTotal(x, x);
        assert x in s && x != last;
      }
      SortedInjects(s[..|s| - 1], rest);
    }
  }
}
