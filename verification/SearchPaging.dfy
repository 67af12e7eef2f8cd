/** Following a search: the store orders by title whatever the request's sort, but the next cursor
    is made with the request's sort. */
module SearchPaging {
  import opened Text
  import opened Orders
  import opened Library
  import opened Catalog
  import opened Paging
  import Cursor
  import Keyset

  function Repeat(t: Table, n: nat): seq<Table> {
    seq(n, i => t)
  }

  /** A fresh search with any limit in any one library or all. */
  function Fresh(limit: int, library: int): ListParams {
    ListParams([], limit, "", "", library)
  }

  /** Following a search for anything over an unchanging table lists every match. */
  ghost predicate SearchIsComplete(db: Engine, sort: string) {
    forall query: Bytes, t: Table, n, limit, library ::
      query != [] && t.Valid() && n > |t.rows| ==> FindsAll(db, query, t, n, limit, library, sort)
  }

  predicate FindsAll(db: Engine, query: Bytes, t: Table, n: nat, limit: int, library: int, sort: string) {
    var pages := Follow(db, Repeat(t, n), Fresh(limit, library), MatchesQuery(db, query), sort);
    && Keyset.ReachedEnd(pages)
    && Keyset.Concat(pages) == WholeList(db, t, Fresh(limit, library), MatchesQuery(db, query))
  }

  predicate Found(db: Engine, text: Bytes, query: Bytes) {
    query != [] && db.ilike(text, Pattern(query))
  }

  /** ILIKE is not so odd that no query finds the text of a timestamp. */
  ghost predicate TimesAreFound(db: Engine) {
    forall time :: exists query :: Found(db, db.formatTime(time), query)
  }

  /** A search can be paged through exactly when the request's sort resolves to the title. */
  lemma SearchCompleteExactly(db: Engine, sort: string)
    requires db.Valid() && TimesAreFound(db)
    ensures SearchIsComplete(db, sort) <==> ResolveSort(sort).0 == Title
  {
    if ResolveSort(sort).0 == Title {
      forall query: Bytes, t: Table, n, limit, library | query != [] && t.Valid() && n > |t.rows|
        ensures FindsAll(db, query, t, n, limit, library, sort)
      {
        TitleSearchFindsAll(db, query, t, n, limit, library, sort);
      }
    } else {
      var query :| Found(db, db.formatTime(LaterTime(db)), query);
      OtherSortSkips(db, query, sort);
      assert !FindsAll(db, query, Skipping(db), 3, 1, 0, sort);
    }
  }

  lemma TitleSearchFindsAll(db: Engine, query: Bytes, t: Table, n: nat, limit: int, library: int, sort: string)
    requires db.Valid() && t.Valid() && n > |t.rows| && ResolveSort(sort).0 == Title
    ensures FindsAll(db, query, t, n, limit, library, sort)
  {
    PagesAreWholeList(db, Repeat(t, n), t, Fresh(limit, library), MatchesQuery(db, query), sort);
  }

  /** Which of the times 0 and 1 has the later text. */
  function LaterTime(db: Engine): int {
    if db.collate(db.formatTime(0), db.formatTime(1)) then 1 else 0
  }

  /** Two books: the first by title carries, as author and as creation and update time, the very
      title of the second, whose id comes earlier. */
  function Skipping(db: Engine): Table {
    var time := LaterTime(db);
    var low, high := db.formatTime(1 - time), db.formatTime(time);
    var early: Bytes := if db.collate([1], [2]) then [1] else [2];
    var late: Bytes := if db.collate([1], [2]) then [2] else [1];
    var details := Details([], [], 0);
    Table([Book(late, 1, low, high, [], time, time, false, details),
           Book(early, 1, high, high, [], time, time, false, details)], {1})
  }

  lemma TwoRows(db: Engine)
    requires db.Valid()
    ensures var t := Skipping(db);
      var a, b := t.rows[0], t.rows[1];
      && t.Valid() && db.collate(a.title, b.title) && db.collate(b.id, a.id)
      && a.author == b.title && db.formatTime(a.createdAt) == b.title && db.formatTime(a.updatedAt) == b.title
  {
    assert db.parseTime(db.formatTime(0)) == Some(0) && db.parseTime(db.formatTime(1)) == Some(1);
  }

  /** The first page is the first book; its cursor then stands past the second. */
  lemma SkippedPages(e: Engine, a: Book, b: Book)
    requires e.Valid() && e.collate(a.title, b.title) && e.collate(b.id, a.id)
    ensures Keyset.Page([a, b], KeyOf(Title), KeyOrder(e, Asc), None, 1) == [a]
    ensures Keyset.Page([a, b], KeyOf(Title), KeyOrder(e, Asc), Some(Key(TextValue(b.title), a.id)), 1) == []
  {
    var key, lt, all := KeyOf(Title), KeyOrder(e, Asc), [a, b];
    KeyOrderIsTotal(e, Asc);
    assert !e.collate(b.title, a.title) && !e.collate(a.id, b.id);
    Keyset.RestAscends(all, key, lt, None);
    var rest := Keyset.Rest(all, key, lt, None);
    assert a in all && a in rest;
    HeadLeast(rest, a, Keyset.ByKey(key, lt));
    assert rest[0] in rest;
    var beyond := Keyset.Beyond(key, lt, Some(Key(TextValue(b.title), a.id)));
    assert !beyond(a) && !beyond(b);
    assert Filter([b], beyond) == [];
    assert [a, b][1..] == [b];
    assert Filter(all, beyond) == [];
  }

  /** Any other sort: a query that finds two visible books, in pages of one, shows the first only. */
  lemma OtherSortSkips(db: Engine, query: Bytes, sort: string)
    requires db.Valid() && Found(db, db.formatTime(LaterTime(db)), query) && ResolveSort(sort).0 != Title
    ensures Skipping(db).Valid()
    ensures var pages := Follow(db, Repeat(Skipping(db), 3), Fresh(1, 0), MatchesQuery(db, query), sort);
      Keyset.ReachedEnd(pages) && Keyset.Concat(pages) == [Skipping(db).rows[0]]
    ensures |WholeList(db, Skipping(db), Fresh(1, 0), MatchesQuery(db, query))| == 2
    ensures !FindsAll(db, query, Skipping(db), 3, 1, 0, sort)
  {
    var t, p, keep := Skipping(db), Fresh(1, 0), MatchesQuery(db, query);
    var a, b := t.rows[0], t.rows[1];
    TwoRows(db);
    FilterAll(t.rows, ListedBook(t, 0, keep));
    assert Listed(t, 0, keep) == [a, b];
    WholeListIsOrdered(db, t, p, keep);
    SkippedListPages(db, t, a, b, query, sort);
    OnePage(db, t, p, keep, sort, a);
  }

  lemma TitlePage(e: Engine, t: Table, cursor: Bytes, keep: Book -> bool, position: Option<Key>, page: seq<Book>)
    requires Position(e, cursor, "") == Ok(position)
    requires Keyset.Page(Listed(t, 0, keep), KeyOf(Title), KeyOrder(e, Asc), position, 1) == page
    ensures ListPage(e, t, Fresh(1, 0).(cursor := cursor), keep) == Ok(page)
  {
  }

  lemma SkippedListPages(e: Engine, t: Table, a: Book, b: Book, query: Bytes, sort: string)
    requires e.Valid() && e.collate(a.title, b.title) && e.collate(b.id, a.id) && SEPARATOR !in a.id
    requires SortValueOf(e, a, sort) == b.title && Listed(t, 0, MatchesQuery(e, query)) == [a, b]
    ensures ListPage(e, t, Fresh(1, 0), MatchesQuery(e, query)) == Ok([a])
    ensures ListPage(e, t, Fresh(1, 0).(cursor := Cursor.Encode(e, a, sort)), MatchesQuery(e, query)) == Ok([])
  {
    SkippedPages(e, a, b);
    Cursor.LegacyIdRejected([]);
    TitlePage(e, t, [], MatchesQuery(e, query), None, [a]);
    TitlePosition(e, a, sort);
    TitlePage(e, t, Cursor.Encode(e, a, sort), MatchesQuery(e, query), Some(Key(TextValue(b.title), a.id)), []);
  }

  /** The search reads whatever text the cursor carries as a title. */
  lemma TitlePosition(e: Engine, a: Book, sort: string)
    requires SEPARATOR !in a.id
    ensures Position(e, Cursor.Encode(e, a, sort), "") == Ok(Some(Key(TextValue(SortValueOf(e, a, sort)), a.id)))
  {
    Cursor.RoundTrip(SortValueOf(e, a, sort), a.id);
  }

  lemma OnePage(e: Engine, t: Table, p: ListParams, keep: Book -> bool, sort: string, a: Book)
    requires ListPage(e, t, p, keep) == Ok([a])
    requires ListPage(e, t, p.(cursor := Cursor.Encode(e, a, sort)), keep) == Ok([])
    ensures Keyset.ReachedEnd(Follow(e, Repeat(t, 3), p, keep, sort))
    ensures Keyset.Concat(Follow(e, Repeat(t, 3), p, keep, sort)) == [a]
  {
    var tables, next := Repeat(t, 3), p.(cursor := Cursor.Encode(e, a, sort));
    assert tables[0] == t && tables[1..][0] == t;
    assert Follow(e, tables[1..], next, keep, sort) == [[]];
    assert Follow(e, tables, p, keep, sort) == [[a]] + [[]];
    Keyset.ConcatCons([a], [[]]);
    Keyset.ConcatCons<Book>([], []);
  }
}
