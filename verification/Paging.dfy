/** Clients that follow the next cursor through the catalog until a page is empty. */
module Paging {
  import opened Text
  import opened Orders
  import opened Library
  import opened Catalog
  import opened Handlers
  import Base64
  import Cursor
  import Keyset
  import Pages

  /** The pages of a client that sends back each next cursor, when the k-th request meets the table
      `tables[k]`: `p` is what the store is asked for, `sort` what the cursor is made with. */
  function Follow(db: Engine, tables: seq<Table>, p: ListParams, keep: Book -> bool, sort: string): seq<seq<Book>> {
    if tables == [] then []
    else match ListPage(db, tables[0], p, keep)
      case Err => []
      case Ok(page) =>
        var next := p.(cursor := NextCursor(db, page, sort));
        [page] + if page == [] then [] else Follow(db, tables[1..], next, keep, sort)
  }

  /** The answers a client of a handler gets, that sends back each `next` until there is none; `answer`
      is the handler. */
  function Client(answer: (Table, Request) -> Result<Envelope>, tables: seq<Table>, q: Request): seq<Envelope> {
    if tables == [] then []
    else match answer(tables[0], q)
      case Err => []
      case Ok(e) => [e] + if e.next == [] then [] else Client(answer, tables[1..], q.(cursor := e.next))
  }

  /** The names of the libraries as they are when a request is answered. */
  type Names = Table -> map<int, Bytes>

  /** The k-th answer is the k-th page, shaped. */
  ghost predicate Shaped(db: Engine, names: Names, tables: seq<Table>, sort: string,
                         answers: seq<Envelope>, pages: seq<seq<Book>>) {
    && |answers| == |pages| <= |tables|
    && forall k :: 0 <= k < |pages| ==> answers[k] == EnvelopeOf(db, pages[k], names(tables[k]), sort)
  }

  lemma CursorNotEmpty(db: Engine, b: Book, sort: string)
    ensures Cursor.Encode(db, b, sort) != []
  {
    Base64.RoundTrip(Cursor.Raw(SortValueOf(db, b, sort), b.id));
  }

  /** A client of a handler sees the pages of the store one after the other, and stops at the first
      empty one, as if it had followed them itself. */
  lemma {:induction false} ClientFollows(db: Engine, tables: seq<Table>, names: Names, q: Request, p: ListParams,
                                         keep: Book -> bool, answer: (Table, Request) -> Result<Envelope>)
    requires forall t, c :: answer(t, q.(cursor := c)) == Answer(db, t, names(t), p.(cursor := c), keep, q.sort)
    requires p.cursor == q.cursor
    ensures Shaped(db, names, tables, q.sort, Client(answer, tables, q), Follow(db, tables, p, keep, q.sort))
    decreases tables
  {
    if tables != [] {
      var t := tables[0];
      assert answer(t, q.(cursor := q.cursor)) == Answer(db, t, names(t), p.(cursor := p.cursor), keep, q.sort);
      var page := ListPage(db, t, p, keep);
      if page.Ok? && page.value != [] {
        var next := NextCursor(db, page.value, q.sort);
        CursorNotEmpty(db, page.value[|page.value| - 1], q.sort);
        ClientFollows(db, tables[1..], names, q.(cursor := next), p.(cursor := next), keep, answer);
      }
    }
  }

  /** The handlers, as a client meets them. */
  function ListHandler(db: Engine, names: Names): (Table, Request) -> Result<Envelope> {
    (t: Table, q: Request) => ListAnswer(db, t, names(t), q)
  }

  function SearchHandler(db: Engine, names: Names, query: Bytes): (Table, Request) -> Result<Envelope> {
    (t: Table, q: Request) => SearchAnswer(db, t, names(t), query, q)
  }

  lemma ListClientFollows(db: Engine, tables: seq<Table>, names: Names, q: Request)
    ensures Shaped(db, names, tables, q.sort, Client(ListHandler(db, names), tables, q),
                   Follow(db, tables, ListRequest(q), Everything(), q.sort))
  {
    ClientFollows(db, tables, names, q, ListRequest(q), Everything(), ListHandler(db, names));
  }

  lemma SearchClientFollows(db: Engine, tables: seq<Table>, names: Names, query: Bytes, q: Request)
    requires query != []
    ensures Shaped(db, names, tables, q.sort, Client(SearchHandler(db, names, query), tables, q),
                   Follow(db, tables, SearchRequest(q), MatchesQuery(db, query), q.sort))
  {
    ClientFollows(db, tables, names, q, SearchRequest(q), MatchesQuery(db, query), SearchHandler(db, names, query));
  }

  /** What the store serves at a position. */
  function Server(db: Engine, col: Column, dir: Direction, limit: nat, library: int, keep: Book -> bool):
    (Table, Option<Key>) -> seq<Book>
  {
    (t: Table, position: Option<Key>) =>
      Keyset.Page(Listed(t, library, keep), KeyOf(col), KeyOrder(db, dir), position, limit)
  }

  function ServerFor(db: Engine, p: ListParams, keep: Book -> bool): (Table, Option<Key>) -> seq<Book> {
    Server(db, ResolveSort(p.sort).0, DirectionOf(p.order), PageLimit(p.limit), p.library, keep)
  }

  /** The whole list in page order. */
  function WholeList(db: Engine, t: Table, p: ListParams, keep: Book -> bool): seq<Book> {
    Sort(Listed(t, p.library, keep), Keyset.ByKey(KeyOf(ResolveSort(p.sort).0), KeyOrder(db, DirectionOf(p.order))))
  }

  lemma CursorIsPosition(db: Engine, b: Book, p: ListParams, sort: string)
    requires db.Valid() && SEPARATOR !in b.id
    requires ResolveSort(sort) == ResolveSort(p.sort)
    ensures Position(db, Cursor.Encode(db, b, sort), p.sort) == Ok(Some(KeyOf(ResolveSort(p.sort).0)(b)))
  {
    Cursor.RoundTrip(SortValueOf(db, b, sort), b.id);
    SortValueMatchesColumn(db, b, sort);
  }

  /** Through encoded cursors the client crawls by keys, never meeting an error. */
  lemma {:induction false} FollowIsCrawl(db: Engine, tables: seq<Table>, p: ListParams, keep: Book -> bool,
                                         sort: string, position: Option<Key>)
    requires db.Valid() && forall t :: t in tables ==> t.Valid()
    requires ResolveSort(sort) == ResolveSort(p.sort)
    requires Position(db, p.cursor, p.sort) == Ok(position)
    ensures Follow(db, tables, p, keep, sort) ==
      Keyset.Crawl(tables, ServerFor(db, p, keep), KeyOf(ResolveSort(p.sort).0), position)
    decreases tables
  {
    if tables != [] {
      var page := ListPage(db, tables[0], p, keep).value;
      assert page == ServerFor(db, p, keep)(tables[0], position);
      if page != [] {
        var last := page[|page| - 1];
        PageRowsAreListed(db, tables[0], p, keep, position, last);
        CursorIsPosition(db, last, p, sort);
        var next := p.(cursor := NextCursor(db, page, sort));
        FollowIsCrawl(db, tables[1..], next, keep, sort, Some(KeyOf(ResolveSort(p.sort).0)(last)));
      }
    }
  }

  lemma PageRowsAreListed(db: Engine, t: Table, p: ListParams, keep: Book -> bool, position: Option<Key>, b: Book)
    requires t.Valid() && b in ServerFor(db, p, keep)(t, position)
    ensures b in t.rows && SEPARATOR !in b.id
  {
    assert b in Listed(t, p.library, keep);
  }

  function HasId(id: Bytes): Book -> bool {
    (b: Book) => b.id == id
  }

  /** The book `id` is in the list of `t`, with sort value `v`. */
  ghost predicate Stays(t: Table, p: ListParams, keep: Book -> bool, id: Bytes, v: Value) {
    exists b :: b in t.rows && b.id == id && ListedBook(t, p.library, keep)(b) && Cell(b, ResolveSort(p.sort).0) == v
  }

  /** Books are added, deleted, renamed, libraries switched on and off between the requests: a book
      that stays in the list with an unchanged sort value is served exactly once by the time a page
      is empty, in either direction and for every limit, unless the client started past it. */
  lemma StableBookOnce(db: Engine, tables: seq<Table>, p: ListParams, keep: Book -> bool, sort: string,
                       position: Option<Key>, id: Bytes, v: Value)
    requires db.Valid() && forall t :: t in tables ==> t.Valid() && Stays(t, p, keep, id, v)
    requires ResolveSort(sort) == ResolveSort(p.sort)
    requires Position(db, p.cursor, p.sort) == Ok(position)
    requires Keyset.ReachedEnd(Follow(db, tables, p, keep, sort))
    ensures Keyset.Occurrences(Follow(db, tables, p, keep, sort), HasId(id)) ==
      if position.None? || KeyLess(db, DirectionOf(p.order), position.value, Key(v, id)) then 1 else 0
  {
    var key, lt := KeyOf(ResolveSort(p.sort).0), KeyOrder(db, DirectionOf(p.order));
    KeyOrderIsTotal(db, DirectionOf(p.order));
    FollowIsCrawl(db, tables, p, keep, sort, position);
    forall t, c | t in tables
      ensures Keyset.Serves(ServerFor(db, p, keep)(t, c), key, lt, c, HasId(id), Key(v, id))
    {
      var all := Listed(t, p.library, keep);
      ListedKeysDistinct(t, p.library, keep, ResolveSort(p.sort).0);
      assert Stays(t, p, keep, id, v);
      var b :| b in t.rows && b.id == id && ListedBook(t, p.library, keep)(b) && Cell(b, ResolveSort(p.sort).0) == v;
      assert b in all && key(b) == Key(v, id);
      Keyset.PageServes(all, key, lt, c, PageLimit(p.limit), HasId(id), Key(v, id));
    }
    Keyset.StableRowOnce(tables, ServerFor(db, p, keep), key, lt, position, HasId(id), Key(v, id));
  }

  function Rest(db: Engine, t: Table, p: ListParams, keep: Book -> bool): Option<Key> -> seq<Book> {
    var key, lt := KeyOf(ResolveSort(p.sort).0), KeyOrder(db, DirectionOf(p.order));
    (c: Option<Key>) => Keyset.Rest(Listed(t, p.library, keep), key, lt, c)
  }

  /** On an unchanging table, the pages from an absent cursor are the whole list in page order,
      neither more nor less, after exactly the requests it takes. */
  lemma PagesAreWholeList(db: Engine, tables: seq<Table>, t: Table, p: ListParams, keep: Book -> bool, sort: string)
    requires db.Valid() && t.Valid() && forall u :: u in tables ==> u == t
    requires ResolveSort(sort) == ResolveSort(p.sort)
    requires Cursor.Decode(p.cursor) == None
    requires |tables| > |Listed(t, p.library, keep)|
    ensures var pages := Follow(db, tables, p, keep, sort);
      && Keyset.ReachedEnd(pages)
      && Keyset.Concat(pages) == WholeList(db, t, p, keep)
      && |pages| == Keyset.Requests(|Listed(t, p.library, keep)|, PageLimit(p.limit))
  {
    var all, key, lt := Listed(t, p.library, keep), KeyOf(ResolveSort(p.sort).0), KeyOrder(db, DirectionOf(p.order));
    KeyOrderIsTotal(db, DirectionOf(p.order));
    ListedKeysDistinct(t, p.library, keep, ResolveSort(p.sort).0);
    FollowIsCrawl(db, tables, p, keep, sort, None);
    var rest := Rest(db, t, p, keep);
    forall c
      ensures Keyset.TailsFollow(rest, key, c)
    {
      forall i | 0 <= i < |rest(c)|
        ensures rest(Some(key(rest(c)[i]))) == rest(c)[i + 1..]
      {
        Keyset.RestAfterRow(all, key, lt, c, i);
      }
    }
    FilterAll(all, Keyset.Beyond(key, lt, None));
    Keyset.CrawlIsWhole(tables, ServerFor(db, p, keep), key, rest, None, PageLimit(p.limit));
    Keyset.CrawlLength(tables, ServerFor(db, p, keep), key, rest, None, PageLimit(p.limit));
  }

  /** And the whole list is the visible books that match, each once, in the order of the request. */
  lemma WholeListIsOrdered(db: Engine, t: Table, p: ListParams, keep: Book -> bool)
    requires db.Valid() && t.Valid()
    ensures var whole := WholeList(db, t, p, keep);
      && |whole| == |Listed(t, p.library, keep)|
      && (forall b :: b in whole <==> b in t.rows && Pages.Visible(t, p.library, b) && keep(b))
      && (forall i, j :: 0 <= i < j < |whole| ==> Pages.ComesBefore(db, p.sort, p.order, whole[i], whole[j]))
      && (forall i, j :: 0 <= i < j < |whole| ==> whole[i].id != whole[j].id)
  {
    var all, key, lt := Listed(t, p.library, keep), KeyOf(ResolveSort(p.sort).0), KeyOrder(db, DirectionOf(p.order));
    KeyOrderIsTotal(db, DirectionOf(p.order));
    ListedKeysDistinct(t, p.library, keep, ResolveSort(p.sort).0);
    Keyset.ByKeyIsStrict(key, lt);
    SortAscending(all, Keyset.ByKey(key, lt));
    var whole := WholeList(db, t, p, keep);
    forall i, j | 0 <= i < j < |whole|
      ensures Pages.ComesBefore(db, p.sort, p.order, whole[i], whole[j]) && whole[i].id != whole[j].id
    {
      assert Keyset.ByKey(key, lt)(whole[i], whole[j]);
      KeyOrderIs(db, p.sort, p.order, whole[i], whole[j]);
      assert whole[i] in all && whole[j] in all;
    }
  }
}
