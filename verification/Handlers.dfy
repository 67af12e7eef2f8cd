/** The HTTP handlers of the catalog, less the HTTP: they shape a page and produce the next cursor. */
module Handlers {
  import opened Text
  import opened Library
  import opened Catalog
  import Cursor
  import Pages

  /** A request's query parameters; `limit` is the integer Atoi reads, if it reads one. */
  datatype Request = Request(cursor: Bytes, limit: Option<int>, sort: string, order: string, library: int)

  datatype Summary = Summary(id: Bytes, title: Bytes, author: Bytes, narrator: Bytes, year: Bytes, genre: Bytes,
                             durationMs: int, library: int, libraryName: Bytes, mediaType: string)

  datatype Envelope = Envelope(items: seq<Summary>, next: Bytes)

  const DEFAULT_LIMIT := 50
  const MAX_LIMIT := 200

  function ParseLimit(limit: Option<int>, default: int): int {
    match limit
    case None => default
    case Some(n) => if n <= 0 then default else if n > MAX_LIMIT then MAX_LIMIT else n
  }

  function ToSummary(b: Book, names: map<int, Bytes>): Summary {
    Summary(b.id, b.title, b.author, b.details.narrator, b.details.year, b.genre, b.details.durationMs,
            b.library, if b.library in names then names[b.library] else [], "audiobook")
  }

  /** The cursor of the last row; none after an empty page. */
  function NextCursor(db: Engine, books: seq<Book>, sort: string): Bytes {
    if books == [] then [] else Cursor.Encode(db, books[|books| - 1], sort)
  }

  function EnvelopeOf(db: Engine, books: seq<Book>, names: map<int, Bytes>, sort: string): Envelope {
    Envelope(seq(|books|, i requires 0 <= i < |books| => ToSummary(books[i], names)), NextCursor(db, books, sort))
  }

  function ListRequest(q: Request): ListParams {
    ListParams(q.cursor, ParseLimit(q.limit, DEFAULT_LIMIT), q.sort, q.order, q.library)
  }

  /** The search passes neither sort nor order on. */
  function SearchRequest(q: Request): ListParams {
    ListParams(q.cursor, ParseLimit(q.limit, DEFAULT_LIMIT), "", "", q.library)
  }

  /** A page of the store, shaped; `sort` is what the cursor is made with. */
  function Answer(db: Engine, t: Table, names: map<int, Bytes>, p: ListParams, keep: Book -> bool, sort: string):
    Result<Envelope>
  {
    match ListPage(db, t, p, keep)
    case Err => Err
    case Ok(books) => Ok(EnvelopeOf(db, books, names, sort))
  }

  function ListAnswer(db: Engine, t: Table, names: map<int, Bytes>, q: Request): Result<Envelope> {
    Answer(db, t, names, ListRequest(q), Everything(), q.sort)
  }

  function SearchAnswer(db: Engine, t: Table, names: map<int, Bytes>, query: Bytes, q: Request): Result<Envelope> {
    if query == [] then Ok(Envelope([], []))
    else Answer(db, t, names, SearchRequest(q), MatchesQuery(db, query), q.sort)
  }

  /** An item shows what its book says, with the name of its library if it is known. */
  predicate Shows(names: map<int, Bytes>, b: Book, item: Summary) {
    && item.id == b.id && item.title == b.title && item.author == b.author && item.genre == b.genre
    && item.narrator == b.details.narrator && item.year == b.details.year && item.durationMs == b.details.durationMs
    && item.library == b.library && item.mediaType == "audiobook"
    && (b.library in names ==> item.libraryName == names[b.library])
    && (b.library !in names ==> item.libraryName == [])
  }

  /** The items are the books of the page in order; the cursor is made from the last, if there is one. */
  ghost predicate ShowsPage(db: Engine, names: map<int, Bytes>, sort: string, page: seq<Book>, e: Envelope) {
    && |e.items| == |page| && (forall i :: 0 <= i < |page| ==> Shows(names, page[i], e.items[i]))
    && e.next == if page == [] then [] else Cursor.Encode(db, page[|page| - 1], sort)
  }

  /** A request that stands anywhere is answered by the page it describes. */
  ghost predicate ShowsAnswer(db: Engine, t: Table, names: map<int, Bytes>, cursorSort: string, sort: string,
                              order: string, q: Request, matches: Book -> bool, r: Result<Envelope>)
  {
    forall after :: db.Valid() && t.Valid() && Pages.StandsAt(db, q.cursor, sort, after) ==>
      && r.Ok?
      && exists page ::
        && ShowsPage(db, names, cursorSort, page, r.value)
        && Pages.IsPage(db, t, sort, order, q.library, matches, after, Pages.RequestSize(q.limit), page)
  }

  lemma EnvelopeShows(db: Engine, page: seq<Book>, names: map<int, Bytes>, sort: string)
    ensures ShowsPage(db, names, sort, page, EnvelopeOf(db, page, names, sort))
  {
  }

  lemma AnswerShows(db: Engine, t: Table, names: map<int, Bytes>, p: ListParams, keep: Book -> bool,
                    matches: Book -> bool, q: Request, cursorSort: string)
    requires p.cursor == q.cursor && p.library == q.library && p.limit == ParseLimit(q.limit, DEFAULT_LIMIT)
    requires forall b :: keep(b) <==> matches(b)
    ensures ShowsAnswer(db, t, names, cursorSort, p.sort, p.order, q, matches,
                        Answer(db, t, names, p, keep, cursorSort))
  {
    ListPageAnswers(db, t, p, keep, matches);
    assert Pages.StoreSize(p.limit) == Pages.RequestSize(q.limit);
    var r := ListPage(db, t, p, keep);
    if r.Ok? {
      EnvelopeShows(db, r.value, names, cursorSort);
    }
  }

  /** A search has the default order, by title and ascending, whatever the request says. */
  lemma SearchAnswerShows(db: Engine, t: Table, names: map<int, Bytes>, query: Bytes, q: Request)
    ensures query != [] ==>
      ShowsAnswer(db, t, names, q.sort, "", "", q, Pages.Finds(db, query), SearchAnswer(db, t, names, query, q))
  {
    assert Pattern(query) == [37] + query + [37];
    AnswerShows(db, t, names, SearchRequest(q), MatchesQuery(db, query), Pages.Finds(db, query), q, q.sort);
  }

  method HandleListCatalog(db: Engine, t: Table, names: map<int, Bytes>, q: Request) returns (r: Result<Envelope>)
    ensures r == ListAnswer(db, t, names, q)
    ensures ShowsAnswer(db, t, names, q.sort, q.sort, q.order, q, Pages.All(), r)
  {
    AnswerShows(db, t, names, ListRequest(q), Everything(), Pages.All(), q, q.sort);
    var limit := ParseLimit(q.limit, DEFAULT_LIMIT);
    var page := ListActiveAudiobooks(db, t, ListParams(q.cursor, limit, q.sort, q.order, q.library));
    if page.Err? {
      return Err;
    }
    var out := Shape(db, page.value, names, q.sort);
    r := Ok(out);
  }

  method HandleSearchCatalog(db: Engine, t: Table, names: map<int, Bytes>, query: Bytes, q: Request)
    returns (r: Result<Envelope>)
    ensures r == SearchAnswer(db, t, names, query, q)
    ensures query == [] ==> r == Ok(Envelope([], []))
    ensures query != [] ==> ShowsAnswer(db, t, names, q.sort, "", "", q, Pages.Finds(db, query), r)
  {
    SearchAnswerShows(db, t, names, query, q);
    if query == [] {
      return Ok(Envelope([], []));
    }
    var limit := ParseLimit(q.limit, DEFAULT_LIMIT);
    var page := SearchAudiobooks(db, t, query, ListParams(q.cursor, limit, "", "", q.library));
    if page.Err? {
      return Err;
    }
    var out := Shape(db, page.value, names, q.sort);
    r := Ok(out);
  }

  /** The loop over a page's books, and the cursor set after it. */
  method Shape(db: Engine, books: seq<Book>, names: map<int, Bytes>, sort: string) returns (out: Envelope)
    ensures out == EnvelopeOf(db, books, names, sort)
  {
    out := Envelope([], []);
    for i := 0 to |books|
      invariant |out.items| == i && out.next == []
      invariant forall k :: 0 <= k < i ==> out.items[k] == ToSummary(books[k], names)
    {
      out := out.(items := out.items + [ToSummary(books[i], names)]);
    }
    if |books| > 0 {
      out := out.(next := Cursor.Encode(db, books[|books| - 1], sort));
    }
  }
}
