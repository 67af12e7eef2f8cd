/** The catalog queries: WHERE clauses assembled step by step over a growing argument list, and
    what they are to return, stated without either. */
module Catalog {
  import opened Text
  import opened Orders
  import opened Library
  import opened Sql
  import Cursor
  import Pages
  import Keyset

  datatype ListParams = ListParams(cursor: Bytes, limit: int, sort: string, order: string, library: int)

  const PERCENT: Byte := 37

  // ------------------------------------------------------------------ what is to be returned

  function PageLimit(limit: int): (n: nat)
    ensures 1 <= n <= 200
  {
    if limit <= 0 || limit > 200 then 50 else limit
  }

  function DirectionOf(order: string): Direction {
    if order == "desc" then Desc else Asc
  }

  /** Where the client stands: nowhere yet if the cursor is absent, legacy or garbage; an error if
      its sort value is no timestamp although the column is. */
  function Position(db: Engine, cursor: Bytes, sort: string): Result<Option<Key>> {
    match Cursor.Decode(cursor)
    case None => Ok(None)
    case Some((text, id)) =>
      match ReadValue(db, text, ResolveSort(sort).1)
      case None => Err
      case Some(v) => Ok(Some(Key(v, id)))
  }

  predicate InLibrary(library: int, b: Book) {
    library > 0 ==> b.library == library
  }

  function ListedBook(t: Table, library: int, keep: Book -> bool): Book -> bool {
    b => t.Visible(b) && InLibrary(library, b) && keep(b)
  }

  /** The rows the whole list is made of. */
  function Listed(t: Table, library: int, keep: Book -> bool): seq<Book> {
    Filter(t.rows, ListedBook(t, library, keep))
  }

  function ListPage(db: Engine, t: Table, p: ListParams, keep: Book -> bool): Result<seq<Book>> {
    match Position(db, p.cursor, p.sort)
    case Err => Err
    case Ok(position) =>
      Ok(Keyset.Page(Listed(t, p.library, keep), KeyOf(ResolveSort(p.sort).0),
                     KeyOrder(db, DirectionOf(p.order)), position, PageLimit(p.limit)))
  }

  function Pattern(query: Bytes): Bytes {
    [PERCENT] + query + [PERCENT]
  }

  function Everything(): Book -> bool {
    (b: Book) => true
  }

  function MatchesQuery(db: Engine, query: Bytes): Book -> bool {
    (b: Book) => db.ilike(b.title, Pattern(query)) || db.ilike(b.author, Pattern(query))
  }

  // ------------------------------------------------------------------ how it is asked for

  class ArgList {
    var items: seq<Arg>

    constructor (initial: seq<Arg>)
      ensures items == initial
    {
      items := initial;
    }

    method Append(a: Arg) returns (n: nat)
      modifies this
      ensures items == old(items) + [a] && n == |items|
    {
      items := items + [a];
      n := |items|;
    }
  }

  /** The keyset clause and its two arguments, when `n` arguments come before them; neither when the
      cursor does not decode. */
  function KeysetPart(cursor: Bytes, col: Column, dir: Direction, isTime: bool, n: nat): (seq<Expr>, seq<Arg>) {
    match Cursor.Decode(cursor)
    case None => ([], [])
    case Some((text, id)) => ([KeysetExpr(col, dir, isTime, n + 1)], [TextArg(text), TextArg(id)])
  }

  /** The predicate for the rows after `cursor`, over two arguments of its own; None, with the
      arguments untouched, when the cursor does not decode. */
  method KeysetClause(cursor: Bytes, col: Column, dir: Direction, isTime: bool, args: ArgList)
    returns (clause: Option<Expr>)
    modifies args
    ensures args.items == old(args.items) + KeysetPart(cursor, col, dir, isTime, |old(args.items)|).1
    ensures KeysetPart(cursor, col, dir, isTime, |old(args.items)|).0 == if clause.Some? then [clause.value] else []
  {
    var decoded := Cursor.Decode(cursor);
    if decoded.None? {
      return None;
    }
    var (text, id) := decoded.value;
    var v := args.Append(TextArg(text));
    var i := args.Append(TextArg(id));
    var op := Above;
    if dir == Desc {
      op := Below;
    }
    clause := Some(Or(Compare(col, op, v, isTime), And(Compare(col, Same, v, isTime), IdAbove(i))));
  }

  /** The loop that joins the clauses with AND. */
  method Conjoin(clauses: seq<Expr>) returns (whole: Expr)
    requires clauses != []
    ensures whole == AndAll(clauses)
  {
    whole := clauses[0];
    for i := 0 to |clauses|
      invariant whole == if i == 0 then clauses[0] else AndAll(clauses[..i])
    {
      if i > 0 {
        whole := And(whole, clauses[i]);
      }
      assert clauses[..i + 1][..i] == clauses[..i];
    }
    assert clauses[..|clauses|] == clauses;
  }

  function LibraryPart(library: int, n: nat): (seq<Expr>, seq<Arg>) {
    if library > 0 then ([LibraryIs(n + 1)], [IntArg(library)]) else ([], [])
  }

  /** Base clauses, then the keyset clause, then the library clause; the arguments in the same
      order, the limit last. */
  function Assembled(first: seq<Expr>, args: seq<Arg>, p: ListParams): (seq<Expr>, seq<Arg>) {
    var (k, kargs) := KeysetPart(p.cursor, ResolveSort(p.sort).0, DirectionOf(p.order), ResolveSort(p.sort).1, |args|);
    var (l, largs) := LibraryPart(p.library, |args + kargs|);
    (first + k + l, args + kargs + largs + [IntArg(PageLimit(p.limit))])
  }

  /** The base clauses bind and accept exactly the visible rows to keep. */
  ghost predicate Selects(db: Engine, t: Table, first: seq<Expr>, args: seq<Arg>, keep: Book -> bool) {
    && AllBind(db, first, args)
    && forall b :: AllEval(db, t, first, args, b) <==> t.Visible(b) && keep(b)
  }

  lemma KeysetPartMeaning(db: Engine, t: Table, cursor: Bytes, sort: string, dir: Direction, before: seq<Arg>,
                          args: seq<Arg>, b: Book)
    requires before + KeysetPart(cursor, ResolveSort(sort).0, dir, ResolveSort(sort).1, |before|).1 <= args
    ensures var k := KeysetPart(cursor, ResolveSort(sort).0, dir, ResolveSort(sort).1, |before|).0;
      match Position(db, cursor, sort)
      case Err => !AllBind(db, k, args)
      case Ok(position) =>
        && AllBind(db, k, args)
        && (AllEval(db, t, k, args, b) <==> Keyset.Beyond(KeyOf(ResolveSort(sort).0), KeyOrder(db, dir), position)(b))
  {
    var (k, kargs) := KeysetPart(cursor, ResolveSort(sort).0, dir, ResolveSort(sort).1, |before|);
    match Cursor.Decode(cursor)
    case None =>
    case Some((text, id)) =>
      var whole := before + kargs;
      assert whole[|before|] == kargs[0] && whole[|before| + 1] == kargs[1];
      assert args[|before|] == kargs[0] && args[|before| + 1] == kargs[1];
      KeysetMeaning(db, t, ResolveSort(sort).0, dir, |before| + 1, args, text, id);
      assert k[0] == KeysetExpr(ResolveSort(sort).0, dir, IsTime(ResolveSort(sort).0), |before| + 1);
  }

  lemma LibraryPartMeaning(db: Engine, t: Table, library: int, before: seq<Arg>, args: seq<Arg>, b: Book)
    requires before + LibraryPart(library, |before|).1 <= args
    ensures AllBind(db, LibraryPart(library, |before|).0, args)
    ensures AllEval(db, t, LibraryPart(library, |before|).0, args, b) <==> InLibrary(library, b)
  {
    if library > 0 {
      assert (before + [IntArg(library)])[|before|] == IntArg(library);
      assert args[|before|] == IntArg(library);
      var l := LibraryPart(library, |before|).0;
      assert l == [LibraryIs(|before| + 1)] && Binds(db, l[0], args);
      assert AllEval(db, t, l, args, b) <==> Eval(db, t, l[0], args, b);
    }
  }

  /** Every clause keeps its own arguments, so the assembled tree binds exactly when the position is
      no error, and accepts exactly the listed rows past it. */
  lemma AssembledMeaning(db: Engine, t: Table, first: seq<Expr>, args: seq<Arg>, p: ListParams, keep: Book -> bool,
                         b: Book)
    requires first != []
    requires Selects(db, t, first, Assembled(first, args, p).1, keep)
    ensures var (clauses, all) := Assembled(first, args, p);
      match Position(db, p.cursor, p.sort)
      case Err => !Binds(db, AndAll(clauses), all)
      case Ok(position) =>
        && Binds(db, AndAll(clauses), all)
        && (Eval(db, t, AndAll(clauses), all, b) <==>
            ListedBook(t, p.library, keep)(b)
            && Keyset.Beyond(KeyOf(ResolveSort(p.sort).0), KeyOrder(db, DirectionOf(p.order)), position)(b))
  {
    var (clauses, all) := Assembled(first, args, p);
    var (k, kargs) := KeysetPart(p.cursor, ResolveSort(p.sort).0, DirectionOf(p.order), ResolveSort(p.sort).1, |args|);
    var (l, largs) := LibraryPart(p.library, |args + kargs|);
    KeysetPartMeaning(db, t, p.cursor, p.sort, DirectionOf(p.order), args, all, b);
    LibraryPartMeaning(db, t, p.library, args + kargs, all, b);
    AppendedClauses(db, t, first, k, all, b);
    AppendedClauses(db, t, first + k, l, all, b);
    AndAllBinds(db, clauses, all);
    AndAllEval(db, t, clauses, all, b);
  }

  /** The assembled statement is the page it is to return, or fails exactly when it should. */
  lemma SelectIsListPage(db: Engine, t: Table, first: seq<Expr>, args: seq<Arg>, p: ListParams, keep: Book -> bool)
    requires first != []
    requires Selects(db, t, first, Assembled(first, args, p).1, keep)
    ensures var (clauses, all) := Assembled(first, args, p);
      Select(db, t, AndAll(clauses), all, ResolveSort(p.sort).0, DirectionOf(p.order), |all|) ==
        ListPage(db, t, p, keep)
  {
    var (clauses, all) := Assembled(first, args, p);
    assert all[|all| - 1] == IntArg(PageLimit(p.limit));
    match Position(db, p.cursor, p.sort)
    case Err =>
      var any: Book := *;
      AssembledMeaning(db, t, first, args, p, keep, any);
    case Ok(position) =>
      var beyond := Keyset.Beyond(KeyOf(ResolveSort(p.sort).0), KeyOrder(db, DirectionOf(p.order)), position);
      forall b
        ensures Binds(db, AndAll(clauses), all)
        ensures Accepts(db, t, AndAll(clauses), all)(b) <==> ListedBook(t, p.library, keep)(b) && beyond(b)
      {
        AssembledMeaning(db, t, first, args, p, keep, b);
      }
      var any: Book := *;
      AssembledMeaning(db, t, first, args, p, keep, any);
      FilterTwice(t.rows, ListedBook(t, p.library, keep), beyond, Accepts(db, t, AndAll(clauses), all));
  }

  /** What the list and the search have in common: add the keyset and library clauses, join all
      clauses, run the statement. */
  method QueryPage(db: Engine, t: Table, p: ListParams, first: seq<Expr>, args: ArgList, ghost keep: Book -> bool)
    returns (r: Result<seq<Book>>)
    requires first != []
    requires Selects(db, t, first, Assembled(first, args.items, p).1, keep)
    modifies args
    ensures args.items == Assembled(first, old(args.items), p).1
    ensures r == ListPage(db, t, p, keep)
  {
    var limit := p.limit;
    if limit <= 0 || limit > 200 {
      limit := 50;
    }
    var (col, isTime) := ResolveSort(p.sort);
    var dir := Asc;
    if p.order == "desc" {
      dir := Desc;
    }
    var clauses := AppendClauses(p, col, dir, isTime, first, args);
    var whole := Conjoin(clauses);
    var n := args.Append(IntArg(limit));
    r := Select(db, t, whole, args.items, col, dir, n);
    SelectIsListPage(db, t, first, old(args.items), p, keep);
  }

  /** The keyset clause and the library clause, where they apply. */
  method AppendClauses(p: ListParams, col: Column, dir: Direction, isTime: bool, first: seq<Expr>, args: ArgList)
    returns (clauses: seq<Expr>)
    requires (col, isTime) == ResolveSort(p.sort) && dir == DirectionOf(p.order)
    modifies args
    ensures (clauses, args.items + [IntArg(PageLimit(p.limit))]) == Assembled(first, old(args.items), p)
  {
    clauses := first;
    var c := KeysetClause(p.cursor, col, dir, isTime, args);
    if c.Some? {
      clauses := clauses + [c.value];
    }
    if p.library > 0 {
      var n := args.Append(IntArg(p.library));
      clauses := clauses + [LibraryIs(n)];
    }
    assert clauses == Assembled(first, old(args.items), p).0;
    assert args.items + [IntArg(PageLimit(p.limit))] == Assembled(first, old(args.items), p).1;
  }

  // ------------------------------------------------------------------ what that is, in a request's words

  lemma KeyOrderIs(db: Engine, sort: string, order: string, a: Book, b: Book)
    ensures KeyOrder(db, DirectionOf(order))(KeyOf(ResolveSort(sort).0)(a), KeyOf(ResolveSort(sort).0)(b))
      <==> Pages.ComesBefore(db, sort, order, a, b)
  {
  }

  lemma PositionIs(db: Engine, cursor: Bytes, sort: string, after: Option<Book>)
    requires db.Valid() && Pages.StandsAt(db, cursor, sort, after)
    ensures Position(db, cursor, sort) ==
      Ok(if after.None? then None else Some(KeyOf(ResolveSort(sort).0)(after.value)))
  {
    if after.Some? {
      Cursor.RoundTrip(SortValueOf(db, after.value, sort), after.value.id);
      SortValueMatchesColumn(db, after.value, sort);
    }
  }

  lemma ListedKeysDistinct(t: Table, library: int, keep: Book -> bool, col: Column)
    requires t.Valid()
    ensures Keyset.KeysDistinct(Listed(t, library, keep), KeyOf(col))
    ensures forall a, b :: a in Listed(t, library, keep) && b in Listed(t, library, keep) && a.id == b.id ==> a == b
  {
    FilterKeepsIdsDistinct(t.rows, ListedBook(t, library, keep));
    var all := Listed(t, library, keep);
    forall a, b | a in all && b in all && a.id == b.id
      ensures a == b
    {
      var i :| 0 <= i < |all| && all[i] == a;
      var j :| 0 <= j < |all| && all[j] == b;
    }
  }

  lemma {:induction false} FilterKeepsIdsDistinct(rows: seq<Book>, p: Book -> bool)
    requires forall i, j :: 0 <= i < j < |rows| ==> rows[i].id != rows[j].id
    ensures forall i, j :: 0 <= i < j < |Filter(rows, p)| ==> Filter(rows, p)[i].id != Filter(rows, p)[j].id
  {
    if rows != [] {
      var rest := Filter(rows[1..], p);
      FilterKeepsIdsDistinct(rows[1..], p);
      forall j | 0 <= j < |rest|
        ensures rest[j].id != rows[0].id
      {
        assert rest[j] in rest;
        var k :| 0 <= k < |rows[1..]| && rows[1..][k] == rest[j];
        assert rows[k + 1] == rest[j];
      }
    }
  }

  lemma ListedIsAhead(db: Engine, t: Table, p: ListParams, keep: Book -> bool, matches: Book -> bool,
                      after: Option<Book>, b: Book)
    requires keep(b) <==> matches(b)
    ensures var key := KeyOf(ResolveSort(p.sort).0);
      var position := if after.None? then None else Some(key(after.value));
      b in Listed(t, p.library, keep) && Keyset.After(KeyOrder(db, DirectionOf(p.order)), position, key(b)) <==>
      Pages.IsAhead(db, t, p.sort, p.order, p.library, matches, after, b)
  {
    if after.Some? {
      KeyOrderIs(db, p.sort, p.order, after.value, b);
    }
  }

  lemma CutIsPage(db: Engine, t: Table, p: ListParams, keep: Book -> bool, matches: Book -> bool, after: Option<Book>,
                  page: seq<Book>)
    requires forall b :: keep(b) <==> matches(b)
    requires var key := KeyOf(ResolveSort(p.sort).0);
      var position := if after.None? then None else Some(key(after.value));
      Keyset.Cuts(Listed(t, p.library, keep), key, KeyOrder(db, DirectionOf(p.order)), position, PageLimit(p.limit),
                  page)
    ensures Pages.IsPage(db, t, p.sort, p.order, p.library, matches, after, Pages.StoreSize(p.limit), page)
  {
    forall i, j | 0 <= i < j < |page|
      ensures Pages.ComesBefore(db, p.sort, p.order, page[i], page[j])
    {
      KeyOrderIs(db, p.sort, p.order, page[i], page[j]);
    }
    var n := PageLimit(p.limit);
    forall b
      ensures b in page ==> Pages.IsAhead(db, t, p.sort, p.order, p.library, matches, after, b)
      ensures Pages.IsAhead(db, t, p.sort, p.order, p.library, matches, after, b) && b !in page ==>
        |page| == n && Pages.ComesBefore(db, p.sort, p.order, page[n - 1], b)
    {
      ListedIsAhead(db, t, p, keep, matches, after, b);
      if |page| == n {
        KeyOrderIs(db, p.sort, p.order, page[n - 1], b);
      }
    }
  }

  /** What the store is to return, for any cursor but one whose text is no timestamp, is the page that
      the request describes. */
  lemma ListPageIs(db: Engine, t: Table, p: ListParams, keep: Book -> bool, matches: Book -> bool, after: Option<Book>)
    requires db.Valid() && t.Valid() && forall b :: keep(b) <==> matches(b)
    requires Pages.StandsAt(db, p.cursor, p.sort, after)
    ensures ListPage(db, t, p, keep).Ok?
    ensures Pages.IsPage(db, t, p.sort, p.order, p.library, matches, after, Pages.StoreSize(p.limit),
                         ListPage(db, t, p, keep).value)
  {
    var key, lt := KeyOf(ResolveSort(p.sort).0), KeyOrder(db, DirectionOf(p.order));
    var position := if after.None? then None else Some(key(after.value));
    PositionIs(db, p.cursor, p.sort, after);
    KeyOrderIsTotal(db, DirectionOf(p.order));
    ListedKeysDistinct(t, p.library, keep, ResolveSort(p.sort).0);
    Keyset.PageCuts(Listed(t, p.library, keep), key, lt, position, PageLimit(p.limit));
    CutIsPage(db, t, p, keep, matches, after, ListPage(db, t, p, keep).value);
  }

  /** It is an error exactly if the cursor decodes to a text that is no timestamp and one is sorted by. */
  lemma ListPageFailsExactly(db: Engine, t: Table, p: ListParams, keep: Book -> bool)
    ensures ListPage(db, t, p, keep).Err? <==>
      && (p.sort == "added" || p.sort == "updated")
      && Cursor.Decode(p.cursor).Some? && db.parseTime(Cursor.Decode(p.cursor).value.0) == None
  {
  }

  /** The answer to a request that stands anywhere. */
  ghost predicate Answers(db: Engine, t: Table, p: ListParams, matches: Book -> bool, r: Result<seq<Book>>) {
    forall after :: db.Valid() && t.Valid() && Pages.StandsAt(db, p.cursor, p.sort, after) ==>
      r.Ok? && Pages.IsPage(db, t, p.sort, p.order, p.library, matches, after, Pages.StoreSize(p.limit), r.value)
  }

  lemma ListPageAnswers(db: Engine, t: Table, p: ListParams, keep: Book -> bool, matches: Book -> bool)
    requires forall b :: keep(b) <==> matches(b)
    ensures Answers(db, t, p, matches, ListPage(db, t, p, keep))
  {
    forall after | db.Valid() && t.Valid() && Pages.StandsAt(db, p.cursor, p.sort, after)
      ensures ListPage(db, t, p, keep).Ok?
      ensures Pages.IsPage(db, t, p.sort, p.order, p.library, matches, after, Pages.StoreSize(p.limit),
                           ListPage(db, t, p, keep).value)
    {
      ListPageIs(db, t, p, keep, matches, after);
    }
  }

  // ------------------------------------------------------------------ the two queries

  method ListActiveAudiobooks(db: Engine, t: Table, p: ListParams) returns (r: Result<seq<Book>>)
    ensures r == ListPage(db, t, p, Everything())
    ensures Answers(db, t, p, Pages.All(), r)
  {
    ListPageAnswers(db, t, p, Everything(), Pages.All());
    var args := new ArgList([]);
    var clauses := [NotDeleted, LibraryEnabled];
    ListClausesSelect(db, t, Assembled(clauses, [], p).1);
    r := QueryPage(db, t, p, clauses, args, Everything());
  }

  lemma ListClausesSelect(db: Engine, t: Table, args: seq<Arg>)
    ensures Selects(db, t, [NotDeleted, LibraryEnabled], args, Everything())
  {
    var first := [NotDeleted, LibraryEnabled];
    forall b
      ensures AllEval(db, t, first, args, b) <==> t.Visible(b)
    {
      assert AllEval(db, t, first, args, b) ==> Eval(db, t, first[0], args, b) && Eval(db, t, first[1], args, b);
    }
  }

  method SearchAudiobooks(db: Engine, t: Table, query: Bytes, p: ListParams) returns (r: Result<seq<Book>>)
    ensures r == ListPage(db, t, p, MatchesQuery(db, query))
    ensures Answers(db, t, p, Pages.Finds(db, query), r)
  {
    assert Pattern(query) == [37] + query + [37];
    ListPageAnswers(db, t, p, MatchesQuery(db, query), Pages.Finds(db, query));
    var pattern := [PERCENT] + query + [PERCENT];
    var args := new ArgList([TextArg(pattern)]);
    var clauses := [NotDeleted, LibraryEnabled, Or(Like(Title, 1), Like(Author, 1))];
    SearchClausesSelect(db, t, query, Assembled(clauses, [TextArg(pattern)], p).1);
    r := QueryPage(db, t, p, clauses, args, MatchesQuery(db, query));
  }

  lemma SearchClausesSelect(db: Engine, t: Table, query: Bytes, args: seq<Arg>)
    requires args != [] && args[0] == TextArg(Pattern(query))
    ensures Selects(db, t, [NotDeleted, LibraryEnabled, Or(Like(Title, 1), Like(Author, 1))], args,
                    MatchesQuery(db, query))
  {
    var like := Or(Like(Title, 1), Like(Author, 1));
    var first := [NotDeleted, LibraryEnabled, like];
    assert Binds(db, like.left, args) && Binds(db, like.right, args);
    forall b
      ensures AllEval(db, t, first, args, b) <==> t.Visible(b) && MatchesQuery(db, query)(b)
    {
      assert AllEval(db, t, first, args, b) ==>
        Eval(db, t, first[0], args, b) && Eval(db, t, first[1], args, b) && Eval(db, t, first[2], args, b);
      assert Eval(db, t, like, args, b) <==> Eval(db, t, like.left, args, b) || Eval(db, t, like.right, args, b);
    }
  }
}
