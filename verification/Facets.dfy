/** Browsing by author or genre: values with their book counts, paged by the value itself. */
module Facets {
  import opened Text
  import opened Orders
  import opened Library
  import opened Sql
  import opened Catalog
  import opened Handlers
  import Keyset
  import Pages

  datatype Facet = Facet(value: Bytes, count: nat)

  type TextColumn = col: Column | !IsTime(col) witness Genre

  function CellText(col: TextColumn, b: Book): Bytes {
    Cell(b, col).text
  }

  // ------------------------------------------------------------------ GROUP BY col, COUNT(*)

  function Add(v: Bytes, groups: seq<Facet>): seq<Facet> {
    if groups == [] then [Facet(v, 1)]
    else if groups[0].value == v then [Facet(v, groups[0].count + 1)] + groups[1..]
    else [groups[0]] + Add(v, groups[1..])
  }

  function Groups(rows: seq<Book>, col: TextColumn): seq<Facet> {
    if rows == [] then [] else Add(CellText(col, rows[0]), Groups(rows[1..], col))
  }

  function Total(groups: seq<Facet>): nat {
    if groups == [] then 0 else groups[0].count + Total(groups[1..])
  }

  function CountFor(groups: seq<Facet>, v: Bytes): nat {
    if groups == [] then 0 else (if groups[0].value == v then groups[0].count else 0) + CountFor(groups[1..], v)
  }

  function HasText(col: TextColumn, v: Bytes): Book -> bool {
    (b: Book) => CellText(col, b) == v
  }

  ghost predicate Tally(groups: seq<Facet>) {
    && (forall i, j :: 0 <= i < j < |groups| ==> groups[i].value != groups[j].value)
    && (forall i :: 0 <= i < |groups| ==> groups[i].count > 0)
  }

  predicate Lists(groups: seq<Facet>, v: Bytes) {
    exists i :: 0 <= i < |groups| && groups[i].value == v
  }

  lemma ListsCons(head: Facet, rest: seq<Facet>, w: Bytes)
    ensures Lists([head] + rest, w) <==> head.value == w || Lists(rest, w)
  {
    var all := [head] + rest;
    assert all[0] == head && forall i :: 0 <= i < |rest| ==> all[i + 1] == rest[i];
  }

  lemma {:induction false} AddLists(v: Bytes, groups: seq<Facet>, w: Bytes)
    ensures Lists(Add(v, groups), w) <==> w == v || Lists(groups, w)
  {
    if groups == [] {
      ListsCons(Facet(v, 1), [], w);
    } else {
      var head, rest := groups[0], groups[1..];
      assert groups == [head] + rest;
      ListsCons(head, rest, w);
      if head.value == v {
        ListsCons(Facet(v, head.count + 1), rest, w);
      } else {
        AddLists(v, rest, w);
        ListsCons(head, Add(v, rest), w);
      }
    }
  }

  lemma TallyCons(head: Facet, rest: seq<Facet>)
    ensures Tally([head] + rest) <==> head.count > 0 && !Lists(rest, head.value) && Tally(rest)
  {
    var all := [head] + rest;
    assert all[0] == head && forall i :: 0 <= i < |rest| ==> all[i + 1] == rest[i];
    if Tally(all) {
      forall i, j | 0 <= i < j < |rest|
        ensures rest[i].value != rest[j].value
      {
        assert all[i + 1].value != all[j + 1].value;
      }
    }
  }

  lemma {:induction false} AddTallies(v: Bytes, groups: seq<Facet>)
    requires Tally(groups)
    ensures Tally(Add(v, groups))
  {
    if groups != [] {
      var head, rest := groups[0], groups[1..];
      assert groups == [head] + rest;
      TallyCons(head, rest);
      if head.value == v {
        TallyCons(Facet(v, head.count + 1), rest);
      } else {
        AddTallies(v, rest);
        AddLists(v, rest, head.value);
        TallyCons(head, Add(v, rest));
      }
    }
  }

  lemma {:induction false} AddCounts(v: Bytes, groups: seq<Facet>)
    ensures Total(Add(v, groups)) == Total(groups) + 1
    ensures forall w :: CountFor(Add(v, groups), w) == CountFor(groups, w) + if w == v then 1 else 0
  {
    if groups != [] {
      AddCounts(v, groups[1..]);
      assert Add(v, groups)[1..] == if groups[0].value == v then groups[1..] else Add(v, groups[1..]);
    }
  }

  /** The groups are the values of the rows, each once, with the number of rows that have it. */
  lemma {:induction false} GroupsTally(rows: seq<Book>, col: TextColumn)
    ensures Tally(Groups(rows, col))
    ensures Total(Groups(rows, col)) == |rows|
    ensures forall v :: CountFor(Groups(rows, col), v) == |Filter(rows, HasText(col, v))|
  {
    if rows != [] {
      GroupsTally(rows[1..], col);
      AddTallies(CellText(col, rows[0]), Groups(rows[1..], col));
      AddCounts(CellText(col, rows[0]), Groups(rows[1..], col));
    }
  }

  lemma CountForMember(groups: seq<Facet>, f: Facet)
    requires Tally(groups) && f in groups
    ensures CountFor(groups, f.value) == f.count
  {
    if groups[0] == f {
      NoCount(groups[1..], f.value);
    } else {
      CountForMember(groups[1..], f);
    }
  }

  lemma NoCount(groups: seq<Facet>, v: Bytes)
    requires forall i :: 0 <= i < |groups| ==> groups[i].value != v
    ensures CountFor(groups, v) == 0
  {
  }

  lemma CountForPositive(groups: seq<Facet>, v: Bytes)
    requires CountFor(groups, v) > 0
    ensures exists f :: f in groups && f.value == v
  {
    if groups[0].value == v {
      assert groups[0] in groups;
    } else {
      CountForPositive(groups[1..], v);
    }
  }

  function ValueOf(): Facet -> Bytes {
    (f: Facet) => f.value
  }

  /** SELECT col, COUNT( * ) ... WHERE where GROUP BY col ORDER BY col LIMIT $limit. */
  function SelectGroups(db: Engine, t: Table, where_: Expr, args: seq<Arg>, col: TextColumn,
                        limit: nat): Result<seq<Facet>> {
    if !Binds(db, where_, args) || !BindsLimit(args, limit) then Err
    else
      var groups := Groups(Filter(t.rows, Accepts(db, t, where_, args)), col);
      Ok(Take(Sort(groups, Keyset.ByKey(ValueOf(), db.collate)), args[limit - 1].number))
  }

  // ------------------------------------------------------------------ what is to be returned

  function FacetLimit(limit: int): (n: nat)
    ensures 1 <= n <= 500
  {
    if limit <= 0 || limit > 500 then 100 else limit
  }

  function Faceted(t: Table, library: int, col: TextColumn): Book -> bool {
    (b: Book) => t.Visible(b) && InLibrary(library, b) && CellText(col, b) != []
  }

  /** The facets of the visible books: every non-empty value with its count. */
  function AllFacets(t: Table, library: int, col: TextColumn): seq<Facet> {
    Groups(Filter(t.rows, Faceted(t, library, col)), col)
  }

  function CursorValue(cursor: Bytes): Option<Bytes> {
    if cursor == [] then None else Some(cursor)
  }

  function FacetPage(db: Engine, t: Table, col: TextColumn, cursor: Option<Bytes>, limit: int,
                     library: int): seq<Facet> {
    Keyset.Page(AllFacets(t, library, col), ValueOf(), db.collate, cursor, FacetLimit(limit))
  }

  // ------------------------------------------------------------------ what that is, in a request's words

  function TextOf(col: TextColumn): Book -> Bytes {
    (b: Book) => if col == Author then b.author else if col == Genre then b.genre else b.title
  }

  function Has(t: Table, library: int, col: TextColumn, v: Bytes): Book -> bool {
    (b: Book) => Pages.Visible(t, library, b) && TextOf(col)(b) == v
  }

  /** The visible books with the value. */
  function Having(t: Table, library: int, col: TextColumn, v: Bytes): seq<Book> {
    Filter(t.rows, Has(t, library, col, v))
  }

  /** The values, none of them empty, that come after the cursor, in strict order and up to `size`, each
      with the number of visible books that have it; one that some book has is left out only of a full
      page that ends before it. */
  ghost predicate IsValuePage(db: Engine, t: Table, col: TextColumn, library: int, cursor: Bytes, size: nat,
                              page: seq<Facet>) {
    && (forall i, j :: 0 <= i < j < |page| ==> db.collate(page[i].value, page[j].value))
    && (forall f :: f in page ==>
          && f.value != [] && (cursor != [] ==> db.collate(cursor, f.value))
          && f.count == |Having(t, library, col, f.value)| > 0)
    && |page| <= size
    && forall v :: v != [] && (cursor != [] ==> db.collate(cursor, v)) && Having(t, library, col, v) != [] ==>
      ListsValue(db, page, size, v)
  }

  predicate ListsValue(db: Engine, page: seq<Facet>, size: nat, v: Bytes) {
    (exists f :: f in page && f.value == v) || (|page| == size > 0 && db.collate(page[size - 1].value, v))
  }

  lemma CellIsText(col: TextColumn, b: Book)
    ensures CellText(col, b) == TextOf(col)(b)
  {
    assert col == Author || col == Genre || col == Title;
  }

  lemma HavingIs(t: Table, library: int, col: TextColumn, v: Bytes)
    requires v != []
    ensures Having(t, library, col, v) == Filter(Filter(t.rows, Faceted(t, library, col)), HasText(col, v))
  {
    forall b
      ensures CellText(col, b) == TextOf(col)(b)
    {
      CellIsText(col, b);
    }
    FilterTwice(t.rows, Faceted(t, library, col), HasText(col, v), Has(t, library, col, v));
  }

  lemma FacetCounts(t: Table, library: int, col: TextColumn, f: Facet)
    requires f in AllFacets(t, library, col)
    ensures f.value != [] && f.count == |Having(t, library, col, f.value)| > 0
  {
    FacetValuesNotEmpty(t, library, col);
    GroupsTally(Filter(t.rows, Faceted(t, library, col)), col);
    CountForMember(AllFacets(t, library, col), f);
    HavingIs(t, library, col, f.value);
  }

  lemma FacetFor(t: Table, library: int, col: TextColumn, v: Bytes) returns (f: Facet)
    requires v != [] && Having(t, library, col, v) != []
    ensures f in AllFacets(t, library, col) && f.value == v
  {
    GroupsTally(Filter(t.rows, Faceted(t, library, col)), col);
    HavingIs(t, library, col, v);
    CountForPositive(AllFacets(t, library, col), v);
    f :| f in AllFacets(t, library, col) && f.value == v;
  }

  lemma FacetPageIs(db: Engine, t: Table, col: TextColumn, cursor: Bytes, limit: int, library: int)
    requires db.Valid()
    ensures IsValuePage(db, t, col, library, cursor, FacetLimit(limit),
                        FacetPage(db, t, col, CursorValue(cursor), limit, library))
  {
    var all := AllFacets(t, library, col);
    var page, n := FacetPage(db, t, col, CursorValue(cursor), limit, library), FacetLimit(limit);
    FacetValuesNotEmpty(t, library, col);
    Keyset.PageCuts(all, ValueOf(), db.collate, CursorValue(cursor), n);
    forall f | f in page
      ensures f.value != [] && (cursor != [] ==> db.collate(cursor, f.value))
      ensures f.count == |Having(t, library, col, f.value)| > 0
    {
      FacetCounts(t, library, col, f);
    }
    forall v | v != [] && (cursor != [] ==> db.collate(cursor, v)) && Having(t, library, col, v) != []
      ensures ListsValue(db, page, n, v)
    {
      var f := FacetFor(t, library, col, v);
      assert ValueOf()(f) == v;
    }
  }

  // ------------------------------------------------------------------ how it is asked for

  lemma AddCons(v: Bytes, head: Facet, rest: seq<Facet>)
    ensures Add(v, [head] + rest) ==
      if head.value == v then [Facet(v, head.count + 1)] + rest else [head] + Add(v, rest)
  {
    assert ([head] + rest)[1..] == rest;
  }

  /** Grouping commutes with keeping only some values. */
  lemma {:induction false} FilterAdd(v: Bytes, groups: seq<Facet>, q: Facet -> bool, on: Bytes -> bool)
    requires forall f: Facet :: q(f) == on(f.value)
    ensures Filter(Add(v, groups), q) == if on(v) then Add(v, Filter(groups, q)) else Filter(groups, q)
  {
    if groups == [] {
      FilterCons(Facet(v, 1), [], q);
    } else {
      var head, rest := groups[0], groups[1..];
      assert groups == [head] + rest;
      FilterCons(head, rest, q);
      AddCons(v, head, rest);
      AddCons(v, head, Filter(rest, q));
      if head.value == v {
        FilterCons(Facet(v, head.count + 1), rest, q);
      } else {
        FilterAdd(v, rest, q, on);
        FilterCons(head, Add(v, rest), q);
      }
    }
  }

  lemma FilterGroups(rows: seq<Book>, col: TextColumn, p: Book -> bool, q: Facet -> bool, on: Bytes -> bool)
    requires forall f: Facet :: q(f) == on(f.value)
    requires forall b: Book :: p(b) == on(CellText(col, b))
    ensures Groups(Filter(rows, p), col) == Filter(Groups(rows, col), q)
  {
    if rows != [] {
      var v, rest := CellText(col, rows[0]), rows[1..];
      FilterGroups(rest, col, p, q, on);
      FilterAdd(v, Groups(rest, col), q, on);
      if p(rows[0]) {
        assert ([rows[0]] + Filter(rest, p))[1..] == Filter(rest, p);
      } else {
        assert Filter(rows, p) == Filter(rest, p);
      }
    }
  }

  /** ListAuthorsWithCounts and ListGenresWithCounts, which differ in the column only. */
  method ListWithCounts(db: Engine, t: Table, col: TextColumn, cursor: Bytes, limit: int, library: int)
    returns (r: Result<seq<Facet>>)
    ensures r == Ok(FacetPage(db, t, col, CursorValue(cursor), limit, library))
    ensures db.Valid() ==>
      IsValuePage(db, t, col, library, cursor, if 1 <= limit <= 500 then limit else 100, r.value)
  {
    var lim := limit;
    if lim <= 0 || lim > 500 {
      lim := 100;
    }
    var args := new ArgList([]);
    var clauses := AppendFacetClauses(col, cursor, library, args);
    var whole := Conjoin(clauses);
    var n := args.Append(IntArg(lim));
    r := SelectGroups(db, t, whole, args.items, col, n);
    SelectGroupsIsPage(db, t, col, cursor, limit, library, args.items);
    if db.Valid() {
      FacetPageIs(db, t, col, cursor, limit, library);
    }
  }

  /** The cursor is an argument as it is, and the library the next one. */
  method AppendFacetClauses(col: TextColumn, cursor: Bytes, library: int, args: ArgList) returns (clauses: seq<Expr>)
    requires args.items == []
    modifies args
    ensures (clauses, args.items) == FacetClauses(col, cursor, library)
  {
    clauses := [NotDeleted, LibraryEnabled, NotEmpty(col)];
    if cursor != [] {
      var n := args.Append(TextArg(cursor));
      clauses := clauses + [Compare(col, Above, n, false)];
    }
    if library > 0 {
      var n := args.Append(IntArg(library));
      clauses := clauses + [LibraryIs(n)];
    }
    assert clauses == FacetClauses(col, cursor, library).0;
    assert args.items == FacetClauses(col, cursor, library).1;
  }

  function FacetClauses(col: TextColumn, cursor: Bytes, library: int): (seq<Expr>, seq<Arg>) {
    var c: seq<Arg> := if cursor == [] then [] else [TextArg(cursor)];
    var l := LibraryPart(library, |c|);
    var beyond := if cursor == [] then [] else [Compare(col, Above, 1, false)];
    ([NotDeleted, LibraryEnabled, NotEmpty(col)] + beyond + l.0, c + l.1)
  }

  function FacetBeyond(db: Engine, col: TextColumn, cursor: Option<Bytes>): Book -> bool {
    (b: Book) => Keyset.After(db.collate, cursor, CellText(col, b))
  }

  lemma FacetClausesMeaning(db: Engine, t: Table, col: TextColumn, cursor: Bytes, library: int, args: seq<Arg>, b: Book)
    requires FacetClauses(col, cursor, library).1 <= args
    ensures Binds(db, AndAll(FacetClauses(col, cursor, library).0), args)
    ensures Eval(db, t, AndAll(FacetClauses(col, cursor, library).0), args, b) <==>
      Faceted(t, library, col)(b) && FacetBeyond(db, col, CursorValue(cursor))(b)
  {
    var first: seq<Expr> := [NotDeleted, LibraryEnabled, NotEmpty(col)];
    var c: seq<Arg> := if cursor == [] then [] else [TextArg(cursor)];
    var k := if cursor == [] then [] else [Compare(col, Above, 1, false)];
    var l := LibraryPart(library, |c|).0;
    LibraryPartMeaning(db, t, library, c, args, b);
    AppendedClauses(db, t, first, k, args, b);
    AppendedClauses(db, t, first + k, l, args, b);
    AndAllBinds(db, first + k + l, args);
    AndAllEval(db, t, first + k + l, args, b);
    assert AllEval(db, t, first, args, b) <==>
      Eval(db, t, first[0], args, b) && Eval(db, t, first[1], args, b) && Eval(db, t, first[2], args, b);
    if cursor != [] {
      assert args[0] == (c + LibraryPart(library, |c|).1)[0] == TextArg(cursor);
      assert Operand(db, args, 1, false) == Some(TextValue(cursor));
      assert Binds(db, k[0], args);
      assert AllEval(db, t, k, args, b) <==> Eval(db, t, k[0], args, b);
      assert Cell(b, col) == TextValue(CellText(col, b));
    }
  }

  lemma SelectGroupsIsPage(db: Engine, t: Table, col: TextColumn, cursor: Bytes, limit: int, library: int,
                           args: seq<Arg>)
    requires args == FacetClauses(col, cursor, library).1 + [IntArg(FacetLimit(limit))]
    ensures SelectGroups(db, t, AndAll(FacetClauses(col, cursor, library).0), args, col, |args|)
      == Ok(FacetPage(db, t, col, CursorValue(cursor), limit, library))
  {
    var whole := AndAll(FacetClauses(col, cursor, library).0);
    var accepts, base := Accepts(db, t, whole, args), Faceted(t, library, col);
    var beyond := FacetBeyond(db, col, CursorValue(cursor));
    var any: Book := *;
    FacetClausesMeaning(db, t, col, cursor, library, args, any);
    forall b
      ensures accepts(b) <==> base(b) && beyond(b)
    {
      FacetClausesMeaning(db, t, col, cursor, library, args, b);
    }
    FilterTwice(t.rows, base, beyond, accepts);
    FilterGroups(Filter(t.rows, base), col, beyond, Keyset.Beyond(ValueOf(), db.collate, CursorValue(cursor)),
                 v => Keyset.After(db.collate, CursorValue(cursor), v));
    assert args[|args| - 1] == IntArg(FacetLimit(limit));
  }

  // ------------------------------------------------------------------ handlers and clients

  datatype FacetEnvelope = FacetEnvelope(items: seq<(Bytes, nat)>, next: Bytes)

  const DEFAULT_FACETS := 100

  function NextValue(page: seq<Facet>): Bytes {
    if page == [] then [] else page[|page| - 1].value
  }

  /** Without a limit 100 values are listed, with one 200 at most. */
  function RequestedValues(limit: Option<int>): nat {
    match limit
    case None => 100
    case Some(n) => if n < 1 then 100 else if n <= 200 then n else 200
  }

  ghost predicate ShowsValues(page: seq<Facet>, out: FacetEnvelope) {
    && |out.items| == |page| && (forall i :: 0 <= i < |page| ==> out.items[i] == (page[i].value, page[i].count))
    && out.next == if page == [] then [] else page[|page| - 1].value
  }

  /** handleBrowseAuthors and handleBrowseGenres. */
  method HandleBrowse(db: Engine, t: Table, col: TextColumn, q: Request) returns (out: FacetEnvelope)
    ensures var page := FacetPage(db, t, col, CursorValue(q.cursor), ParseLimit(q.limit, DEFAULT_FACETS), q.library);
      out == FacetEnvelope(seq(|page|, i requires 0 <= i < |page| => (page[i].value, page[i].count)), NextValue(page))
    ensures db.Valid() ==> exists page ::
      IsValuePage(db, t, col, q.library, q.cursor, RequestedValues(q.limit), page) && ShowsValues(page, out)
  {
    var rows := ListWithCounts(db, t, col, q.cursor, ParseLimit(q.limit, DEFAULT_FACETS), q.library);
    out := FacetEnvelope([], []);
    var page := rows.value;
    for i := 0 to |page|
      invariant |out.items| == i && out.next == []
      invariant forall k :: 0 <= k < i ==> out.items[k] == (page[k].value, page[k].count)
    {
      out := out.(items := out.items + [(page[i].value, page[i].count)]);
    }
    if |page| > 0 {
      out := out.(next := page[|page| - 1].value);
    }
    assert db.Valid() ==>
      IsValuePage(db, t, col, q.library, q.cursor, RequestedValues(q.limit), page) && ShowsValues(page, out);
  }

  /** The pages of a client that sends back each next value until a page is empty. */
  function Browse(db: Engine, tables: seq<Table>, col: TextColumn, cursor: Bytes, limit: int,
                  library: int): seq<seq<Facet>> {
    if tables == [] then []
    else
      var page := FacetPage(db, tables[0], col, CursorValue(cursor), limit, library);
      [page] + if page == [] then [] else Browse(db, tables[1..], col, NextValue(page), limit, library)
  }

  function FacetServer(db: Engine, col: TextColumn, limit: int, library: int): (Table, Option<Bytes>) -> seq<Facet> {
    (t: Table, cursor: Option<Bytes>) => FacetPage(db, t, col, cursor, limit, library)
  }

  lemma FacetValuesNotEmpty(t: Table, library: int, col: TextColumn)
    ensures forall f :: f in AllFacets(t, library, col) ==> f.value != []
    ensures Tally(AllFacets(t, library, col)) && Keyset.KeysDistinct(AllFacets(t, library, col), ValueOf())
  {
    var rows, groups := Filter(t.rows, Faceted(t, library, col)), AllFacets(t, library, col);
    GroupsTally(rows, col);
    forall f | f in groups
      ensures f.value != []
    {
      CountForMember(groups, f);
      var same := Filter(rows, HasText(col, f.value));
      assert |same| > 0;
      assert same[0] in same;
    }
  }

  lemma {:induction false} BrowseIsCrawl(db: Engine, tables: seq<Table>, col: TextColumn, cursor: Bytes, limit: int,
                                         library: int)
    ensures Browse(db, tables, col, cursor, limit, library) ==
      Keyset.Crawl(tables, FacetServer(db, col, limit, library), ValueOf(), CursorValue(cursor))
    decreases tables
  {
    if tables != [] {
      var page := FacetPage(db, tables[0], col, CursorValue(cursor), limit, library);
      if page != [] {
        assert page[|page| - 1] in AllFacets(tables[0], library, col);
        FacetValuesNotEmpty(tables[0], library, col);
        BrowseIsCrawl(db, tables[1..], col, NextValue(page), limit, library);
      }
    }
  }

  function FacetRest(db: Engine, t: Table, col: TextColumn, library: int): Option<Bytes> -> seq<Facet> {
    (c: Option<Bytes>) => Keyset.Rest(AllFacets(t, library, col), ValueOf(), db.collate, c)
  }

  /** On an unchanging table browsing lists every value of a visible book exactly once, in order,
      each with its exact count, and the counts add up to the visible books that have a value. */
  lemma BrowseCountsEveryBook(db: Engine, tables: seq<Table>, t: Table, col: TextColumn, limit: int, library: int)
    requires db.Valid() && forall u :: u in tables ==> u == t
    requires |tables| > |AllFacets(t, library, col)|
    ensures var pages := Browse(db, tables, col, [], limit, library);
      var facets, books := Keyset.Concat(pages), Filter(t.rows, Faceted(t, library, col));
      && Keyset.ReachedEnd(pages)
      && (forall i, j :: 0 <= i < j < |facets| ==> db.collate(facets[i].value, facets[j].value))
      && (forall f :: f in facets ==> f.count == |Filter(books, HasText(col, f.value))| > 0)
      && (forall b :: b in books ==> exists f :: f in facets && f.value == CellText(col, b))
      && Total(facets) == |books|
  {
    var all, books := AllFacets(t, library, col), Filter(t.rows, Faceted(t, library, col));
    var rest := FacetRest(db, t, col, library);
    FacetValuesNotEmpty(t, library, col);
    GroupsTally(books, col);
    BrowseIsCrawl(db, tables, col, [], limit, library);
    forall c
      ensures Keyset.TailsFollow(rest, ValueOf(), c)
    {
      forall i | 0 <= i < |rest(c)|
        ensures rest(Some(ValueOf()(rest(c)[i]))) == rest(c)[i + 1..]
      {
        Keyset.RestAfterRow(all, ValueOf(), db.collate, c, i);
      }
    }
    WholeRest(all, db.collate);
    Keyset.CrawlIsWhole(tables, FacetServer(db, col, limit, library), ValueOf(), rest, None, FacetLimit(limit));
    var facets := rest(None);
    forall f | f in facets
      ensures f.count == |Filter(books, HasText(col, f.value))| > 0
    {
      CountForMember(all, f);
    }
    forall b | b in books
      ensures exists f :: f in facets && f.value == CellText(col, b)
    {
      assert b in Filter(books, HasText(col, CellText(col, b)));
      CountForPositive(all, CellText(col, b));
    }
  }

  lemma WholeRest(all: seq<Facet>, lt: (Bytes, Bytes) -> bool)
    requires StrictTotal(lt) && Keyset.KeysDistinct(all, ValueOf())
    ensures var rest := Keyset.Rest(all, ValueOf(), lt, None);
      && |rest| == |all| && Total(rest) == Total(all)
      && (forall f :: f in rest <==> f in all)
      && (forall i, j :: 0 <= i < j < |rest| ==> lt(rest[i].value, rest[j].value))
  {
    FilterAll(all, Keyset.Beyond(ValueOf(), lt, None));
    Keyset.RestAscends(all, ValueOf(), lt, None);
    TotalOfSort(all, Keyset.ByKey(ValueOf(), lt));
    var rest := Keyset.Rest(all, ValueOf(), lt, None);
    forall i, j | 0 <= i < j < |rest|
      ensures lt(rest[i].value, rest[j].value)
    {
      assert Keyset.ByKey(ValueOf(), lt)(rest[i], rest[j]);
    }
  }

  lemma TotalOfInsert(f: Facet, s: seq<Facet>, lt: (Facet, Facet) -> bool)
    ensures Total(Insert(f, s, lt)) == f.count + Total(s)
  {
    if s != [] && !lt(f, s[0]) {
      TotalOfInsert(f, s[1..], lt);
      assert Insert(f, s, lt)[1..] == Insert(f, s[1..], lt);
    } else {
      assert Insert(f, s, lt)[1..] == s;
    }
  }

  lemma TotalOfSort(s: seq<Facet>, lt: (Facet, Facet) -> bool)
    ensures Total(Sort(s, lt)) == Total(s)
  {
    if s != [] {
      TotalOfSort(s[1..], lt);
      TotalOfInsert(s[0], Sort(s[1..], lt), lt);
    }
  }

  function HasValue(v: Bytes): Facet -> bool {
    (f: Facet) => f.value == v
  }

  /** Books come and go between the requests: a value that always has a visible book is listed
      exactly once by the time a page is empty. */
  lemma StableValueOnce(db: Engine, tables: seq<Table>, col: TextColumn, limit: int, library: int, v: Bytes)
    requires db.Valid() && v != []
    requires forall t: Table :: t in tables ==>
      exists b :: b in t.rows && Faceted(t, library, col)(b) && CellText(col, b) == v
    requires Keyset.ReachedEnd(Browse(db, tables, col, [], limit, library))
    ensures Keyset.Occurrences(Browse(db, tables, col, [], limit, library), HasValue(v)) == 1
  {
    BrowseIsCrawl(db, tables, col, [], limit, library);
    forall t: Table, c | t in tables
      ensures Keyset.Serves(FacetServer(db, col, limit, library)(t, c), ValueOf(), db.collate, c, HasValue(v), v)
    {
      var all := AllFacets(t, library, col);
      ValueIsListed(t, library, col, v);
      Keyset.PageServes(all, ValueOf(), db.collate, c, FacetLimit(limit), HasValue(v), v);
    }
    Keyset.StableRowOnce(tables, FacetServer(db, col, limit, library), ValueOf(), db.collate, None, HasValue(v), v);
  }

  lemma ValueIsListed(t: Table, library: int, col: TextColumn, v: Bytes)
    requires exists b :: b in t.rows && Faceted(t, library, col)(b) && CellText(col, b) == v
    ensures Keyset.KeysDistinct(AllFacets(t, library, col), ValueOf())
    ensures Keyset.Holds(AllFacets(t, library, col), ValueOf(), HasValue(v), v)
  {
    var rows, all := Filter(t.rows, Faceted(t, library, col)), AllFacets(t, library, col);
    var b :| b in t.rows && Faceted(t, library, col)(b) && CellText(col, b) == v;
    FacetValuesNotEmpty(t, library, col);
    GroupsTally(rows, col);
    assert b in Filter(rows, HasText(col, v));
    CountForPositive(all, v);
    var f :| f in all && f.value == v;
    assert ValueOf()(f) == v;
  }
}
