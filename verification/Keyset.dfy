/** Keyset paging over any rows with a key: a page is the first `n` rows, in key order, whose
    key comes strictly after the last key the client saw.  Nothing here is about SQL. */
module Keyset {
  import opened Text
  import opened Orders

  predicate After<K>(lt: (K, K) -> bool, cursor: Option<K>, k: K) {
    cursor.Some? ==> lt(cursor.value, k)
  }

  function ByKey<R, K>(key: R -> K, lt: (K, K) -> bool): (R, R) -> bool {
    (a, b) => lt(key(a), key(b))
  }

  function Beyond<R, K>(key: R -> K, lt: (K, K) -> bool, cursor: Option<K>): R -> bool {
    r => After(lt, cursor, key(r))
  }

  /** Everything a client at `cursor` has yet to see, in page order. */
  function Rest<R(!new), K>(all: seq<R>, key: R -> K, lt: (K, K) -> bool, cursor: Option<K>): seq<R> {
    Sort(Filter(all, Beyond(key, lt, cursor)), ByKey(key, lt))
  }

  function Page<R(!new), K>(all: seq<R>, key: R -> K, lt: (K, K) -> bool, cursor: Option<K>, n: nat): seq<R> {
    Take(Rest(all, key, lt, cursor), n)
  }

  function LastKey<R, K>(page: seq<R>, key: R -> K): K
    requires page != []
  {
    key(page[|page| - 1])
  }

  /** The pages a client gets that follows the cursor until a page is empty: `serve(t, c)` is the
      answer to cursor `c` when the table is `t`, and the k-th request meets `tables[k]`. */
  function Crawl<T, R, K>(tables: seq<T>, serve: (T, Option<K>) -> seq<R>, key: R -> K,
                          cursor: Option<K>): seq<seq<R>> {
    if tables == [] then []
    else
      var page := serve(tables[0], cursor);
      [page] + if page == [] then [] else Crawl(tables[1..], serve, key, Some(LastKey(page, key)))
  }

  predicate ReachedEnd<R>(pages: seq<seq<R>>) {
    pages != [] && |pages[|pages| - 1]| == 0
  }

  function Concat<R>(pages: seq<seq<R>>): seq<R> {
    if pages == [] then [] else pages[0] + Concat(pages[1..])
  }

  function Occurrences<R(!new)>(pages: seq<seq<R>>, p: R -> bool): nat {
    if pages == [] then 0 else |Filter(pages[0], p)| + Occurrences(pages[1..], p)
  }

  ghost predicate KeysDistinct<R, K>(all: seq<R>, key: R -> K) {
    forall i, j :: 0 <= i < j < |all| ==> key(all[i]) != key(all[j])
  }

  lemma ByKeyIsStrict<R(!new), K(!new)>(key: R -> K, lt: (K, K) -> bool)
    requires StrictTotal(lt)
    ensures StrictOrder(ByKey(key, lt))
  {
  }

  lemma RestAscends<R(!new), K(!new)>(all: seq<R>, key: R -> K, lt: (K, K) -> bool, cursor: Option<K>)
    requires StrictTotal(lt) && KeysDistinct(all, key)
    ensures Ascending(Rest(all, key, lt, cursor), ByKey(key, lt))
    ensures forall r :: r in Rest(all, key, lt, cursor) <==> r in all && After(lt, cursor, key(r))
  {
    var less := ByKey(key, lt);
    ByKeyIsStrict(key, lt);
    assert Comparable(all, less);
    FilterComparable(all, Beyond(key, lt, cursor), less);
    SortAscending(Filter(all, Beyond(key, lt, cursor)), less);
  }

  // ------------------------------------------------------------------ changing tables

  /** The key `k` belongs to exactly one row of `all`, the one that satisfies `p`. */
  ghost predicate Holds<R(!new), K>(all: seq<R>, key: R -> K, p: R -> bool, k: K) {
    && (exists r :: r in all && key(r) == k)
    && (forall r :: r in all ==> (p(r) <==> key(r) == k))
  }

  /** What a page must do for key `k`: hold its row once if the key lies between the cursor and
      the page's last key, never otherwise, and not be empty while the key is ahead. */
  ghost predicate Serves<R(!new), K>(page: seq<R>, key: R -> K, lt: (K, K) -> bool, cursor: Option<K>,
                                     p: R -> bool, k: K) {
    && (After(lt, cursor, k) ==> page != [])
    && (page != [] && lt(LastKey(page, key), k) ==> After(lt, cursor, k))
    && |Filter(page, p)| == if After(lt, cursor, k) && !lt(LastKey(page, key), k) then 1 else 0
  }

  lemma AscendingFilterOne<R(!new), K(!new)>(s: seq<R>, key: R -> K, lt: (K, K) -> bool, p: R -> bool, k: K)
    requires StrictTotal(lt) && Ascending(s, ByKey(key, lt))
    requires forall r :: r in s ==> (p(r) <==> key(r) == k)
    ensures |Filter(s, p)| == if exists r :: r in s && key(r) == k then 1 else 0
  {
    if s != [] {
      var rest := s[1..];
      AscendingFilterOne(rest, key, lt, p, k);
      forall i | 0 <= i < |rest|
        ensures lt(key(s[0]), key(rest[i]))
      {
        assert rest[i] == s[i + 1];
        assert ByKey(key, lt)(s[0], s[i + 1]);
      }
      assert s[0] in s;
      if key(s[0]) == k {
        assert forall r :: r in rest ==> key(r) != k;
      } else {
        assert forall r :: r in s && key(r) == k ==> r in rest;
      }
    }
  }

  lemma PageFacts<R(!new), K(!new)>(all: seq<R>, key: R -> K, lt: (K, K) -> bool, cursor: Option<K>, n: nat)
    requires StrictTotal(lt) && KeysDistinct(all, key)
    ensures var page := Page(all, key, lt, cursor, n);
      && Ascending(page, ByKey(key, lt))
      && (forall r :: r in page ==> r in all && After(lt, cursor, key(r)))
  {
    RestAscends(all, key, lt, cursor);
    var rest, page := Rest(all, key, lt, cursor), Page(all, key, lt, cursor, n);
    assert forall i :: 0 <= i < |page| ==> page[i] == rest[i] && rest[i] in rest;
  }

  /** A row the client has yet to see is on this page, or the page is full and ends before it. */
  lemma PageMeets<R(!new), K(!new)>(all: seq<R>, key: R -> K, lt: (K, K) -> bool, cursor: Option<K>, n: nat, r: R)
    requires StrictTotal(lt) && KeysDistinct(all, key) && n > 0
    requires r in all && After(lt, cursor, key(r))
    ensures var page := Page(all, key, lt, cursor, n);
      page != [] && (r in page <==> !lt(LastKey(page, key), key(r)))
  {
    var rest, page, less := Rest(all, key, lt, cursor), Page(all, key, lt, cursor, n), ByKey(key, lt);
    RestAscends(all, key, lt, cursor);
    ByKeyIsStrict(key, lt);
    assert r in rest;
    assert page == rest[..|page|];
    PrefixByLast(rest, |page|, r, less);
  }

  /** `page` is in key order, holds rows ahead of the cursor only, and leaves one out only if it is full and
      ends before it. */
  ghost predicate Cuts<R(!new), K>(all: seq<R>, key: R -> K, lt: (K, K) -> bool, cursor: Option<K>, n: nat,
                                   page: seq<R>)
    requires n > 0
  {
    && (forall i, j :: 0 <= i < j < |page| ==> lt(key(page[i]), key(page[j])))
    && (forall r :: r in page ==> r in all && After(lt, cursor, key(r)))
    && |page| <= n
    && forall r :: r in all && After(lt, cursor, key(r)) && r !in page ==> |page| == n && lt(LastKey(page, key), key(r))
  }

  lemma PageCuts<R(!new), K(!new)>(all: seq<R>, key: R -> K, lt: (K, K) -> bool, cursor: Option<K>, n: nat)
    requires StrictTotal(lt) && KeysDistinct(all, key) && n > 0
    ensures Cuts(all, key, lt, cursor, n, Page(all, key, lt, cursor, n))
  {
    var page := Page(all, key, lt, cursor, n);
    PageFacts(all, key, lt, cursor, n);
    forall i, j | 0 <= i < j < |page|
      ensures lt(key(page[i]), key(page[j]))
    {
      assert ByKey(key, lt)(page[i], page[j]);
    }
    forall r | r in all && After(lt, cursor, key(r)) && r !in page
      ensures |page| == n && lt(LastKey(page, key), key(r))
    {
      PageMeets(all, key, lt, cursor, n, r);
      RestAscends(all, key, lt, cursor);
      assert r in Rest(all, key, lt, cursor);
    }
  }

  lemma PageServes<R(!new), K(!new)>(all: seq<R>, key: R -> K, lt: (K, K) -> bool, cursor: Option<K>, n: nat,
                                     p: R -> bool, k: K)
    requires StrictTotal(lt) && KeysDistinct(all, key) && n > 0
    requires Holds(all, key, p, k)
    ensures Serves(Page(all, key, lt, cursor, n), key, lt, cursor, p, k)
  {
    var page := Page(all, key, lt, cursor, n);
    var r :| r in all && key(r) == k;
    PageFacts(all, key, lt, cursor, n);
    AscendingFilterOne(page, key, lt, p, k);
    if After(lt, cursor, k) {
      PageMeets(all, key, lt, cursor, n, r);
      assert forall q :: q in page && key(q) == k ==> q == r by { SameKeySameRow(all, key, k); }
    } else if page != [] {
      assert page[|page| - 1] in page;
    }
  }

  lemma SameKeySameRow<R(!new), K(!new)>(all: seq<R>, key: R -> K, k: K)
    requires KeysDistinct(all, key)
    ensures forall a, b :: a in all && b in all && key(a) == k && key(b) == k ==> a == b
  {
    forall a, b | a in all && b in all && key(a) == k && key(b) == k
      ensures a == b
    {
      var i :| 0 <= i < |all| && all[i] == a;
      var j :| 0 <= j < |all| && all[j] == b;
    }
  }

  /** Rows may come, go and move between requests: a row that keeps its key throughout is served
      exactly once by the time a page is empty, if it was ahead of the cursor to begin with. */
  lemma {:induction false} StableRowOnce<T(!new), R(!new), K(!new)>(
      tables: seq<T>, serve: (T, Option<K>) -> seq<R>, key: R -> K, lt: (K, K) -> bool,
      cursor: Option<K>, p: R -> bool, k: K)
    requires forall t, c :: t in tables ==> Serves(serve(t, c), key, lt, c, p, k)
    requires ReachedEnd(Crawl(tables, serve, key, cursor))
    ensures Occurrences(Crawl(tables, serve, key, cursor), p) == if After(lt, cursor, k) then 1 else 0
  {
    var page := serve(tables[0], cursor);
    assert Serves(page, key, lt, cursor, p, k);
    if page == [] {
      assert Crawl(tables, serve, key, cursor) == [page];
    } else {
      var more := Crawl(tables[1..], serve, key, Some(LastKey(page, key)));
      assert Crawl(tables, serve, key, cursor) == [page] + more;
      assert ([page] + more)[1..] == more;
      StableRowOnce(tables[1..], serve, key, lt, Some(LastKey(page, key)), p, k);
    }
  }

  // ------------------------------------------------------------------ an unchanging table

  /** How many requests it takes to page through `len` rows and see the empty page. */
  function Requests(len: nat, n: nat): nat
    requires n > 0
  {
    if len == 0 then 1 else 1 + Requests(if len <= n then 0 else len - n, n)
  }

  /** Ahead of a row that is ahead of the cursor is the tail of what was ahead of the cursor. */
  lemma RestAfterRow<R(!new), K(!new)>(all: seq<R>, key: R -> K, lt: (K, K) -> bool, cursor: Option<K>, i: nat)
    requires StrictTotal(lt) && KeysDistinct(all, key)
    requires i < |Rest(all, key, lt, cursor)|
    ensures Rest(all, key, lt, Some(key(Rest(all, key, lt, cursor)[i]))) == Rest(all, key, lt, cursor)[i + 1..]
  {
    var rest, less := Rest(all, key, lt, cursor), ByKey(key, lt);
    RestAscends(all, key, lt, cursor);
    RestAscends(all, key, lt, Some(key(rest[i])));
    ByKeyIsStrict(key, lt);
    assert rest[i] in rest;
    TailByElements(rest, i, Rest(all, key, lt, Some(key(rest[i]))), less);
  }

  lemma ConcatCons<R>(page: seq<R>, more: seq<seq<R>>)
    ensures Concat([page] + more) == page + Concat(more)
  {
    assert ([page] + more)[1..] == more;
  }

  /** What is ahead of each row that is ahead of `cursor` is what follows it. */
  ghost predicate TailsFollow<R, K>(rest: Option<K> -> seq<R>, key: R -> K, cursor: Option<K>) {
    forall i :: 0 <= i < |rest(cursor)| ==> rest(Some(key(rest(cursor)[i]))) == rest(cursor)[i + 1..]
  }

  lemma {:induction false} CrawlStep<T(!new), R(!new), K(!new)>(
      tables: seq<T>, serve: (T, Option<K>) -> seq<R>, key: R -> K, rest: Option<K> -> seq<R>,
      cursor: Option<K>, n: nat)
    requires tables != [] && n > 0
    requires serve(tables[0], cursor) == Take(rest(cursor), n)
    requires TailsFollow(rest, key, cursor)
    requires rest(cursor) != []
    ensures var page := Take(rest(cursor), n);
      && page != []
      && rest(Some(LastKey(page, key))) == rest(cursor)[|page|..]
      && Crawl(tables, serve, key, cursor) == [page] + Crawl(tables[1..], serve, key, Some(LastKey(page, key)))
      && rest(cursor) == page + rest(Some(LastKey(page, key)))
  {
    var page := Take(rest(cursor), n);
    assert page[|page| - 1] == rest(cursor)[|page| - 1];
  }

  /** If the answers cut one list, `rest(cursor)`, into pages, the pages put together are that list. */
  lemma {:induction false} CrawlIsWhole<T(!new), R(!new), K(!new)>(
      tables: seq<T>, serve: (T, Option<K>) -> seq<R>, key: R -> K, rest: Option<K> -> seq<R>,
      cursor: Option<K>, n: nat)
    requires n > 0
    requires forall t, c :: t in tables ==> serve(t, c) == Take(rest(c), n)
    requires forall c :: TailsFollow(rest, key, c)
    requires |tables| > |rest(cursor)|
    ensures ReachedEnd(Crawl(tables, serve, key, cursor))
    ensures Concat(Crawl(tables, serve, key, cursor)) == rest(cursor)
    decreases tables
  {
    if rest(cursor) == [] {
      ConcatCons<R>([], []);
    } else {
      CrawlStep(tables, serve, key, rest, cursor, n);
      var page := Take(rest(cursor), n);
      var last := Some(LastKey(page, key));
      CrawlIsWhole(tables[1..], serve, key, rest, last, n);
      ConcatCons(page, Crawl(tables[1..], serve, key, last));
    }
  }

  /** And they are as many as it takes. */
  lemma {:induction false} CrawlLength<T(!new), R(!new), K(!new)>(
      tables: seq<T>, serve: (T, Option<K>) -> seq<R>, key: R -> K, rest: Option<K> -> seq<R>,
      cursor: Option<K>, n: nat)
    requires n > 0
    requires forall t, c :: t in tables ==> serve(t, c) == Take(rest(c), n)
    requires forall c :: TailsFollow(rest, key, c)
    requires |tables| > |rest(cursor)|
    ensures |Crawl(tables, serve, key, cursor)| == Requests(|rest(cursor)|, n)
    decreases tables
  {
    if rest(cursor) != [] {
      CrawlStep(tables, serve, key, rest, cursor, n);
      CrawlLength(tables[1..], serve, key, rest, Some(LastKey(Take(rest(cursor), n), key)), n);
    }
  }
}
