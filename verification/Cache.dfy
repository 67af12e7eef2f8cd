/** The cache of upstream answers and its time to live. */
module Cache {
  import opened Text

  const COLON: Byte := 58

  /** In microseconds. */
  const HOUR := 3_600_000_000
  const NOT_FOUND_TTL := 24 * HOUR

  datatype Kind = Asin | Isbn | Search

  function KindText(kind: Kind): Bytes {
    match kind
    case Asin => [97, 115, 105, 110]
    case Isbn => [105, 115, 98, 110]
    case Search => [115, 101, 97, 114, 99, 104]
  }

  /** What is asked of which source. */
  datatype Query = Query(source: Bytes, kind: Kind, region: Bytes, text: Bytes)

  /** The hexadecimal SHA-1 of a query. */
  type Digest = Bytes -> Bytes

  ghost predicate IsDigest(digest: Digest) {
    && (forall a, b :: digest(a) == digest(b) ==> a == b)
    && (forall a :: COLON !in digest(a))
  }

  /** "<source>:<kind>:<region>:<sha1(query)>" */
  function Key(digest: Digest, q: Query): Bytes {
    (q.source + [COLON] + (KindText(q.kind) + [COLON] + q.region)) + [COLON] + digest(q.text)
  }

  /** "<source>:asin:<region>:<digest>", and so on. */
  lemma KeyLayout(digest: Digest, q: Query)
    ensures var kind: Bytes := match q.kind
        case Asin => [58, 97, 115, 105, 110, 58]
        case Isbn => [58, 105, 115, 98, 110, 58]
        case Search => [58, 115, 101, 97, 114, 99, 104, 58];
      Key(digest, q) == q.source + kind + q.region + [58] + digest(q.text)
  {
    var kind := [COLON] + KindText(q.kind) + [COLON];
    assert q.source + [COLON] + (KindText(q.kind) + [COLON] + q.region) == q.source + kind + q.region;
  }

  lemma KindTextInjective(a: Kind, b: Kind)
    ensures KindText(a) == KindText(b) <==> a == b
    ensures COLON !in KindText(a)
  {
    assert KindText(a)[0] == KindText(b)[0] ==> a == b;
  }

  /** Keys are as good as the queries they stand for, whatever the regions and texts hold, as long as
      the sources' names are free of colons. */
  lemma KeyInjective(digest: Digest, q: Query, r: Query)
    requires IsDigest(digest) && COLON !in q.source && COLON !in r.source
    ensures Key(digest, q) == Key(digest, r) <==> q == r
  {
    if Key(digest, q) == Key(digest, r) {
      var rest, rest' := KindText(q.kind) + [COLON] + q.region, KindText(r.kind) + [COLON] + r.region;
      JoinAtLast(q.source + [COLON] + rest, digest(q.text), r.source + [COLON] + rest', digest(r.text), COLON);
      JoinAtFirst(q.source, rest, r.source, rest', COLON);
      KindTextInjective(q.kind, r.kind);
      KindTextInjective(r.kind, q.kind);
      JoinAtFirst(KindText(q.kind), q.region, KindText(r.kind), r.region, COLON);
    }
  }

  /** A colon in a source's name would let two queries share a key. */
  lemma ColonSourceCollides(digest: Digest, text: Bytes)
    ensures var q := Query([97], Asin, KindText(Asin) + [COLON] + [114], text);
      var r := Query([97, COLON] + KindText(Asin), Asin, [114], text);
      q != r && Key(digest, q) == Key(digest, r)
  {
    var a := KindText(Asin);
    assert [97] + [COLON] + (a + [COLON] + (a + [COLON] + [114])) ==
      ([97, COLON] + a) + [COLON] + (a + [COLON] + [114]);
  }

  datatype Entry = Entry(source: Bytes, region: Bytes, notFound: bool, response: Bytes, fetchedAt: int)

  type Rows = map<Bytes, Entry>

  /** '{}' */
  const EMPTY_OBJECT: Bytes := [123, 125]

  predicate Expired(e: Entry, ttl: int, now: int) {
    now - e.fetchedAt > if e.notFound then NOT_FOUND_TTL else ttl
  }

  function Lookup(rows: Rows, ttl: int, key: Bytes, now: int): Option<Entry> {
    if key !in rows || Expired(rows[key], ttl, now) then None else Some(rows[key])
  }

  /** INSERT ... ON CONFLICT (cache_key) DO UPDATE: source and region of an existing row stay. */
  function AfterPut(rows: Rows, key: Bytes, source: Bytes, region: Bytes, notFound: bool, response: Bytes,
                    now: int): Rows {
    if key in rows then rows[key := rows[key].(notFound := notFound, response := response, fetchedAt := now)]
    else rows[key := Entry(source, region, notFound, response, now)]
  }

  function AfterEvict(rows: Rows, ttl: int, now: int): Rows {
    map k | k in rows && !Expired(rows[k], ttl, now) :: rows[k]
  }

  class CacheTable {
    var rows: Rows
    const ttl: int

    constructor (ttl: int)
      ensures rows == map[] && this.ttl == ttl
    {
      this.ttl := ttl;
      rows := map[];
    }

    method Get(key: Bytes, now: int) returns (r: Option<Entry>)
      ensures r == Lookup(rows, ttl, key, now)
      ensures r.Some? <==>
        key in rows && now - rows[key].fetchedAt <= if rows[key].notFound then 86_400_000_000 else ttl
      ensures r.Some? ==> r.value == rows[key]
    {
      if key !in rows {
        return None;
      }
      var e := rows[key];
      var limit := ttl;
      if e.notFound {
        limit := NOT_FOUND_TTL;
      }
      if now - e.fetchedAt > limit {
        return None;
      }
      r := Some(e);
    }

    method PutHit(key: Bytes, source: Bytes, region: Bytes, response: Bytes, now: int)
      modifies this
      ensures rows == AfterPut(old(rows), key, source, region, false, response, now)
      ensures key !in old(rows) ==> rows == old(rows)[key := Entry(source, region, false, response, now)]
      ensures key in old(rows) ==>
        var was := old(rows)[key];
        rows == old(rows)[key := Entry(was.source, was.region, false, response, now)]
    {
      if key in rows {
        rows := rows[key := rows[key].(response := response, notFound := false, fetchedAt := now)];
      } else {
        rows := rows[key := Entry(source, region, false, response, now)];
      }
    }

    method PutNotFound(key: Bytes, source: Bytes, region: Bytes, now: int)
      modifies this
      ensures rows == AfterPut(old(rows), key, source, region, true, EMPTY_OBJECT, now)
      ensures key !in old(rows) ==> rows == old(rows)[key := Entry(source, region, true, [123, 125], now)]
      ensures key in old(rows) ==>
        var was := old(rows)[key];
        rows == old(rows)[key := Entry(was.source, was.region, true, [123, 125], now)]
    {
      if key in rows {
        rows := rows[key := rows[key].(notFound := true, response := EMPTY_OBJECT, fetchedAt := now)];
      } else {
        rows := rows[key := Entry(source, region, true, EMPTY_OBJECT, now)];
      }
    }

    /** Deletes what was fetched before now less the time to live; the number of rows removed. */
    method EvictExpired(now: int) returns (n: nat)
      modifies this
      ensures rows == AfterEvict(old(rows), ttl, now)
      ensures n == |old(rows)| - |rows|
      ensures forall k :: k in rows <==>
        && k in old(rows)
        && now - old(rows)[k].fetchedAt <= if old(rows)[k].notFound then 86_400_000_000 else ttl
      ensures forall k :: k in rows ==> rows[k] == old(rows)[k]
    {
      var gone := set k | k in rows &&
        ((!rows[k].notFound && rows[k].fetchedAt < now - ttl)
         || (rows[k].notFound && rows[k].fetchedAt < now - NOT_FOUND_TTL));
      assert gone <= rows.Keys;
      assert |rows.Keys - gone| == |rows.Keys| - |gone|;
      rows := rows - gone;
      assert rows.Keys == old(rows).Keys - gone;
      n := |gone|;
    }
  }

  // ------------------------------------------------------------------ runs

  datatype Op =
    | Get(q: Query, at: int)
    | Hit(q: Query, response: Bytes, at: int)
    | NotFound(q: Query, at: int)
    | Evict(at: int)

  predicate IsPut(op: Op, q: Query) {
    (op.Hit? || op.NotFound?) && op.q == q
  }

  /** One clock, and sources with proper names. */
  ghost predicate Orderly(ops: seq<Op>) {
    && (forall i, j :: 0 <= i < j < |ops| ==> ops[i].at <= ops[j].at)
    && (forall i :: 0 <= i < |ops| && !ops[i].Evict? ==> COLON !in ops[i].q.source)
  }

  function AfterOp(rows: Rows, ttl: int, digest: Digest, op: Op): Rows {
    match op
    case Get(_, _) => rows
    case Hit(q, response, at) => AfterPut(rows, Key(digest, q), q.source, q.region, false, response, at)
    case NotFound(q, at) => AfterPut(rows, Key(digest, q), q.source, q.region, true, EMPTY_OBJECT, at)
    case Evict(at) => AfterEvict(rows, ttl, at)
  }

  function RowsAfter(ops: seq<Op>, ttl: int, digest: Digest): Rows {
    if ops == [] then map[] else AfterOp(RowsAfter(ops[..|ops| - 1], ttl, digest), ttl, digest, ops[|ops| - 1])
  }

  /** The position of the latest put for `q`, or -1. */
  function LatestPut(ops: seq<Op>, q: Query): (i: int)
    ensures -1 <= i < |ops|
    ensures 0 <= i ==> IsPut(ops[i], q)
    ensures forall k :: i < k < |ops| ==> !IsPut(ops[k], q)
  {
    if ops == [] then -1
    else if IsPut(ops[|ops| - 1], q) then |ops| - 1
    else LatestPut(ops[..|ops| - 1], q)
  }

  function EntryOf(op: Op): Entry
    requires op.Hit? || op.NotFound?
  {
    if op.Hit? then Entry(op.q.source, op.q.region, false, op.response, op.at)
    else Entry(op.q.source, op.q.region, true, EMPTY_OBJECT, op.at)
  }

  /** The rule, with neither table nor keys nor eviction: the latest put for this very query, if it is
      within its time to live. */
  function Answer(ops: seq<Op>, q: Query, ttl: int, now: int): Option<Entry> {
    var i := LatestPut(ops, q);
    if i < 0 || Expired(EntryOf(ops[i]), ttl, now) then None else Some(EntryOf(ops[i]))
  }

  /** Rows are stored under the keys of the queries they answer. */
  ghost predicate Honest(rows: Rows, digest: Digest) {
    forall k :: k in rows ==> exists q :: StandsFor(rows, digest, k, q)
  }

  predicate StandsFor(rows: Rows, digest: Digest, k: Bytes, q: Query) {
    k in rows && COLON !in q.source && k == Key(digest, q) && rows[k].source == q.source && rows[k].region == q.region
  }

  lemma PutIsHonest(rows: Rows, digest: Digest, q: Query, notFound: bool, response: Bytes, at: int)
    requires IsDigest(digest) && COLON !in q.source && Honest(rows, digest)
    ensures var after := AfterPut(rows, Key(digest, q), q.source, q.region, notFound, response, at);
      && Honest(after, digest)
      && after == rows[Key(digest, q) := Entry(q.source, q.region, notFound, response, at)]
  {
    var key := Key(digest, q);
    if key in rows {
      var r :| StandsFor(rows, digest, key, r);
      KeyInjective(digest, q, r);
    }
    var after := AfterPut(rows, key, q.source, q.region, notFound, response, at);
    forall k | k in after
      ensures exists r :: StandsFor(after, digest, k, r)
    {
      if k == key {
        assert StandsFor(after, digest, k, q);
      } else {
        var r :| StandsFor(rows, digest, k, r);
        assert StandsFor(after, digest, k, r);
      }
    }
  }

  lemma EvictIsHonest(rows: Rows, ttl: int, digest: Digest, at: int)
    requires Honest(rows, digest)
    ensures Honest(AfterEvict(rows, ttl, at), digest)
  {
    var after := AfterEvict(rows, ttl, at);
    forall k | k in after
      ensures exists q :: StandsFor(after, digest, k, q)
    {
      var q :| StandsFor(rows, digest, k, q);
      assert StandsFor(after, digest, k, q);
    }
  }

  lemma OpIsHonest(rows: Rows, ttl: int, digest: Digest, op: Op)
    requires IsDigest(digest) && Honest(rows, digest) && (op.Evict? || COLON !in op.q.source)
    ensures Honest(AfterOp(rows, ttl, digest, op), digest)
    ensures op.Hit? || op.NotFound? ==> AfterOp(rows, ttl, digest, op) == rows[Key(digest, op.q) := EntryOf(op)]
  {
    match op
    case Get(_, _) =>
    case Hit(q, response, at) => PutIsHonest(rows, digest, q, false, response, at);
    case NotFound(q, at) => PutIsHonest(rows, digest, q, true, EMPTY_OBJECT, at);
    case Evict(at) => EvictIsHonest(rows, ttl, digest, at);
  }

  lemma {:induction false} RowsAreHonest(ops: seq<Op>, ttl: int, digest: Digest)
    requires IsDigest(digest) && Orderly(ops)
    ensures Honest(RowsAfter(ops, ttl, digest), digest)
  {
    if ops != [] {
      RowsAreHonest(ops[..|ops| - 1], ttl, digest);
      OpIsHonest(RowsAfter(ops[..|ops| - 1], ttl, digest), ttl, digest, ops[|ops| - 1]);
    }
  }

  /** One operation changes what a later lookup of `q` finds only if it is a put for `q`. */
  lemma LookupAfterOp(rows: Rows, ttl: int, digest: Digest, op: Op, q: Query, now: int)
    requires IsDigest(digest) && Honest(rows, digest) && (op.Evict? || COLON !in op.q.source) && COLON !in q.source
    requires op.at <= now
    ensures Lookup(AfterOp(rows, ttl, digest, op), ttl, Key(digest, q), now) ==
      if !IsPut(op, q) then Lookup(rows, ttl, Key(digest, q), now)
      else if Expired(EntryOf(op), ttl, now) then None
      else Some(EntryOf(op))
  {
    OpIsHonest(rows, ttl, digest, op);
    if op.Hit? || op.NotFound? {
      KeyInjective(digest, q, op.q);
    }
  }

  /** Whatever puts, gets and evictions came before, a lookup answers by the rule: the latest put for
      the same source, kind, region and query while it is within its time to live, and nothing else. */
  lemma {:induction false} LookupFollowsRule(ops: seq<Op>, ttl: int, digest: Digest, q: Query, now: int)
    requires IsDigest(digest) && Orderly(ops) && COLON !in q.source
    requires ops == [] || ops[|ops| - 1].at <= now
    ensures Lookup(RowsAfter(ops, ttl, digest), ttl, Key(digest, q), now) == Answer(ops, q, ttl, now)
  {
    if ops != [] {
      var op, before := ops[|ops| - 1], ops[..|ops| - 1];
      RowsAreHonest(before, ttl, digest);
      assert before != [] ==> before[|before| - 1].at <= op.at;
      LookupFollowsRule(before, ttl, digest, q, now);
      LookupAfterOp(RowsAfter(before, ttl, digest), ttl, digest, op, q, now);
    }
  }

  function WithoutEvictions(ops: seq<Op>): seq<Op> {
    if ops == [] then []
    else WithoutEvictions(ops[..|ops| - 1]) + if ops[|ops| - 1].Evict? then [] else [ops[|ops| - 1]]
  }

  lemma {:induction false} AnswerIgnoresEvictions(ops: seq<Op>, q: Query, ttl: int, now: int)
    ensures Answer(ops, q, ttl, now) == Answer(WithoutEvictions(ops), q, ttl, now)
  {
    if ops != [] {
      var op, before := ops[|ops| - 1], WithoutEvictions(ops[..|ops| - 1]);
      AnswerIgnoresEvictions(ops[..|ops| - 1], q, ttl, now);
      if !op.Evict? {
        assert (before + [op])[..|before|] == before;
      } else {
        assert before + [] == before;
      }
    }
  }

  /** Two runs that differ only in where evictions were put in answer every lookup alike. */
  lemma EvictionUnobservable(ops: seq<Op>, ops': seq<Op>, ttl: int, digest: Digest, q: Query, now: int)
    requires IsDigest(digest) && Orderly(ops) && Orderly(ops') && COLON !in q.source
    requires ops == [] || ops[|ops| - 1].at <= now
    requires ops' == [] || ops'[|ops'| - 1].at <= now
    requires WithoutEvictions(ops) == WithoutEvictions(ops')
    ensures Lookup(RowsAfter(ops, ttl, digest), ttl, Key(digest, q), now)
      == Lookup(RowsAfter(ops', ttl, digest), ttl, Key(digest, q), now)
  {
    LookupFollowsRule(ops, ttl, digest, q, now);
    LookupFollowsRule(ops', ttl, digest, q, now);
    AnswerIgnoresEvictions(ops, q, ttl, now);
    AnswerIgnoresEvictions(ops', q, ttl, now);
  }

  // ------------------------------------------------------------------ what is served, and how old it is

  /** The i-th operation put the answer that `q` has after all of `ops`. */
  ghost predicate PutLast(ops: seq<Op>, i: nat, q: Query) {
    && i < |ops| && !ops[i].Get? && !ops[i].Evict? && ops[i].q == q
    && forall k :: i < k < |ops| && (ops[k].Hit? || ops[k].NotFound?) ==> ops[k].q != q
  }

  /** A lookup finds the row `e`: it is stored under the key and not too old. */
  predicate Finds(rows: Rows, ttl: int, key: Bytes, now: int, e: Entry) {
    key in rows && rows[key] == e && now - e.fetchedAt <= if e.notFound then 86_400_000_000 else ttl
  }

  /** The row `e` is what a put left. */
  predicate Leaves(op: Op, e: Entry) {
    match op
    case Hit(q, response, at) => e == Entry(q.source, q.region, false, response, at)
    case NotFound(q, at) => e == Entry(q.source, q.region, true, [123, 125], at)
    case _ => false
  }

  /** After any orderly run, what is served for a query is exactly what the last put for it left, if that
      is no longer ago than the time to live, 24 hours for a negative. */
  lemma ServedExactly(ops: seq<Op>, ttl: int, digest: Digest, q: Query, now: int, e: Entry)
    requires IsDigest(digest) && Orderly(ops) && COLON !in q.source
    requires ops == [] || ops[|ops| - 1].at <= now
    ensures Finds(RowsAfter(ops, ttl, digest), ttl, Key(digest, q), now, e) <==>
      && (exists i: nat :: PutLast(ops, i, q) && Leaves(ops[i], e))
      && now - e.fetchedAt <= if e.notFound then 86_400_000_000 else ttl
  {
    LookupFollowsRule(ops, ttl, digest, q, now);
    var last := LatestPut(ops, q);
    forall i: nat | PutLast(ops, i, q)
      ensures i == last
    {
      assert IsPut(ops[i], q);
    }
    if last >= 0 {
      assert PutLast(ops, last, q);
    }
  }
}
