/** The parallel search over all sources, with a shared cache and one list of matches. */
module Aggregator {
  import opened Text
  import opened Orders
  import opened Cache
  import Confidence

  const MAX_RESULTS := 20

  type Candidate = Confidence.Candidate

  datatype Match = Match(source: Bytes, confidence: int, candidate: Candidate)

  // ------------------------------------------------------------------ classify

  predicate IsDigit(c: Byte) { 48 <= c < 58 }

  predicate AllDigits(s: Bytes) { forall i :: 0 <= i < |s| ==> IsDigit(s[i]) }

  /** ^B0[0-9A-Z]{8}$ */
  predicate LooksLikeAsin(q: Bytes) {
    |q| == 10 && q[0] == 66 && q[1] == 48 && forall i :: 2 <= i < 10 ==> IsDigit(q[i]) || 65 <= q[i] < 91
  }

  /** ^(978|979)?\d{9}[\dX]$ */
  predicate LooksLikeIsbn(q: Bytes) {
    var n := |q|;
    && (n == 10 || (n == 13 && ([57, 55, 56] <= q || [57, 55, 57] <= q)))
    && AllDigits(q[..n - 1]) && (IsDigit(q[n - 1]) || q[n - 1] == 88)
  }

  function Classify(q: Bytes): Kind {
    if LooksLikeAsin(q) then Asin else if LooksLikeIsbn(q) then Isbn else Kind.Search
  }

  predicate IsAsin(q: Bytes, rest: Bytes) {
    q == [66, 48] + rest && |rest| == 8 && forall c :: c in rest ==> 48 <= c <= 57 || 65 <= c <= 90
  }

  predicate IsIsbn(q: Bytes, prefix: Bytes, digits: Bytes, last: Byte) {
    && q == prefix + digits + [last] && (prefix == [] || prefix == [57, 55, 56] || prefix == [57, 55, 57])
    && |digits| == 9 && (forall c :: c in digits ==> 48 <= c <= 57) && (48 <= last <= 57 || last == 88)
  }

  lemma AsinExactly(q: Bytes)
    ensures LooksLikeAsin(q) <==> exists rest :: IsAsin(q, rest)
  {
    if LooksLikeAsin(q) {
      assert IsAsin(q, q[2..]);
    }
    if rest :| IsAsin(q, rest) {
      forall i | 2 <= i < 10
        ensures IsDigit(q[i]) || 65 <= q[i] < 91
      {
        assert q[i] == rest[i - 2] && rest[i - 2] in rest;
      }
    }
  }

  lemma IsbnHas(q: Bytes)
    requires LooksLikeIsbn(q)
    ensures exists prefix, digits, last :: IsIsbn(q, prefix, digits, last)
  {
    var n := |q|;
    var prefix, digits, last := q[..n - 10], q[n - 10..n - 1], q[n - 1];
    assert forall i :: 0 <= i < 9 ==> digits[i] == q[..n - 1][n - 10 + i];
    assert q == prefix + digits + [last];
    assert IsIsbn(q, prefix, digits, last);
  }

  lemma IsbnLooks(q: Bytes, prefix: Bytes, digits: Bytes, last: Byte)
    requires IsIsbn(q, prefix, digits, last)
    ensures LooksLikeIsbn(q) && !LooksLikeAsin(q)
  {
    var n, front := |q|, prefix + digits;
    assert q[..n - 1] == front;
    forall i | 0 <= i < n - 1
      ensures IsDigit(front[i])
    {
      assert front[i] in prefix || front[i] in digits;
    }
    assert q[0] == front[0] && IsDigit(front[0]);
    assert prefix != [] ==> prefix <= q;
  }

  /** What the two expressions match: "B0" and eight more, upper-case letters or digits; "978", "979" or
      nothing, nine digits, and a digit or an X. */
  lemma ClassifyExactly(q: Bytes)
    ensures Classify(q) == Asin <==> exists rest :: IsAsin(q, rest)
    ensures Classify(q) == Isbn <==> exists prefix, digits, last :: IsIsbn(q, prefix, digits, last)
  {
    AsinExactly(q);
    if prefix, digits, last :| IsIsbn(q, prefix, digits, last) {
      IsbnLooks(q, prefix, digits, last);
    } else if LooksLikeIsbn(q) {
      IsbnHas(q);
    }
  }

  // ------------------------------------------------------------------ one source

  /** A source in one search: what it answers live, whether the rate limiter admits the call in time,
      and when its goroutine reads and writes the cache. */
  datatype Source = Source(id: Bytes, answer: Result<seq<Candidate>>, admitted: bool, getAt: int, putAt: int)

  /** One search; `encode` and `decode` are the JSON of the cache, `score` the confidence. */
  datatype Request = Request(sources: seq<Source>, text: Bytes, region: Bytes, ttl: int, digest: Digest,
                             encode: seq<Candidate> -> Bytes, decode: Bytes -> Option<seq<Candidate>>,
                             score: Candidate -> int) {
    ghost predicate Valid() {
      && IsDigest(digest)
      && (forall i :: 0 <= i < |sources| ==> COLON !in sources[i].id)
      && (forall i, j :: 0 <= i < j < |sources| ==> sources[i].id != sources[j].id)
    }

    function QueryTo(i: nat): Query
      requires i < |sources|
    {
      Query(sources[i].id, Classify(text), region, text)
    }

    function KeyTo(i: nat): Bytes
      requires i < |sources|
    {
      Key(digest, QueryTo(i))
    }
  }

  function MatchOf(score: Candidate -> int): Candidate -> Match {
    (c: Candidate) => Match(c.source, score(c), c)
  }

  function Ranked(score: Candidate -> int, cs: seq<Candidate>): seq<Match> {
    Map(cs, MatchOf(score))
  }

  function Consult(r: Request, rows: Rows, i: nat): Option<Entry>
    requires i < |r.sources|
  {
    Lookup(rows, r.ttl, r.KeyTo(i), r.sources[i].getAt)
  }

  /** The candidates a cache entry answers with, if it is one that can be used. */
  function FromCache(r: Request, e: Option<Entry>): Option<seq<Candidate>> {
    if e.None? then None else if e.value.notFound then Some([]) else r.decode(e.value.response)
  }

  /** A source's matches, given what it read from the cache. */
  function Matches(r: Request, i: nat, e: Option<Entry>): seq<Match>
    requires i < |r.sources|
  {
    match FromCache(r, e)
    case Some(cs) => Ranked(r.score, cs)
    case None =>
      var s := r.sources[i];
      if s.admitted && s.answer.Ok? then Ranked(r.score, s.answer.value) else []
  }

  /** And what it leaves in the cache. */
  function Caches(r: Request, rows: Rows, i: nat, e: Option<Entry>): Rows
    requires i < |r.sources|
  {
    var s := r.sources[i];
    if FromCache(r, e).Some? || !s.admitted || s.answer.Err? then rows
    else if s.answer.value == [] then AfterPut(rows, r.KeyTo(i), s.id, r.region, true, EMPTY_OBJECT, s.putAt)
    else AfterPut(rows, r.KeyTo(i), s.id, r.region, false, r.encode(s.answer.value), s.putAt)
  }

  /** One match a candidate, in order, with the candidate's own source and confidence. */
  ghost predicate Ranks(score: Candidate -> int, cs: seq<Candidate>, out: seq<Match>) {
    |out| == |cs| && forall k :: 0 <= k < |cs| ==> out[k] == Match(cs[k].source, score(cs[k]), cs[k])
  }

  method Rank(score: Candidate -> int, cs: seq<Candidate>) returns (out: seq<Match>)
    ensures out == Ranked(score, cs)
    ensures Ranks(score, cs, out)
  {
    out := [];
    for k := 0 to |cs|
      invariant |out| == k && forall j :: 0 <= j < k ==> out[j] == MatchOf(score)(cs[j])
    {
      out := out + [Match(cs[k].source, score(cs[k]), cs[k])];
    }
  }

  /** What a source is asked, and the key its answer is cached under. */
  function AskedKey(r: Request, i: nat): Bytes
    requires i < |r.sources|
  {
    Key(r.digest, Query(r.sources[i].id, Classify(r.text), r.region, r.text))
  }

  /** The cache has a row for the request's key that is not too old for its source. */
  predicate Fresh(r: Request, rows: Rows, i: nat)
    requires i < |r.sources|
  {
    var key := AskedKey(r, i);
    key in rows && r.sources[i].getAt - rows[key].fetchedAt <= if rows[key].notFound then 86_400_000_000 else r.ttl
  }

  /** The candidates that the cache answers: none for a fresh negative, those of a fresh row that decodes. */
  function AnsweredByCache(r: Request, rows: Rows, i: nat): Option<seq<Candidate>>
    requires i < |r.sources|
  {
    if !Fresh(r, rows, i) then None
    else if rows[AskedKey(r, i)].notFound then Some([])
    else r.decode(rows[AskedKey(r, i)].response)
  }

  predicate AnswersLive(r: Request, rows: Rows, i: nat)
    requires i < |r.sources|
  {
    AnsweredByCache(r, rows, i) == None && r.sources[i].admitted && r.sources[i].answer.Ok?
  }

  /** The candidates one source answers, from the cache or else live, if the call is admitted and succeeds. */
  function Answered(r: Request, rows: Rows, i: nat): seq<Candidate>
    requires i < |r.sources|
  {
    match AnsweredByCache(r, rows, i)
    case Some(cs) => cs
    case None => if AnswersLive(r, rows, i) then r.sources[i].answer.value else []
  }

  /** The cache after a live answer: just the row of the key, a negative if there were no candidates. */
  predicate Remembers(r: Request, rows: Rows, i: nat, after: Rows)
    requires i < |r.sources| && r.sources[i].answer.Ok?
  {
    var s, key := r.sources[i], AskedKey(r, i);
    && after.Keys == rows.Keys + {key} && (forall k :: k in rows && k != key ==> after[k] == rows[k])
    && after[key].fetchedAt == s.putAt && after[key].notFound == (s.answer.value == [])
    && (s.answer.value != [] ==> after[key].response == r.encode(s.answer.value))
    && (key !in rows ==> after[key].source == s.id && after[key].region == r.region)
  }

  method SearchOne(cache: CacheTable, r: Request, i: nat) returns (out: seq<Match>)
    requires i < |r.sources| && cache.ttl == r.ttl
    modifies cache
    ensures var e := Consult(r, old(cache.rows), i);
      out == Matches(r, i, e) && cache.rows == Caches(r, old(cache.rows), i, e)
    ensures Ranks(r.score, Answered(r, old(cache.rows), i), out)
    ensures if AnswersLive(r, old(cache.rows), i) then Remembers(r, old(cache.rows), i, cache.rows)
            else cache.rows == old(cache.rows)
  {
    var s := r.sources[i];
    var key := Key(r.digest, Query(s.id, Classify(r.text), r.region, r.text));
    var entry := cache.Get(key, s.getAt);
    if entry.Some? {
      if entry.value.notFound {
        return [];
      }
      var cs := r.decode(entry.value.response);
      if cs.Some? {
        out := Rank(r.score, cs.value);
        return;
      }
    }
    if !s.admitted || s.answer.Err? {
      return [];
    }
    if |s.answer.value| == 0 {
      cache.PutNotFound(key, s.id, r.region, s.putAt);
      return [];
    }
    cache.PutHit(key, s.id, r.region, r.encode(s.answer.value), s.putAt);
    out := Rank(r.score, s.answer.value);
  }

  /** A search within the time to live after one that had to ask the source gets the same matches
      from the cache, whatever the source would say now. */
  lemma CachedAnswerIsTheSame(r: Request, rows: Rows, i: nat, later: Request)
    requires i < |r.sources| == |later.sources|
    requires later.sources[i].id == r.sources[i].id && later.text == r.text && later.region == r.region
    requires later.digest == r.digest && later.decode == r.decode && later.score == r.score && later.ttl == r.ttl
    requires FromCache(r, Consult(r, rows, i)).None? && r.sources[i].admitted && r.sources[i].answer.Ok?
    requires r.decode(r.encode(r.sources[i].answer.value)) == Some(r.sources[i].answer.value)
    requires later.sources[i].getAt - r.sources[i].putAt
      <= if r.sources[i].answer.value == [] then NOT_FOUND_TTL else r.ttl
    ensures var rows' := Caches(r, rows, i, Consult(r, rows, i));
      Matches(later, i, Consult(later, rows', i)) == Matches(r, i, Consult(r, rows, i))
  {
    assert later.KeyTo(i) == r.KeyTo(i);
  }

  // ------------------------------------------------------------------ all sources at once

  /** Where a goroutine is: before its lookup, before its call and put, before its append, done. */
  datatype Goroutine = Starting | Looked(entry: Option<Entry>) | Holding(matches: seq<Match>) | Finished

  datatype State = State(rows: Rows, goroutines: seq<Goroutine>, out: seq<Match>)

  function Start(r: Request, rows: Rows): State {
    State(rows, seq(|r.sources|, i => Starting), [])
  }

  /** Goroutine `i` takes its next atomic step. */
  function StepOf(r: Request, s: State, i: nat): State
    requires i < |r.sources| == |s.goroutines|
  {
    match s.goroutines[i]
    case Starting => s.(goroutines := s.goroutines[i := Looked(Consult(r, s.rows, i))])
    case Looked(e) => s.(rows := Caches(r, s.rows, i, e), goroutines := s.goroutines[i := Holding(Matches(r, i, e))])
    case Holding(ms) => s.(out := s.out + ms, goroutines := s.goroutines[i := Finished])
    case Finished => s
  }

  /** `schedule` says whose step comes next, any number of times, in any order. */
  predicate Schedules(r: Request, schedule: seq<nat>) {
    forall k :: 0 <= k < |schedule| ==> schedule[k] < |r.sources|
  }

  function Interleave(r: Request, s: State, schedule: seq<nat>): (t: State)
    requires |s.goroutines| == |r.sources| && Schedules(r, schedule)
    ensures |t.goroutines| == |r.sources|
    decreases schedule
  {
    if schedule == [] then s else Interleave(r, StepOf(r, s, schedule[0]), schedule[1..])
  }

  predicate AllFinished(s: State) {
    forall i :: 0 <= i < |s.goroutines| ==> s.goroutines[i].Finished?
  }

  /** What a source finds if it runs alone. */
  function Alone(r: Request, rows: Rows, i: nat): seq<Match>
    requires i < |r.sources|
  {
    Matches(r, i, Consult(r, rows, i))
  }

  /** What each source finds if it runs alone. */
  function AllAlone(r: Request, rows: Rows): seq<seq<Match>> {
    seq(|r.sources|, i requires 0 <= i < |r.sources| => Alone(r, rows, i))
  }

  /** The parts of the finished ones among the first `n` goroutines. */
  function Gathered(parts: seq<seq<Match>>, g: seq<Goroutine>, n: nat): multiset<Match>
    requires n <= |parts| == |g|
  {
    if n == 0 then multiset{}
    else Gathered(parts, g, n - 1) + if g[n - 1].Finished? then multiset(parts[n - 1]) else multiset{}
  }

  /** Each goroutine has what it would have alone: no other touches its key. */
  ghost predicate Undisturbed(r: Request, rows: Rows, s: State, i: nat)
    requires i < |r.sources| == |s.goroutines|
  {
    match s.goroutines[i]
    case Starting => Consult(r, s.rows, i) == Consult(r, rows, i)
    case Looked(e) => e == Consult(r, rows, i)
    case Holding(ms) => ms == Alone(r, rows, i)
    case Finished => true
  }

  ghost predicate Consistent(r: Request, rows: Rows, s: State) {
    && |s.goroutines| == |r.sources|
    && (forall i :: 0 <= i < |r.sources| ==> Undisturbed(r, rows, s, i))
    && multiset(s.out) == Gathered(AllAlone(r, rows), s.goroutines, |r.sources|)
  }

  lemma OthersKeyUntouched(r: Request, rows: Rows, i: nat, j: nat, e: Option<Entry>)
    requires r.Valid() && i < |r.sources| && j < |r.sources| && i != j
    ensures Consult(r, Caches(r, rows, i, e), j) == Consult(r, rows, j)
  {
    KeyInjective(r.digest, r.QueryTo(i), r.QueryTo(j));
    assert r.sources[i].id != r.sources[j].id;
  }

  lemma {:induction false} GatheredAfter(parts: seq<seq<Match>>, g: seq<Goroutine>, i: nat, to: Goroutine, n: nat)
    requires n <= |parts| == |g| && i < |g| && !g[i].Finished?
    ensures Gathered(parts, g[i := to], n) ==
      Gathered(parts, g, n) + if i < n && to.Finished? then multiset(parts[i]) else multiset{}
  {
    if n > 0 {
      GatheredAfter(parts, g, i, to, n - 1);
    }
  }

  lemma StepUndisturbs(r: Request, rows: Rows, s: State, i: nat, j: nat)
    requires r.Valid() && Consistent(r, rows, s) && i < |r.sources| && j < |r.sources|
    ensures Undisturbed(r, rows, StepOf(r, s, i), j)
  {
    assert Undisturbed(r, rows, s, j);
    assert Undisturbed(r, rows, s, i);
    if j != i && s.goroutines[i].Looked? {
      OthersKeyUntouched(r, s.rows, i, j, s.goroutines[i].entry);
    }
  }

  lemma StepKeeps(r: Request, rows: Rows, s: State, i: nat)
    requires r.Valid() && Consistent(r, rows, s) && i < |r.sources|
    ensures Consistent(r, rows, StepOf(r, s, i))
  {
    var t := StepOf(r, s, i);
    forall j | 0 <= j < |r.sources|
      ensures Undisturbed(r, rows, t, j)
    {
      StepUndisturbs(r, rows, s, i, j);
    }
    if !s.goroutines[i].Finished? {
      assert Undisturbed(r, rows, s, i);
      GatheredAfter(AllAlone(r, rows), s.goroutines, i, t.goroutines[i], |r.sources|);
    }
  }

  lemma {:induction false} NothingGathered(parts: seq<seq<Match>>, g: seq<Goroutine>, n: nat)
    requires n <= |parts| == |g| && forall i :: 0 <= i < |g| ==> !g[i].Finished?
    ensures Gathered(parts, g, n) == multiset{}
  {
    if n > 0 {
      NothingGathered(parts, g, n - 1);
    }
  }

  lemma {:induction false} InterleavingKeeps(r: Request, rows: Rows, s: State, schedule: seq<nat>)
    requires r.Valid() && Consistent(r, rows, s) && Schedules(r, schedule)
    ensures Consistent(r, rows, Interleave(r, s, schedule))
    decreases schedule
  {
    if schedule != [] {
      StepKeeps(r, rows, s, schedule[0]);
      InterleavingKeeps(r, rows, StepOf(r, s, schedule[0]), schedule[1..]);
    }
  }

  lemma {:induction false} AllGathered(parts: seq<seq<Match>>, g: seq<Goroutine>, h: seq<Goroutine>, n: nat)
    requires n <= |parts| == |g| == |h|
    requires forall i :: 0 <= i < n ==> g[i].Finished? && h[i].Finished?
    ensures Gathered(parts, g, n) == Gathered(parts, h, n)
  {
    if n > 0 {
      AllGathered(parts, g, h, n - 1);
    }
  }

  /** Whatever the interleaving, once all goroutines are done the matches are the same, up to order. */
  lemma SameMatches(r: Request, rows: Rows, schedule: seq<nat>, schedule': seq<nat>)
    requires r.Valid() && Schedules(r, schedule) && Schedules(r, schedule')
    requires AllFinished(Interleave(r, Start(r, rows), schedule))
    requires AllFinished(Interleave(r, Start(r, rows), schedule'))
    ensures multiset(Interleave(r, Start(r, rows), schedule).out) ==
      multiset(Interleave(r, Start(r, rows), schedule').out)
  {
    var start := Start(r, rows);
    NothingGathered(AllAlone(r, rows), start.goroutines, |r.sources|);
    InterleavingKeeps(r, rows, start, schedule);
    InterleavingKeeps(r, rows, start, schedule');
    AllGathered(AllAlone(r, rows), Interleave(r, start, schedule).goroutines,
                Interleave(r, start, schedule').goroutines, |r.sources|);
  }

  // ------------------------------------------------------------------ the best twenty

  /** One insertion of a stable sort: before the first match that is not better. */
  function Place(m: Match, s: seq<Match>): (r: seq<Match>)
    ensures multiset(r) == multiset(s) + multiset{m}
    ensures |r| == |s| + 1
  {
    if s == [] || s[0].confidence <= m.confidence then [m] + s
    else
      assert s == [s[0]] + s[1..];
      [s[0]] + Place(m, s[1..])
  }

  /** sort.SliceStable by descending confidence. */
  function StableSort(s: seq<Match>): (r: seq<Match>)
    ensures multiset(r) == multiset(s)
    ensures |r| == |s|
  {
    if s == [] then []
    else
      assert s == [s[0]] + s[1..];
      Place(s[0], StableSort(s[1..]))
  }

  function Top(s: seq<Match>): seq<Match> {
    Take(StableSort(s), MAX_RESULTS)
  }

  function ConfidenceOf(): Match -> int {
    (m: Match) => m.confidence
  }

  function Confidences(s: seq<Match>): seq<int> {
    Map(s, ConfidenceOf())
  }

  ghost predicate Descending(s: seq<Match>) {
    forall i, j :: 0 <= i < j < |s| ==> s[i].confidence >= s[j].confidence
  }

  function OfConfidence(k: int): Match -> bool {
    (m: Match) => m.confidence == k
  }

  lemma {:induction false} PlaceDescending(m: Match, s: seq<Match>)
    requires Descending(s)
    ensures Descending(Place(m, s))
  {
    if s != [] && s[0].confidence > m.confidence {
      var rest := Place(m, s[1..]);
      PlaceDescending(m, s[1..]);
      forall j | 0 <= j < |rest|
        ensures rest[j].confidence <= s[0].confidence
      {
        PlacedFrom(m, s, rest[j]);
      }
    }
  }

  lemma PlacedFrom(m: Match, s: seq<Match>, x: Match)
    requires Descending(s) && s != [] && s[0].confidence > m.confidence && x in Place(m, s[1..])
    ensures x.confidence <= s[0].confidence
  {
    assert x in multiset(Place(m, s[1..]));
    if x != m {
      assert x in multiset(s[1..]);
      var i :| 0 <= i < |s[1..]| && s[1..][i] == x;
      assert s[i + 1] == x;
    }
  }

  /** Swapping two neighbours of which `p` keeps one at most leaves what `p` keeps. */
  lemma SwapApart(m: Match, h: Match, rest: seq<Match>, placed: seq<Match>, p: Match -> bool)
    requires Filter(placed, p) == Filter([m] + rest, p) && !(p(m) && p(h))
    ensures Filter([h] + placed, p) == Filter([m] + ([h] + rest), p)
  {
    FilterCons(h, placed, p);
    FilterCons(m, rest, p);
    FilterCons(m, [h] + rest, p);
    FilterCons(h, rest, p);
  }

  lemma {:induction false} PlaceStable(m: Match, s: seq<Match>, k: int)
    requires Descending(s)
    ensures Filter(Place(m, s), OfConfidence(k)) == Filter([m] + s, OfConfidence(k))
  {
    if s != [] && s[0].confidence > m.confidence {
      PlaceStable(m, s[1..], k);
      SwapApart(m, s[0], s[1..], Place(m, s[1..]), OfConfidence(k));
      assert s == [s[0]] + s[1..];
    }
  }

  lemma {:induction false} SortDescending(s: seq<Match>)
    ensures Descending(StableSort(s))
  {
    if s != [] {
      SortDescending(s[1..]);
      PlaceDescending(s[0], StableSort(s[1..]));
    }
  }

  /** Matches of equal confidence keep the order they came in. */
  lemma {:induction false} SortStable(s: seq<Match>, k: int)
    ensures Filter(StableSort(s), OfConfidence(k)) == Filter(s, OfConfidence(k))
  {
    if s != [] {
      SortDescending(s[1..]);
      SortStable(s[1..], k);
      PlaceStable(s[0], StableSort(s[1..]), k);
      assert s == [s[0]] + s[1..];
      FilterCons(s[0], StableSort(s[1..]), OfConfidence(k));
      FilterCons(s[0], s[1..], OfConfidence(k));
    }
  }

  ghost predicate Falling(s: seq<int>) {
    forall i, j :: 0 <= i < j < |s| ==> s[i] >= s[j]
  }

  lemma GreatestFirst(s: seq<int>, x: int)
    requires Falling(s) && x in s
    ensures x <= s[0]
  {
  }

  lemma FallingHeads(a: seq<int>, b: seq<int>)
    requires Falling(a) && Falling(b) && multiset(a) == multiset(b) && a != []
    ensures b != [] && a[0] == b[0]
  {
    assert a[0] in multiset(b);
    assert b[0] in multiset(a);
    GreatestFirst(a, b[0]);
    GreatestFirst(b, a[0]);
  }

  lemma SameTails(a: seq<int>, b: seq<int>)
    requires a != [] && b != [] && a[0] == b[0] && multiset(a) == multiset(b)
    ensures multiset(a[1..]) == multiset(b[1..])
  {
    SameRest(a, b, 0);
    assert b[..0] + b[0 + 1..] == b[1..];
  }

  /** A descending sequence is determined by what it is a permutation of. */
  lemma {:induction false} FallingUnique(a: seq<int>, b: seq<int>)
    requires Falling(a) && Falling(b) && multiset(a) == multiset(b)
    ensures a == b
  {
    if a == [] {
      assert |multiset(b)| == 0;
    } else {
      FallingHeads(a, b);
      SameTails(a, b);
      FallingUnique(a[1..], b[1..]);
    }
  }

  /** The confidences returned depend only on which matches there are. */
  lemma SameConfidences(a: seq<Match>, b: seq<Match>)
    requires multiset(a) == multiset(b)
    ensures Confidences(Top(a)) == Confidences(Top(b))
  {
    var x, y := StableSort(a), StableSort(b);
    SortDescending(a);
    SortDescending(b);
    MapOfPermutation(x, y, ConfidenceOf());
    FallingUnique(Confidences(x), Confidences(y));
    assert |a| == |multiset(a)| == |b|;
    assert Confidences(Top(a)) == Take(Confidences(x), MAX_RESULTS);
    assert Confidences(Top(b)) == Take(Confidences(y), MAX_RESULTS);
  }

  /** The result holds the best: it is descending, as long as it can be, part of what was found, and
      has every match strictly better than its last as often as it was found. */
  lemma TopIsBest(s: seq<Match>, m: Match)
    ensures |Top(s)| == (if |s| < MAX_RESULTS then |s| else MAX_RESULTS)
    ensures Descending(Top(s))
    ensures multiset(Top(s)) <= multiset(s)
    ensures Top(s) != [] && m.confidence > Top(s)[|Top(s)| - 1].confidence ==> multiset(Top(s))[m] == multiset(s)[m]
  {
    SortDescending(s);
    var all, n := StableSort(s), |Top(s)|;
    CutDescending(all, n, m);
    assert Top(s) == all[..n];
  }

  lemma CutDescending(all: seq<Match>, n: nat, m: Match)
    requires Descending(all) && n <= |all|
    ensures multiset(all[..n]) <= multiset(all)
    ensures n > 0 && m.confidence > all[n - 1].confidence ==> multiset(all[..n])[m] == multiset(all)[m]
  {
    var cut := all[n..];
    assert all == all[..n] + cut;
    if n > 0 && m.confidence > all[n - 1].confidence {
      forall i | 0 <= i < |cut|
        ensures cut[i] != m
      {
        assert cut[i] == all[n + i];
      }
      assert m !in cut;
    }
  }

  /** The end of the search: matches appended part by part as goroutines finish, sorted, cut. */
  method Merge(parts: seq<seq<Match>>) returns (out: seq<Match>)
    ensures out == Top(Joined(parts))
  {
    out := [];
    for k := 0 to |parts|
      invariant out == Joined(parts[..k])
    {
      assert parts[..k + 1][..k] == parts[..k];
      out := out + parts[k];
    }
    assert parts[..|parts|] == parts;
    out := StableSort(out);
    if |out| > MAX_RESULTS {
      out := out[..MAX_RESULTS];
    }
  }

  function Joined(parts: seq<seq<Match>>): seq<Match> {
    if parts == [] then [] else Joined(parts[..|parts| - 1]) + parts[|parts| - 1]
  }

  /** For every interleaving of the goroutines the search returns the same confidences. */
  lemma ScheduleIndependent(r: Request, rows: Rows, schedule: seq<nat>, schedule': seq<nat>)
    requires r.Valid() && Schedules(r, schedule) && Schedules(r, schedule')
    requires AllFinished(Interleave(r, Start(r, rows), schedule))
    requires AllFinished(Interleave(r, Start(r, rows), schedule'))
    ensures Confidences(Top(Interleave(r, Start(r, rows), schedule).out)) ==
      Confidences(Top(Interleave(r, Start(r, rows), schedule').out))
  {
    SameMatches(r, rows, schedule, schedule');
    SameConfidences(Interleave(r, Start(r, rows), schedule).out, Interleave(r, Start(r, rows), schedule').out);
  }

  // ------------------------------------------------------------------ from goroutines to the result

  predicate Within(r: Request, order: seq<nat>) {
    forall k :: 0 <= k < |order| ==> order[k] < |r.sources|
  }

  /** What the sources find, in the order in which they finish. */
  function Parts(r: Request, rows: Rows, order: seq<nat>): seq<seq<Match>>
    requires Within(r, order)
  {
    seq(|order|, k requires 0 <= k < |order| => Alone(r, rows, order[k]))
  }

  predicate IsFinished(g: seq<Goroutine>, i: nat) {
    i < |g| && g[i].Finished?
  }

  /** `order` are the finished goroutines, each once. */
  ghost predicate Finishers(g: seq<Goroutine>, order: seq<nat>) {
    (forall i: nat :: i in order <==> IsFinished(g, i)) && Distinct(order)
  }

  /** And their parts, joined in that order, are the shared list. */
  ghost predicate FinishedIn(r: Request, rows: Rows, s: State, order: seq<nat>) {
    Finishers(s.goroutines, order) && Within(r, order) && s.out == Joined(Parts(r, rows, order))
  }

  lemma JoinedSnoc(parts: seq<seq<Match>>, part: seq<Match>)
    ensures Joined(parts + [part]) == Joined(parts) + part
  {
    assert (parts + [part])[..|parts|] == parts;
  }

  lemma FinishersAfter(g: seq<Goroutine>, i: nat, to: Goroutine, order: seq<nat>)
    requires Finishers(g, order) && i < |g| && !g[i].Finished?
    ensures Finishers(g[i := to], if to.Finished? then order + [i] else order)
  {
    var order' := if to.Finished? then order + [i] else order;
    assert !IsFinished(g, i);
    forall j: nat
      ensures j in order' <==> IsFinished(g[i := to], j)
    {
      assert j in order <==> IsFinished(g, j);
    }
  }

  lemma StepFinishes(r: Request, rows: Rows, s: State, i: nat, order: seq<nat>) returns (order': seq<nat>)
    requires r.Valid() && Consistent(r, rows, s) && i < |r.sources| && FinishedIn(r, rows, s, order)
    ensures FinishedIn(r, rows, StepOf(r, s, i), order')
  {
    order' := order;
    if !s.goroutines[i].Finished? {
      FinishersAfter(s.goroutines, i, StepOf(r, s, i).goroutines[i], order);
    }
    if s.goroutines[i].Holding? {
      order' := order + [i];
      assert Undisturbed(r, rows, s, i);
      JoinedSnoc(Parts(r, rows, order), Alone(r, rows, i));
      assert Parts(r, rows, order') == Parts(r, rows, order) + [Alone(r, rows, i)];
    }
  }

  /** Whatever the interleaving, the shared list is the sources' parts in some order of finishing: what
      `Merge` is given. */
  lemma {:induction false} FinishingOrder(r: Request, rows: Rows, s: State, schedule: seq<nat>, order: seq<nat>)
      returns (order': seq<nat>)
    requires r.Valid() && Consistent(r, rows, s) && Schedules(r, schedule) && FinishedIn(r, rows, s, order)
    ensures FinishedIn(r, rows, Interleave(r, s, schedule), order')
    decreases schedule
  {
    order' := order;
    if schedule != [] {
      var order1 := StepFinishes(r, rows, s, schedule[0], order);
      StepKeeps(r, rows, s, schedule[0]);
      order' := FinishingOrder(r, rows, StepOf(r, s, schedule[0]), schedule[1..], order1);
    }
  }

  /** The confidence of a candidate in a search for `text` on behalf of `original`. */
  function Scored(lib: Confidence.Library, text: Bytes, original: Option<Candidate>): Candidate -> int {
    (c: Candidate) => Confidence.Score(lib, text, c, original)
  }

  /** Every source once, in some order. */
  ghost predicate EachOnce(r: Request, order: seq<nat>) {
    (forall i: nat :: i in order <==> i < |r.sources|) && Distinct(order) && Within(r, order)
  }

  lemma {:induction false} JoinedFrom(parts: seq<seq<Match>>, m: Match)
    requires m in Joined(parts)
    ensures exists k :: 0 <= k < |parts| && m in parts[k]
  {
    var n := |parts| - 1;
    if m in parts[n] {
      assert 0 <= n < |parts|;
    } else {
      JoinedFrom(parts[..n], m);
      var k :| 0 <= k < n && m in parts[..n][k];
      assert parts[k] == parts[..n][k];
    }
  }

  lemma MatchIsScored(r: Request, rows: Rows, order: seq<nat>, m: Match)
    requires Within(r, order) && m in Joined(Parts(r, rows, order))
    ensures m.confidence == r.score(m.candidate) && m.source == m.candidate.source
  {
    JoinedFrom(Parts(r, rows, order), m);
    var k :| 0 <= k < |order| && m in Parts(r, rows, order)[k];
    assert m in Matches(r, order[k], Consult(r, rows, order[k]));
  }

  lemma TopFrom(s: seq<Match>, m: Match)
    requires m in Top(s)
    ensures m in s
  {
    TopIsBest(s, m);
    assert m in multiset(Top(s));
    assert m in multiset(s);
  }

  // ------------------------------------------------------------------ from answers to the result

  /** What the sources answer, each on its own. */
  function Answers(r: Request, rows: Rows): seq<seq<Candidate>> {
    seq(|r.sources|, i requires 0 <= i < |r.sources| => Answered(r, rows, i))
  }

  function Together(answers: seq<seq<Candidate>>): multiset<Candidate> {
    if answers == [] then multiset{} else Together(answers[..|answers| - 1]) + multiset(answers[|answers| - 1])
  }

  lemma {:induction false} RankedCount(score: Candidate -> int, cs: seq<Candidate>, out: seq<Match>, c: Candidate)
    requires Ranks(score, cs, out)
    ensures multiset(out)[Match(c.source, score(c), c)] == multiset(cs)[c]
  {
    if cs != [] {
      var n := |cs| - 1;
      RankedCount(score, cs[..n], out[..n], c);
      assert cs == cs[..n] + [cs[n]] && out == out[..n] + [out[n]];
    }
  }

  ghost predicate AllRank(score: Candidate -> int, answers: seq<seq<Candidate>>, parts: seq<seq<Match>>) {
    |answers| == |parts| && forall i :: 0 <= i < |parts| ==> Ranks(score, answers[i], parts[i])
  }

  lemma {:induction false} GatheredCount(score: Candidate -> int, answers: seq<seq<Candidate>>, parts: seq<seq<Match>>,
                                         g: seq<Goroutine>, n: nat, c: Candidate)
    requires AllRank(score, answers, parts) && n <= |parts| == |g| && forall i :: 0 <= i < n ==> g[i].Finished?
    ensures Gathered(parts, g, n)[Match(c.source, score(c), c)] == Together(answers[..n])[c]
  {
    if n > 0 {
      GatheredCount(score, answers, parts, g, n - 1, c);
      RankedCount(score, answers[n - 1], parts[n - 1], c);
      assert answers[..n][..n - 1] == answers[..n - 1];
    }
  }

  lemma {:induction false} GatheredSize(score: Candidate -> int, answers: seq<seq<Candidate>>, parts: seq<seq<Match>>,
                                        g: seq<Goroutine>, n: nat)
    requires AllRank(score, answers, parts) && n <= |parts| == |g| && forall i :: 0 <= i < n ==> g[i].Finished?
    ensures |Gathered(parts, g, n)| == |Together(answers[..n])|
  {
    if n > 0 {
      GatheredSize(score, answers, parts, g, n - 1);
      assert answers[..n][..n - 1] == answers[..n - 1];
      assert Ranks(score, answers[n - 1], parts[n - 1]);
    }
  }

  /** The matches are the candidates, scored, each as often. */
  ghost predicate Scores(score: Candidate -> int, all: multiset<Candidate>, out: multiset<Match>) {
    |out| == |all| && forall c: Candidate :: out[Match(c.source, score(c), c)] == all[c]
  }

  lemma AloneRanks(r: Request, rows: Rows, i: nat)
    requires i < |r.sources|
    ensures Ranks(r.score, Answered(r, rows, i), Alone(r, rows, i))
  {
  }

  lemma AllScored(r: Request, rows: Rows, s: State)
    requires Consistent(r, rows, s) && AllFinished(s)
    ensures Scores(r.score, Together(Answers(r, rows)), multiset(s.out))
  {
    var answers, parts, n := Answers(r, rows), AllAlone(r, rows), |r.sources|;
    forall i | 0 <= i < n
      ensures Ranks(r.score, answers[i], parts[i])
    {
      AloneRanks(r, rows, i);
    }
    assert answers[..n] == answers;
    GatheredSize(r.score, answers, parts, s.goroutines, n);
    forall c: Candidate
      ensures multiset(s.out)[Match(c.source, r.score(c), c)] == Together(answers)[c]
    {
      GatheredCount(r.score, answers, parts, s.goroutines, n, c);
    }
  }

  /** The best of all candidates: as many as there are, 20 at most, none more often than it was answered,
      and every one that scores above the last as often as it was answered. */
  ghost predicate BestOf(score: Candidate -> int, all: multiset<Candidate>, result: seq<Match>) {
    && |result| == (if |all| < 20 then |all| else 20)
    && (forall i, j :: 0 <= i < j < |result| ==> result[i].confidence >= result[j].confidence)
    && forall c: Candidate :: Kept(score, all, result, c)
  }

  predicate Kept(score: Candidate -> int, all: multiset<Candidate>, result: seq<Match>, c: Candidate) {
    var m := Match(c.source, score(c), c);
    && multiset(result)[m] <= all[c]
    && (result != [] && score(c) > result[|result| - 1].confidence ==> multiset(result)[m] == all[c])
  }

  lemma TopIsBestOf(score: Candidate -> int, all: multiset<Candidate>, s: seq<Match>)
    requires Scores(score, all, multiset(s))
    ensures BestOf(score, all, Top(s))
  {
    forall c: Candidate
      ensures Kept(score, all, Top(s), c)
    {
      TopIsBest(s, Match(c.source, score(c), c));
    }
    var any: Match := *;
    TopIsBest(s, any);
    assert |multiset(s)| == |s|;
  }

  lemma AllInOrder(r: Request, s: State, order: seq<nat>)
    requires |s.goroutines| == |r.sources| && AllFinished(s) && Finishers(s.goroutines, order) && Within(r, order)
    ensures EachOnce(r, order)
  {
    forall i: nat
      ensures i in order <==> i < |r.sources|
    {
      assert i in order <==> IsFinished(s.goroutines, i);
    }
  }

  lemma SearchOrder(r: Request, rows: Rows, schedule: seq<nat>) returns (order: seq<nat>)
    requires r.Valid() && Schedules(r, schedule) && AllFinished(Interleave(r, Start(r, rows), schedule))
    ensures EachOnce(r, order)
    ensures Interleave(r, Start(r, rows), schedule).out == Joined(Parts(r, rows, order))
  {
    var start := Start(r, rows);
    NothingGathered(AllAlone(r, rows), start.goroutines, |r.sources|);
    order := FinishingOrder(r, rows, start, schedule, []);
    InterleavingKeeps(r, rows, start, schedule);
    AllInOrder(r, Interleave(r, start, schedule), order);
  }

  lemma SearchBest(r: Request, rows: Rows, schedule: seq<nat>)
    requires r.Valid() && Schedules(r, schedule) && AllFinished(Interleave(r, Start(r, rows), schedule))
    ensures BestOf(r.score, Together(Answers(r, rows)), Top(Interleave(r, Start(r, rows), schedule).out))
  {
    var start := Start(r, rows);
    NothingGathered(AllAlone(r, rows), start.goroutines, |r.sources|);
    InterleavingKeeps(r, rows, start, schedule);
    AllScored(r, rows, Interleave(r, start, schedule));
    TopIsBestOf(r.score, Together(Answers(r, rows)), Interleave(r, start, schedule).out);
  }

  /** The match carries its candidate's source and confidence, a percentage. */
  predicate Faithful(lib: Confidence.Library, text: Bytes, original: Option<Candidate>, m: Match) {
    && m.source == m.candidate.source
    && 0 <= m.confidence == Confidence.Score(lib, text, m.candidate, original) <= 100
  }

  lemma TopIsFaithful(r: Request, rows: Rows, lib: Confidence.Library, original: Option<Candidate>, order: seq<nat>,
                      m: Match)
    requires Within(r, order) && r.score == Scored(lib, r.text, original) && m in Top(Joined(Parts(r, rows, order)))
    ensures Faithful(lib, r.text, original, m)
  {
    TopFrom(Joined(Parts(r, rows, order)), m);
    MatchIsScored(r, rows, order, m);
  }

  /** The whole search: for every interleaving the result is the merge of what each source finds, each
      once, in the order they happen to finish; it is the best of all candidates answered; every match
      in it carries its candidate's source and confidence, a percentage; and the confidences are those of
      any other interleaving. */
  lemma SearchResult(r: Request, rows: Rows, lib: Confidence.Library, original: Option<Candidate>,
                     schedule: seq<nat>, schedule': seq<nat>) returns (order: seq<nat>)
    requires r.Valid() && Schedules(r, schedule) && Schedules(r, schedule')
    requires r.score == Scored(lib, r.text, original)
    requires AllFinished(Interleave(r, Start(r, rows), schedule))
    requires AllFinished(Interleave(r, Start(r, rows), schedule'))
    ensures EachOnce(r, order)
    ensures var result := Top(Interleave(r, Start(r, rows), schedule).out);
      && result == Top(Joined(Parts(r, rows, order)))
      && Confidences(result) == Confidences(Top(Interleave(r, Start(r, rows), schedule').out))
      && BestOf(r.score, Together(Answers(r, rows)), result)
      && forall m :: m in result ==> Faithful(lib, r.text, original, m)
  {
    order := SearchOrder(r, rows, schedule);
    SearchBest(r, rows, schedule);
    ScheduleIndependent(r, rows, schedule, schedule');
    forall m | m in Top(Joined(Parts(r, rows, order)))
      ensures Faithful(lib, r.text, original, m)
    {
      TopIsFaithful(r, rows, lib, original, order, m);
    }
  }
}
