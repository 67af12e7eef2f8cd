/** Walk after walk: identity, idempotence, conservation, and the one file that does stop a walk. */
module ScanRuns {
  import opened Text
  import opened Orders
  import opened Scan
  import opened Reconcile
  import StableId

  // ------------------------------------------------------------------ identity over runs

  /** One walk of a run: of any library, over any tree, with any faults. */
  datatype Call = Call(p: Params, root: Bytes, visits: seq<Visit>, order: seq<Bytes>)

  ghost predicate Runs(hash: StableId.Hash, db: Db, calls: seq<Call>)
    decreases calls
  {
    calls == [] ||
    (var c := calls[0];
     && c.p.hash == hash && Iterates(c.order, RefsOf(db.books, c.p.library))
     && Runs(hash, AfterWalk(c.p, c.root, db, c.visits, c.order).state.db, calls[1..]))
  }

  ghost function AfterRun(hash: StableId.Hash, db: Db, calls: seq<Call>): Db
    requires Runs(hash, db, calls)
    decreases calls
  {
    if calls == [] then db
    else var c := calls[0]; AfterRun(hash, AfterWalk(c.p, c.root, db, c.visits, c.order).state.db, calls[1..])
  }

  ghost predicate IdsKept(a: Books, b: Books) {
    forall k :: k in a ==> k in b && b[k].id == a[k].id
  }

  lemma IdsKeptTransitive(a: Books, b: Books, c: Books)
    requires IdsKept(a, b) && IdsKept(b, c)
    ensures IdsKept(a, c)
  {
  }

  lemma {:induction false} RunKeepsIds(hash: StableId.Hash, db: Db, calls: seq<Call>)
    requires Consistent(hash, db.books) && Runs(hash, db, calls)
    ensures Consistent(hash, AfterRun(hash, db, calls).books)
    ensures IdsKept(db.books, AfterRun(hash, db, calls).books)
    decreases calls
  {
    if calls != [] {
      var c := calls[0];
      var next := AfterWalk(c.p, c.root, db, c.visits, c.order).state.db;
      WalkKeepsIdentity(c.p, c.root, db, c.visits, c.order);
      RunKeepsIds(hash, next, calls[1..]);
      IdsKeptTransitive(db.books, next.books, AfterRun(hash, next, calls[1..]).books);
    }
  }

  /** Across any walks, soft deletes and returns, complete or stopped: the id of a (library, path) row
      never changes, every id is a StableID of its own path, and different rows have different ids. */
  lemma StableIdentity(hash: StableId.Hash, db: Db, calls: seq<Call>)
    requires Consistent(hash, db.books) && Runs(hash, db, calls)
    ensures var b := AfterRun(hash, db, calls).books;
      && (forall k :: k in db.books ==> k in b && b[k].id == db.books[k].id)
      && (forall k :: k in b ==> StableId.BelongsTo(hash, b[k].id, k.path))
      && (forall j, k :: j in b && k in b && j != k ==> b[j].id != b[k].id)
  {
    RunKeepsIds(hash, db, calls);
  }

  /** Rows at different paths would have different ids even if no primary key enforced it. */
  lemma DifferentPathsDifferentIds(hash: StableId.Hash, books: Books, j: Place, k: Place)
    requires StableId.CollisionFree(hash) && j in books && k in books && j.path != k.path
    requires StableId.BelongsTo(hash, books[j].id, j.path) && StableId.BelongsTo(hash, books[k].id, k.path)
    ensures books[j].id != books[k].id
  {
    if books[j].id == books[k].id {
      StableId.OnePath(hash, books[j].id, j.path, k.path);
    }
  }

  // ------------------------------------------------------------------ idempotence

  lemma {:induction false} TreeReadable(p: Params, refs: map<Bytes, Ref>, s: State, visits: seq<Visit>)
    requires AfterTree(p, refs, s, visits).ok
    ensures forall v :: v in visits ==> v.Entry?
    decreases visits
  {
    if visits != [] {
      TreeReadable(p, refs, AfterVisit(p, refs, s, visits[0]).state, visits[1..]);
      assert forall v :: v in visits <==> v == visits[0] || v in visits[1..];
    }
  }

  lemma {:induction false} NothingToIngest(p: Params, refs: map<Bytes, Ref>, s: State, visits: seq<Visit>)
    requires forall v :: v in visits ==> v.Entry? && !Ingests(p, refs, v)
    ensures AfterTree(p, refs, s, visits).ok
    ensures AfterTree(p, refs, s, visits).state.db == s.db && AfterTree(p, refs, s, visits).state.res == s.res
    decreases visits
  {
    if visits != [] {
      assert visits[0] in visits;
      assert forall v :: v in visits[1..] ==> v in visits;
      NothingToIngest(p, refs, Seeing(refs, s, visits[0]), visits[1..]);
    }
  }

  lemma {:induction false} NothingToDelete(p: Params, refs: map<Bytes, Ref>, s: State, order: seq<Bytes>)
    requires forall q :: q in order ==> q in refs && refs[q].id in s.seen
    ensures AfterDeletes(p, refs, s, order) == Progress(true, s)
    decreases order
  {
    if order != [] {
      assert order[0] in order;
      DeletesStep(p, refs, s, order);
      assert forall q :: q in order[1..] ==> q in order;
      NothingToDelete(p, refs, s, order[1..]);
    }
  }

  /** After a walk without error, another walk of the same tree writes nothing, enqueues nothing and
      reports zeros, whatever order it takes the map in and whatever statement but the first fails. */
  lemma SecondWalkDoesNothing(p: Params, root: Bytes, db: Db, visits: seq<Visit>, order: seq<Bytes>,
                              again: Params, order2: seq<Bytes>)
    requires StableId.CollisionFree(p.hash) && Consistent(p.hash, db.books)
    requires DistinctPaths(visits) && Iterates(order, RefsOf(db.books, p.library))
    requires AfterWalk(p, root, db, visits, order).ok
    requires again.hash == p.hash && again.library == p.library && !again.faults(ListRefs)
    requires Iterates(order2, RefsOf(AfterWalk(p, root, db, visits, order).state.db.books, p.library))
    ensures var db1 := AfterWalk(p, root, db, visits, order).state.db;
      var second := AfterWalk(again, root, db1, visits, order2);
      second.ok && second.state.db == db1 && second.state.res == NOTHING
  {
    var db1 := AfterWalk(p, root, db, visits, order).state.db;
    Reconciled(p, root, db, visits, order);
    TreeReadable(p, RefsOf(db.books, p.library), State(db, {}, NOTHING), visits);
    IdleWalk(p, db.books, again, root, db1, visits, order2);
  }

  /** A walk over a table that is reconciled with the tree. */
  lemma IdleWalk(p: Params, before: Books, again: Params, root: Bytes, db1: Db, visits: seq<Visit>, order2: seq<Bytes>)
    requires again.hash == p.hash && again.library == p.library && !again.faults(ListRefs) && root != []
    requires Iterates(order2, RefsOf(db1.books, p.library))
    requires forall v :: v in visits ==> v.Entry?
    requires forall v: Visit :: v in visits && v.Usable() ==> Ingested(p, before, db1.books, v)
    requires forall path :: Active(db1.books, p.library, path) <==> MetAndGood(p, before, visits, path)
    ensures AfterWalk(again, root, db1, visits, order2).ok
    ensures AfterWalk(again, root, db1, visits, order2).state.db == db1
    ensures AfterWalk(again, root, db1, visits, order2).state.res == NOTHING
  {
    var refs, start := RefsOf(db1.books, p.library), State(db1, {}, NOTHING);
    forall v | v in visits
      ensures v.Entry? && !Ingests(again, refs, v)
    {
      if v.Usable() {
        assert Ingested(p, before, db1.books, v);
        RefsOfBooks(p, db1.books, v.path);
      }
    }
    NothingToIngest(again, refs, start, visits);
    var tree := AfterTree(again, refs, start, visits);
    MetMeansSeen(again, db1, visits, tree);
    forall q | q in order2
      ensures refs[q].id in tree.state.seen
    {
      RefsOfBooks(p, db1.books, q);
      assert MetAndGood(p, before, visits, q);
    }
    NothingToDelete(again, refs, tree.state, order2);
  }

  // ------------------------------------------------------------------ conservation

  lemma ActiveAfterWrite(books: Books, library: int, path: Bytes, row: Row)
    requires !row.deleted
    ensures ActivePaths(books[Place(library, path) := row], library) == ActivePaths(books, library) + {path}
  {
    var after := books[Place(library, path) := row];
    forall q
      ensures q in ActivePaths(after, library) <==> q in ActivePaths(books, library) + {path}
    {
      InActivePaths(after, library, q);
      InActivePaths(books, library, q);
    }
  }

  lemma InActivePaths(books: Books, library: int, path: Bytes)
    ensures path in ActivePaths(books, library) <==> Active(books, library, path)
  {
    if Active(books, library, path) {
      assert Place(library, path).path in ActivePaths(books, library);
    }
  }

  function Calls(p: Params, r: WalkResult): nat {
    if p.queue then r.added + r.changed else 0
  }

  /** For the paths still to come, the refs say what is active now. */
  ghost predicate RefsCurrent(p: Params, refs: map<Bytes, Ref>, books: Books, visits: seq<Visit>) {
    forall v: Visit :: v in visits && v.Entry? ==> (Known(refs, v) <==> v.path in ActivePaths(books, p.library))
  }

  lemma VisitCounts(p: Params, refs: map<Bytes, Ref>, s: State, v: Visit)
    requires v.Entry? ==> (Known(refs, v) <==> v.path in ActivePaths(s.db.books, p.library))
    requires AfterVisit(p, refs, s, v).ok
    ensures var t := AfterVisit(p, refs, s, v).state;
      && |ActivePaths(t.db.books, p.library)| + s.res.added == |ActivePaths(s.db.books, p.library)| + t.res.added
      && |t.db.enqueued| + Calls(p, s.res) == |s.db.enqueued| + Calls(p, t.res)
      && t.res.deleted == s.res.deleted
      && (forall q :: v.Entry? && q != v.path ==>
        (q in ActivePaths(t.db.books, p.library) <==> q in ActivePaths(s.db.books, p.library)))
  {
    VisitBooks(p, refs, s, v);
    if Ingests(p, refs, v) {
      var books, row := s.db.books, RowFor(p, refs, v);
      var written := if Place(p.library, v.path) in books then row.(id := books[Place(p.library, v.path)].id) else row;
      ActiveAfterWrite(books, p.library, v.path, written);
    }
  }

  lemma {:induction false} TreeCounts(p: Params, refs: map<Bytes, Ref>, s: State, visits: seq<Visit>)
    requires DistinctPaths(visits) && RefsCurrent(p, refs, s.db.books, visits)
    requires AfterTree(p, refs, s, visits).ok
    ensures var t := AfterTree(p, refs, s, visits).state;
      && |ActivePaths(t.db.books, p.library)| + s.res.added == |ActivePaths(s.db.books, p.library)| + t.res.added
      && |t.db.enqueued| + Calls(p, s.res) == |s.db.enqueued| + Calls(p, t.res)
      && t.res.deleted == s.res.deleted
    decreases visits
  {
    if visits != [] {
      assert visits[0] in visits;
      VisitCounts(p, refs, s, visits[0]);
      DistinctTail(visits);
      var next := AfterVisit(p, refs, s, visits[0]).state;
      assert RefsCurrent(p, refs, next.db.books, visits[1..]) by {
        assert forall v :: v in visits[1..] ==> v in visits;
      }
      TreeCounts(p, refs, next, visits[1..]);
    }
  }

  /** The rows still to be deleted are active. */
  ghost predicate ToDelete(p: Params, refs: map<Bytes, Ref>, s: State, order: seq<Bytes>) {
    forall q :: q in order ==> q in refs && (refs[q].id !in s.seen ==> q in ActivePaths(s.db.books, p.library))
  }

  lemma DeleteCounts(p: Params, refs: map<Bytes, Ref>, s: State, q: Bytes)
    requires Consistent(p.hash, s.db.books) && RefsAgree(p, refs, s.db.books)
    requires q in refs && q in ActivePaths(s.db.books, p.library)
    ensures ActivePaths(MarkDeleted(s.db.books, refs[q].id), p.library) == ActivePaths(s.db.books, p.library) - {q}
  {
    var marked := MarkDeleted(s.db.books, refs[q].id);
    assert s.db.books[Place(p.library, q)].id == refs[q].id;
    forall r
      ensures r in ActivePaths(marked, p.library) <==> r in ActivePaths(s.db.books, p.library) - {q}
    {
      InActivePaths(marked, p.library, r);
      InActivePaths(s.db.books, p.library, r);
    }
  }

  /** One delete takes one path out, and leaves the others to be deleted as they were. */
  lemma DeletingOne(p: Params, refs: map<Bytes, Ref>, s: State, order: seq<Bytes>)
    requires Consistent(p.hash, s.db.books) && RefsAgree(p, refs, s.db.books)
    requires order != [] && Distinct(order) && ToDelete(p, refs, s, order) && refs[order[0]].id !in s.seen
    ensures var s1 := Deleting(s, refs[order[0]].id);
      && Consistent(p.hash, s1.db.books) && RefsAgree(p, refs, s1.db.books)
      && ToDelete(p, refs, s1, order[1..])
      && |ActivePaths(s1.db.books, p.library)| + 1 == |ActivePaths(s.db.books, p.library)|
  {
    assert order[0] in order;
    DeleteCounts(p, refs, s, order[0]);
    MarkOne(p, refs, s.seen, s.db.books, order[0]);
    RestOfDistinct(order);
  }

  lemma RestOfDistinct(order: seq<Bytes>)
    requires Distinct(order) && order != []
    ensures Distinct(order[1..])
    ensures forall r :: r in order[1..] ==> r in order && r != order[0]
  {
    var rest := order[1..];
    assert forall i :: 0 <= i < |rest| ==> rest[i] == order[i + 1];
  }

  lemma {:induction false} DeletesCount(p: Params, refs: map<Bytes, Ref>, s: State, order: seq<Bytes>)
    requires Consistent(p.hash, s.db.books) && RefsAgree(p, refs, s.db.books)
    requires Distinct(order) && ToDelete(p, refs, s, order)
    requires AfterDeletes(p, refs, s, order).ok
    ensures var t := AfterDeletes(p, refs, s, order).state;
      && |ActivePaths(t.db.books, p.library)| + t.res.deleted == |ActivePaths(s.db.books, p.library)| + s.res.deleted
      && t.res.added == s.res.added && t.res.changed == s.res.changed && t.db.enqueued == s.db.enqueued
    decreases order
  {
    if order != [] {
      var rest := order[1..];
      assert order[0] in order;
      RestOfDistinct(order);
      DeletesStep(p, refs, s, order);
      if refs[order[0]].id in s.seen {
        DeletesCount(p, refs, s, rest);
      } else {
        DeletingOne(p, refs, s, order);
        DeletesCount(p, refs, Deleting(s, refs[order[0]].id), rest);
      }
    }
  }

  /** In a walk without error, the active rows of the library grow by Added and shrink by Deleted, and
      with a queue the enrichment calls are as many as Added and Changed together. */
  lemma Conserved(p: Params, root: Bytes, db: Db, visits: seq<Visit>, order: seq<Bytes>)
    requires Consistent(p.hash, db.books) && DistinctPaths(visits)
    requires Iterates(order, RefsOf(db.books, p.library))
    requires AfterWalk(p, root, db, visits, order).ok
    ensures var done := AfterWalk(p, root, db, visits, order).state;
      && |ActivePaths(done.db.books, p.library)| + done.res.deleted ==
        |ActivePaths(db.books, p.library)| + done.res.added
      && |done.db.enqueued| == |db.enqueued| + Calls(p, done.res)
  {
    var refs, start := RefsOf(db.books, p.library), State(db, {}, NOTHING);
    var tree := AfterTree(p, refs, start, visits);
    TreeFacts(p, db, visits, tree);
    TreeCounts(p, refs, start, visits);
    forall q | q in order
      ensures q in ActivePaths(tree.state.db.books, p.library)
    {
      RefsOfBooks(p, db.books, q);
      InActivePaths(tree.state.db.books, p.library, q);
    }
    DeletesCount(p, refs, tree.state, order);
  }

  // ------------------------------------------------------------------ what stops a walk

  /** No other library has a row at this path, as when library roots are disjoint. */
  predicate OnlyHere(books: Books, library: int, path: Bytes) {
    forall k :: k in books && k.path == path ==> k.library == library
  }

  /** A file that left the library, so that its row is soft-deleted, and comes back changed. */
  predicate ReturnsChanged(p: Params, books: Books, v: Visit)
    requires v.Usable()
  {
    var k := Place(p.library, v.path);
    k in books && books[k].deleted && books[k].id != v.Signature(p.hash)
  }

  predicate HasDependents(parsed: Parsed) {
    parsed.chapters != [] || parsed.cover.bytes != []
  }

  /** What the tables refuse of any book; the parsers yield nothing of the kind. */
  predicate IllFormed(parsed: Parsed) {
    !IndexesDistinct(parsed.chapters)
    || (parsed.cover.bytes != [] && !SourceAdmitted(Sourced(parsed.cover).source))
  }

  /** The visit stops a walk that began with `before`. */
  predicate Stops(p: Params, before: Books, v: Visit) {
    || v.Unreadable?
    || (Ingests(p, RefsOf(before, p.library), v) && IllFormed(v.parsed.value))
    || (v.Usable() && ReturnsChanged(p, before, v) && HasDependents(v.parsed.value))
  }

  /** At the path of `v` the table is as it was when the walk read its refs. */
  ghost predicate NotYetVisited(p: Params, before: Books, books: Books, v: Visit) {
    v.Entry? ==> SameAt(before, books, Place(p.library, v.path)) && OnlyHere(books, p.library, v.path)
  }

  lemma WriteStopsExactly(p: Params, db: Db, id: Bytes, at: Place, row: Row, parsed: Parsed)
    requires forall st :: !p.faults(st)
    requires row.id == id && forall j :: j in db.books && j != at ==> db.books[j].id != id
    ensures !Write(p, db, id, at, row, parsed).0 <==>
      IllFormed(parsed) || (at in db.books && db.books[at].id != id && HasDependents(parsed))
  {
    var up := UpsertRow(db.books, at, row);
    assert up.Ok?;
    if at in db.books && db.books[at].id != id {
      assert !IdUsed(up.value, id);
    } else {
      assert up.value[at].id == id;
    }
  }

  /** The id a visit writes under is, if any row's, that of the row at its own path. */
  lemma IdIsOwn(p: Params, before: Books, books: Books, v: Visit)
    requires StableId.CollisionFree(p.hash) && Consistent(p.hash, books) && NotYetVisited(p, before, books, v)
    requires Ingests(p, RefsOf(before, p.library), v)
    ensures var k, id := Place(p.library, v.path), IdFor(p, RefsOf(before, p.library), v);
      && (forall j :: j in books && j != k ==> books[j].id != id)
      && (k in books && books[k].id != id <==> ReturnsChanged(p, before, v))
  {
    var refs, k := RefsOf(before, p.library), Place(p.library, v.path);
    RefsOfBooks(p, before, v.path);
    forall j | j in books && books[j].id == v.Signature(p.hash)
      ensures j == k
    {
      SignatureBelongs(p.hash, v);
      StableId.OnePath(p.hash, books[j].id, j.path, v.path);
    }
  }

  /** With a database that answers every statement, a visit stops the walk exactly if it is an error of
      the tree, or its file is new or changed and ill-formed, or its file returns changed and has a
      chapter or a cover: those are written under its new signature, the row keeps its old id, and the
      foreign key refuses them. */
  lemma VisitStopsExactly(p: Params, before: Books, s: State, v: Visit)
    requires StableId.CollisionFree(p.hash) && Consistent(p.hash, s.db.books)
    requires NotYetVisited(p, before, s.db.books, v) && forall st :: !p.faults(st)
    ensures AfterVisit(p, RefsOf(before, p.library), s, v).ok <==> !Stops(p, before, v)
  {
    var refs := RefsOf(before, p.library);
    if v.Entry? {
      RefsOfBooks(p, before, v.path);
      if Ingests(p, refs, v) {
        IdIsOwn(p, before, s.db.books, v);
        WriteStopsExactly(p, s.db, IdFor(p, refs, v), Place(p.library, v.path), RowFor(p, refs, v), v.parsed.value);
      }
    }
  }

  /** A visit leaves the paths still to come as they were. */
  lemma LaterNotYetVisited(p: Params, before: Books, s: State, v: Visit, later: Visit)
    requires NotYetVisited(p, before, s.db.books, later) && (later.Entry? && v.Entry? ==> later.path != v.path)
    ensures NotYetVisited(p, before, AfterVisit(p, RefsOf(before, p.library), s, v).state.db.books, later)
  {
    var refs := RefsOf(before, p.library);
    var books, next := s.db.books, AfterVisit(p, refs, s, v).state.db.books;
    VisitKeeps(p, refs, s, v);
    if later.Entry? {
      assert SameAt(books, next, Place(p.library, later.path));
      forall k | k in next && k.path == later.path
        ensures k.library == p.library
      {
        assert Touches(p, refs, v, k) || SameAt(books, next, k);
      }
    }
  }

  lemma {:induction false} TreeStopsExactly(p: Params, before: Books, s: State, visits: seq<Visit>)
    requires StableId.CollisionFree(p.hash) && Consistent(p.hash, s.db.books) && forall st :: !p.faults(st)
    requires DistinctPaths(visits) && forall v :: v in visits ==> NotYetVisited(p, before, s.db.books, v)
    ensures AfterTree(p, RefsOf(before, p.library), s, visits).ok <==>
      forall v :: v in visits ==> !Stops(p, before, v)
    decreases visits
  {
    if visits != [] {
      var refs, first, rest := RefsOf(before, p.library), visits[0], visits[1..];
      assert forall v :: v in visits <==> v == first || v in rest;
      VisitStopsExactly(p, before, s, first);
      if first.Entry? && !Stops(p, before, first) {
        RefsOfBooks(p, before, first.path);
        VisitConsistent(p, refs, s, first);
        DistinctTail(visits);
        var next := AfterVisit(p, refs, s, first).state;
        forall v | v in rest
          ensures NotYetVisited(p, before, next.db.books, v)
        {
          LaterNotYetVisited(p, before, s, first, v);
        }
        TreeStopsExactly(p, before, next, rest);
      }
    }
  }

  lemma {:induction false} DeletesSucceed(p: Params, refs: map<Bytes, Ref>, s: State, order: seq<Bytes>)
    requires (forall q :: q in order ==> q in refs) && forall st :: !p.faults(st)
    ensures AfterDeletes(p, refs, s, order).ok
    decreases order
  {
    if order != [] {
      DeletesStep(p, refs, s, order);
      var id := refs[order[0]].id;
      DeletesSucceed(p, refs, if id in s.seen then s else Deleting(s, id), order[1..]);
    }
  }

  /** With a database that answers every statement, a walk returns without error exactly if it has a
      root and no visit stops it. */
  lemma WalkStopsExactly(p: Params, root: Bytes, db: Db, visits: seq<Visit>, order: seq<Bytes>)
    requires StableId.CollisionFree(p.hash) && Consistent(p.hash, db.books) && forall st :: !p.faults(st)
    requires DistinctPaths(visits) && Iterates(order, RefsOf(db.books, p.library))
    requires forall v: Visit :: v in visits && v.Entry? ==> OnlyHere(db.books, p.library, v.path)
    ensures AfterWalk(p, root, db, visits, order).ok <==>
      root != [] && forall v :: v in visits ==> !Stops(p, db.books, v)
  {
    var refs, start := RefsOf(db.books, p.library), State(db, {}, NOTHING);
    var tree := AfterTree(p, refs, start, visits);
    forall v | v in visits
      ensures NotYetVisited(p, db.books, start.db.books, v)
    {
    }
    TreeStopsExactly(p, db.books, start, visits);
    DeletesSucceed(p, refs, tree.state, order);
    WalkOfTree(p, root, db, visits, order, tree);
  }

  lemma WalkOfTree(p: Params, root: Bytes, db: Db, visits: seq<Visit>, order: seq<Bytes>, tree: Progress)
    requires TreeDone(p, db, visits, tree) && forall q :: q in order ==> q in RefsOf(db.books, p.library)
    requires !p.faults(ListRefs) && AfterDeletes(p, RefsOf(db.books, p.library), tree.state, order).ok
    ensures AfterWalk(p, root, db, visits, order).ok <==> root != [] && tree.ok
  {
  }

  // ------------------------------------------------------------------ a file that stops a walk

  const NO_DB := Db(map[], map[], map[], [])

  ghost predicate OneLibrary(books: Books, library: int) {
    forall k: Place :: k in books ==> k.library == library
  }

  /** A table with just the row of `v`. */
  ghost predicate JustRow(p: Params, books: Books, v: Visit)
    requires v.Usable()
  {
    && Consistent(p.hash, books) && OneLibrary(books, p.library)
    && Iterates([v.path], RefsOf(books, p.library))
    && Place(p.library, v.path) in books
    && books[Place(p.library, v.path)].id == v.Signature(p.hash)
  }

  /** From an empty table, a walk that meets just one file has just its row. */
  lemma FirstFile(p: Params, root: Bytes, v: Visit)
    requires StableId.CollisionFree(p.hash) && (forall st :: !p.faults(st)) && root != []
    requires v.Usable() && !IllFormed(v.parsed.value)
    ensures Iterates([], RefsOf(map[], p.library))
    ensures AfterWalk(p, root, NO_DB, [v], []).ok
    ensures JustRow(p, AfterWalk(p, root, NO_DB, [v], []).state.db.books, v)
  {
    var visits := [v];
    assert visits[0] == v;
    assert forall u :: u in visits ==> u == v;
    WalkStopsExactly(p, root, NO_DB, visits, []);
    Reconciled(p, root, NO_DB, visits, []);
    WalkKeepsIdentity(p, root, NO_DB, visits, []);
    FirstRow(p, AfterWalk(p, root, NO_DB, visits, []).state.db.books, visits, v);
  }

  lemma FirstRow(p: Params, books: Books, visits: seq<Visit>, v: Visit)
    requires visits == [v] && v.Usable() && Consistent(p.hash, books) && Ingested(p, map[], books, v)
    requires forall path :: Active(books, p.library, path) <==> MetAndGood(p, map[], visits, path)
    requires forall k: Place :: k.library != p.library ==> SameAt(map[], books, k)
    ensures JustRow(p, books, v)
  {
    OnlyPathIsRef(p, books, visits, v);
    OneLibraryKept(p, map[], books);
  }

  lemma OneLibraryKept(p: Params, a: Books, b: Books)
    requires OneLibrary(a, p.library) && forall k: Place :: k.library != p.library ==> SameAt(a, b, k)
    ensures OneLibrary(b, p.library)
  {
    forall k: Place | k in b
      ensures k.library == p.library
    {
      assert k.library == p.library || SameAt(a, b, k);
    }
  }

  lemma OnlyPathIsRef(p: Params, books: Books, visits: seq<Visit>, v: Visit)
    requires visits == [v] && v.Usable()
    requires forall path :: Active(books, p.library, path) <==> MetAndGood(p, map[], visits, path)
    ensures Iterates([v.path], RefsOf(books, p.library))
  {
    assert v in visits;
    assert MetAndGood(p, map[], visits, v.path);
    forall q
      ensures q in RefsOf(books, p.library) <==> q == v.path
    {
      RefsOfBooks(p, books, q);
    }
  }

  lemma NothingMet(p: Params, before: Books, path: Bytes)
    ensures !MetAndGood(p, before, [], path)
  {
  }

  lemma EmptyTreeLeavesNone(p: Params, root: Bytes, db: Db, order: seq<Bytes>)
    requires StableId.CollisionFree(p.hash) && (forall st :: !p.faults(st)) && root != []
    requires Consistent(p.hash, db.books) && OneLibrary(db.books, p.library)
    requires Iterates(order, RefsOf(db.books, p.library))
    ensures var done := AfterWalk(p, root, db, [], order);
      && done.ok && OneLibrary(done.state.db.books, p.library)
      && forall path :: !Active(done.state.db.books, p.library, path)
  {
    WalkStopsExactly(p, root, db, [], order);
    Reconciled(p, root, db, [], order);
    var b := AfterWalk(p, root, db, [], order).state.db.books;
    OneLibraryKept(p, db.books, b);
    forall path
      ensures !Active(b, p.library, path)
    {
      NothingMet(p, db.books, path);
    }
  }

  /** A table whose rows are those of `a`, with their ids, and all deleted. */
  ghost predicate AllDeleted(p: Params, a: Books, b: Books) {
    && Consistent(p.hash, b) && OneLibrary(b, p.library) && Iterates([], RefsOf(b, p.library))
    && forall k :: k in a ==> k in b && b[k].deleted && b[k].id == a[k].id
  }

  /** A walk of an empty tree soft-deletes every row of the library. */
  lemma EmptyTree(p: Params, root: Bytes, db: Db, order: seq<Bytes>)
    requires StableId.CollisionFree(p.hash) && (forall st :: !p.faults(st)) && root != []
    requires Consistent(p.hash, db.books) && OneLibrary(db.books, p.library)
    requires Iterates(order, RefsOf(db.books, p.library))
    ensures AfterWalk(p, root, db, [], order).ok
    ensures AllDeleted(p, db.books, AfterWalk(p, root, db, [], order).state.db.books)
  {
    EmptyTreeLeavesNone(p, root, db, order);
    WalkKeepsIdentity(p, root, db, [], order);
    NoneActive(p, db.books, AfterWalk(p, root, db, [], order).state.db.books);
  }

  lemma NoneActive(p: Params, a: Books, b: Books)
    requires Consistent(p.hash, b) && OneLibrary(b, p.library)
    requires forall path :: !Active(b, p.library, path)
    requires forall k :: k in a ==> k in b && b[k].id == a[k].id
    ensures AllDeleted(p, a, b)
  {
    forall q
      ensures q !in RefsOf(b, p.library)
    {
      RefsOfBooks(p, b, q);
    }
    forall k | k in a
      ensures b[k].deleted
    {
      assert !Active(b, p.library, k.path);
    }
  }

  lemma BackStops(p: Params, root: Bytes, db: Db, v: Visit, v': Visit)
    requires StableId.CollisionFree(p.hash) && (forall st :: !p.faults(st)) && v.Usable() && v'.Usable()
    requires v.path == v'.path && HasDependents(v'.parsed.value)
    requires v.info.value.size != v'.info.value.size || v.info.value.mtime != v'.info.value.mtime
    requires Consistent(p.hash, db.books) && OneLibrary(db.books, p.library)
    requires Iterates([], RefsOf(db.books, p.library))
    requires Place(p.library, v.path) in db.books && db.books[Place(p.library, v.path)].deleted
    requires db.books[Place(p.library, v.path)].id == v.Signature(p.hash)
    ensures !AfterWalk(p, root, db, [v'], []).ok
  {
    StableId.EncodingInjective(v.path, v.info.value.size, v.info.value.mtime,
                               v'.path, v'.info.value.size, v'.info.value.mtime);
    assert Stops(p, db.books, v');
    var visits := [v'];
    assert visits[0] == v';
    WalkStopsExactly(p, root, db, visits, []);
  }

  /** From an empty table, with a database that answers every statement: a file that can be read is
      there, is gone, and is back with another size or time and a chapter or a cover.  The first two
      walks return without error and the third does not. */
  lemma ReturningFileStopsWalk(p: Params, root: Bytes, v: Visit, v': Visit)
    requires StableId.CollisionFree(p.hash) && (forall st :: !p.faults(st)) && root != []
    requires v.Usable() && v'.Usable() && v.path == v'.path
    requires !IllFormed(v.parsed.value) && HasDependents(v'.parsed.value)
    requires v.info.value.size != v'.info.value.size || v.info.value.mtime != v'.info.value.mtime
    ensures Iterates([], RefsOf(NO_DB.books, p.library))
    ensures var there := AfterWalk(p, root, NO_DB, [v], []);
      && there.ok && Iterates([v.path], RefsOf(there.state.db.books, p.library))
      && var gone := AfterWalk(p, root, there.state.db, [], [v.path]);
      && gone.ok && Iterates([], RefsOf(gone.state.db.books, p.library))
      && !AfterWalk(p, root, gone.state.db, [v'], []).ok
  {
    FirstFile(p, root, v);
    var db := AfterWalk(p, root, NO_DB, [v], []).state.db;
    EmptyTree(p, root, db, [v.path]);
    BackStops(p, root, AfterWalk(p, root, db, [], [v.path]).state.db, v, v');
  }
}
