/** What a walk, and any run of walks, does to the audiobook table. */
module Reconcile {
  import opened Text
  import opened Scan
  import StableId

  // ------------------------------------------------------------------ vocabulary

  /** The primary key, and that every id was made from its own row's path. */
  ghost predicate Consistent(hash: StableId.Hash, books: Books) {
    && (forall j, k :: j in books && k in books && books[j].id == books[k].id ==> j == k)
    && (forall k :: k in books ==> StableId.BelongsTo(hash, books[k].id, k.path))
  }

  /** The walk meets no path twice. */
  ghost predicate DistinctPaths(visits: seq<Visit>) {
    forall i, j :: 0 <= i < j < |visits| && visits[i].Entry? && visits[j].Entry? ==> visits[i].path != visits[j].path
  }

  predicate Active(books: Books, library: int, path: Bytes) {
    Place(library, path) in books && !books[Place(library, path)].deleted
  }

  /** Rows stay, with their ids, active rows stay active, and new rows are active. */
  ghost predicate Kept(a: Books, b: Books) {
    && (forall k :: k in a ==> k in b && b[k].id == a[k].id && (!a[k].deleted ==> !b[k].deleted))
    && (forall k :: k in b && k !in a ==> !b[k].deleted)
  }

  ghost predicate SameAt(a: Books, b: Books, k: Place) {
    (k in a <==> k in b) && (k in a ==> a[k] == b[k])
  }

  /** The row of `v` carries its current signature, under the id it had or, if new, its first. */
  ghost predicate Ingested(p: Params, before: Books, after: Books, v: Visit)
    requires v.Usable()
  {
    var k := Place(p.library, v.path);
    k in after && !after[k].deleted && after[k].contentSig == v.Signature(p.hash)
    && after[k].id == if k in before then before[k].id else v.Signature(p.hash)
  }

  /** The row of `v` holds what was read from its file. */
  ghost predicate Stores(p: Params, after: Books, v: Visit)
    requires v.Usable()
  {
    var k := Place(p.library, v.path);
    && k in after && after[k].tags == v.parsed.value.tags
    && after[k].size == v.info.value.size && after[k].mtime == v.info.value.mtime
  }

  predicate Touches(p: Params, refs: map<Bytes, Ref>, v: Visit, k: Place) {
    k.library == p.library && Ingests(p, refs, v) && v.path == k.path
  }

  // ------------------------------------------------------------------ one visit

  lemma WriteBooks(p: Params, db: Db, id: Bytes, at: Place, row: Row, parsed: Parsed)
    ensures var (ok, db') := Write(p, db, id, at, row, parsed);
      var up := UpsertRow(db.books, at, row);
      (db'.books == db.books && !ok) || (up.Ok? && db'.books == up.value)
  {
  }

  /** Whatever else fails, the books are as before or upserted; upserted if the visit goes on. */
  lemma VisitBooks(p: Params, refs: map<Bytes, Ref>, s: State, v: Visit)
    ensures var next := AfterVisit(p, refs, s, v);
      var b, b' := s.db.books, next.state.db.books;
      && (!Ingests(p, refs, v) ==> next.state.db == s.db)
      && (Ingests(p, refs, v) ==>
          var up := UpsertRow(b, Place(p.library, v.path), RowFor(p, refs, v));
          (b' == b && !next.ok) || (up.Ok? && b' == up.value))
  {
    if Ingests(p, refs, v) {
      WriteBooks(p, s.db, IdFor(p, refs, v), Place(p.library, v.path), RowFor(p, refs, v), v.parsed.value);
    }
  }

  lemma VisitKeeps(p: Params, refs: map<Bytes, Ref>, s: State, v: Visit)
    ensures var next := AfterVisit(p, refs, s, v);
      && Kept(s.db.books, next.state.db.books)
      && (forall k :: !Touches(p, refs, v, k) ==> SameAt(s.db.books, next.state.db.books, k))
      && (next.ok && Ingests(p, refs, v) ==> Stores(p, next.state.db.books, v))
      && (next.ok && Ingests(p, refs, v) && !Known(refs, v) ==> Ingested(p, s.db.books, next.state.db.books, v))
      && (next.ok && Ingests(p, refs, v) && Place(p.library, v.path) in s.db.books ==>
        Ingested(p, s.db.books, next.state.db.books, v))
  {
    VisitBooks(p, refs, s, v);
  }

  lemma SignatureBelongs(hash: StableId.Hash, v: Visit)
    requires v.Entry? && v.info.Some?
    ensures StableId.BelongsTo(hash, v.Signature(hash), v.path)
  {
  }

  lemma VisitConsistent(p: Params, refs: map<Bytes, Ref>, s: State, v: Visit)
    requires Consistent(p.hash, s.db.books)
    requires v.Entry? && Known(refs, v) ==> Place(p.library, v.path) in s.db.books
    ensures Consistent(p.hash, AfterVisit(p, refs, s, v).state.db.books)
  {
    VisitBooks(p, refs, s, v);
    if Ingests(p, refs, v) {
      SignatureBelongs(p.hash, v);
    }
  }

  // ------------------------------------------------------------------ the tree

  ghost predicate RefsHere(p: Params, refs: map<Bytes, Ref>, books: Books) {
    forall q :: q in refs ==> Place(p.library, q) in books
  }

  lemma {:induction false} TreeKeeps(p: Params, refs: map<Bytes, Ref>, s: State, visits: seq<Visit>)
    requires RefsHere(p, refs, s.db.books)
    ensures var t := AfterTree(p, refs, s, visits).state.db.books;
      && Kept(s.db.books, t)
      && (Consistent(p.hash, s.db.books) ==> Consistent(p.hash, t))
    decreases visits
  {
    if visits != [] {
      VisitKeeps(p, refs, s, visits[0]);
      if Consistent(p.hash, s.db.books) {
        VisitConsistent(p, refs, s, visits[0]);
      }
      var next := AfterVisit(p, refs, s, visits[0]);
      if next.ok {
        TreeKeeps(p, refs, next.state, visits[1..]);
      }
    }
  }

  lemma {:induction false} TreeTouches(p: Params, refs: map<Bytes, Ref>, s: State, visits: seq<Visit>, k: Place)
    requires forall v :: v in visits ==> !Touches(p, refs, v, k)
    ensures SameAt(s.db.books, AfterTree(p, refs, s, visits).state.db.books, k)
    decreases visits
  {
    if visits != [] {
      assert visits[0] in visits;
      VisitKeeps(p, refs, s, visits[0]);
      var next := AfterVisit(p, refs, s, visits[0]);
      if next.ok {
        assert forall v :: v in visits[1..] ==> v in visits;
        TreeTouches(p, refs, next.state, visits[1..], k);
      }
    }
  }

  lemma DistinctTail(visits: seq<Visit>)
    requires DistinctPaths(visits) && visits != []
    ensures DistinctPaths(visits[1..])
    ensures visits[0].Entry? ==> forall v :: v in visits[1..] && v.Entry? ==> v.path != visits[0].path
  {
    var tail := visits[1..];
    assert forall i :: 0 <= i < |tail| ==> tail[i] == visits[i + 1];
  }

  lemma {:induction false} TreeIngests(p: Params, refs: map<Bytes, Ref>, s: State, visits: seq<Visit>, v: Visit)
    requires RefsHere(p, refs, s.db.books)
    requires DistinctPaths(visits) && v in visits && Ingests(p, refs, v)
    requires AfterTree(p, refs, s, visits).ok
    ensures Ingested(p, s.db.books, AfterTree(p, refs, s, visits).state.db.books, v)
    ensures Stores(p, AfterTree(p, refs, s, visits).state.db.books, v)
    decreases visits
  {
    var k, next := Place(p.library, v.path), AfterVisit(p, refs, s, visits[0]);
    VisitKeeps(p, refs, s, visits[0]);
    DistinctTail(visits);
    if v == visits[0] {
      TreeTouches(p, refs, next.state, visits[1..], k);
    } else {
      assert v in visits[1..];
      TreeIngests(p, refs, next.state, visits[1..], v);
      assert SameAt(s.db.books, next.state.db.books, k);
    }
  }

  /** What puts an id among the seen. */
  predicate Sees(p: Params, refs: map<Bytes, Ref>, v: Visit, id: Bytes) {
    v.Supported() && ((Known(refs, v) && id == refs[v.path].id) || (Ingests(p, refs, v) && id == IdFor(p, refs, v)))
  }

  lemma VisitSees(p: Params, refs: map<Bytes, Ref>, s: State, v: Visit)
    ensures var next := AfterVisit(p, refs, s, v);
      && s.seen <= next.state.seen
      && (v.Supported() && Known(refs, v) ==> refs[v.path].id in next.state.seen)
      && (forall id :: id in next.state.seen ==> id in s.seen || Sees(p, refs, v, id))
  {
  }

  lemma {:induction false} TreeSees(p: Params, refs: map<Bytes, Ref>, s: State, visits: seq<Visit>)
    ensures var t := AfterTree(p, refs, s, visits);
      && s.seen <= t.state.seen
      && (t.ok ==> forall v: Visit :: v in visits && v.Supported() && Known(refs, v) ==>
        refs[v.path].id in t.state.seen)
      && (forall id :: id in t.state.seen ==> id in s.seen || exists v :: v in visits && Sees(p, refs, v, id))
    decreases visits
  {
    if visits != [] {
      VisitSees(p, refs, s, visits[0]);
      assert visits[0] in visits;
      var next := AfterVisit(p, refs, s, visits[0]);
      if next.ok {
        TreeSees(p, refs, next.state, visits[1..]);
        assert forall v :: v in visits <==> v == visits[0] || v in visits[1..];
      }
    }
  }

  // ------------------------------------------------------------------ the deletes

  /** The refs name rows that are there. */
  ghost predicate RefsAgree(p: Params, refs: map<Bytes, Ref>, books: Books) {
    forall q :: q in refs ==> Place(p.library, q) in books && books[Place(p.library, q)].id == refs[q].id
  }

  /** Only the `deleted` mark of rows of refs that were not seen may change. */
  ghost predicate OnlyUnseenDeleted(p: Params, refs: map<Bytes, Ref>, seen: set<Bytes>, a: Books, b: Books) {
    && a.Keys == b.Keys
    && forall k :: k in a ==> b[k] == a[k] || (b[k] == a[k].(deleted := true) && Unseen(p, refs, seen, k))
  }

  predicate Unseen(p: Params, refs: map<Bytes, Ref>, seen: set<Bytes>, k: Place) {
    k.library == p.library && k.path in refs && refs[k.path].id !in seen
  }

  lemma MarkOne(p: Params, refs: map<Bytes, Ref>, seen: set<Bytes>, books: Books, q: Bytes)
    requires Consistent(p.hash, books) && RefsAgree(p, refs, books)
    requires q in refs && refs[q].id !in seen
    ensures var marked := MarkDeleted(books, refs[q].id);
      && OnlyUnseenDeleted(p, refs, seen, books, marked)
      && Consistent(p.hash, marked) && RefsAgree(p, refs, marked)
      && marked[Place(p.library, q)].deleted
  {
    var marked := MarkDeleted(books, refs[q].id);
    assert books[Place(p.library, q)].id == refs[q].id;
    forall k | k in books && books[k].id == refs[q].id
      ensures k == Place(p.library, q)
    {
    }
    assert forall k :: k in books ==> marked[k].id == books[k].id;
  }

  lemma UnseenTransitive(p: Params, refs: map<Bytes, Ref>, seen: set<Bytes>, a: Books, b: Books, c: Books)
    requires OnlyUnseenDeleted(p, refs, seen, a, b) && OnlyUnseenDeleted(p, refs, seen, b, c)
    ensures OnlyUnseenDeleted(p, refs, seen, a, c)
  {
  }

  lemma DeletesStep(p: Params, refs: map<Bytes, Ref>, s: State, order: seq<Bytes>)
    requires order != [] && forall q :: q in order ==> q in refs
    ensures forall q :: q in order[1..] ==> q in refs
    ensures AfterDeletes(p, refs, s, order) ==
      if refs[order[0]].id in s.seen then AfterDeletes(p, refs, s, order[1..])
      else if p.faults(SoftDelete(refs[order[0]].id)) then Progress(false, s)
      else AfterDeletes(p, refs, Deleting(s, refs[order[0]].id), order[1..])
  {
  }

  lemma {:induction false} DeletesEffect(p: Params, refs: map<Bytes, Ref>, s: State, order: seq<Bytes>)
    requires forall q :: q in order ==> q in refs
    requires Consistent(p.hash, s.db.books) && RefsAgree(p, refs, s.db.books)
    ensures OnlyUnseenDeleted(p, refs, s.seen, s.db.books, AfterDeletes(p, refs, s, order).state.db.books)
    ensures Consistent(p.hash, AfterDeletes(p, refs, s, order).state.db.books)
    decreases order
  {
    if order != [] {
      var q, id, s1 := order[0], refs[order[0]].id, Deleting(s, refs[order[0]].id);
      assert q in order;
      DeletesStep(p, refs, s, order);
      if id in s.seen {
        DeletesEffect(p, refs, s, order[1..]);
      } else if !p.faults(SoftDelete(id)) {
        MarkOne(p, refs, s.seen, s.db.books, q);
        DeletesEffect(p, refs, s1, order[1..]);
        UnseenTransitive(p, refs, s.seen, s.db.books, s1.db.books,
          AfterDeletes(p, refs, s1, order[1..]).state.db.books);
      }
    }
  }

  lemma {:induction false} DeletesReachAll(p: Params, refs: map<Bytes, Ref>, s: State, order: seq<Bytes>, q: Bytes)
    requires forall r :: r in order ==> r in refs
    requires Consistent(p.hash, s.db.books) && RefsAgree(p, refs, s.db.books)
    requires AfterDeletes(p, refs, s, order).ok && q in order && refs[q].id !in s.seen
    ensures Place(p.library, q) in AfterDeletes(p, refs, s, order).state.db.books
    ensures AfterDeletes(p, refs, s, order).state.db.books[Place(p.library, q)].deleted
    decreases order
  {
    var id, s1 := refs[order[0]].id, Deleting(s, refs[order[0]].id);
    assert order[0] in order;
    DeletesStep(p, refs, s, order);
    if id in s.seen {
      assert q in order[1..];
      DeletesReachAll(p, refs, s, order[1..], q);
    } else {
      MarkOne(p, refs, s.seen, s.db.books, order[0]);
      if q == order[0] {
        DeletesEffect(p, refs, s1, order[1..]);
        StaysDeleted(p, refs, s.seen, s1.db.books, AfterDeletes(p, refs, s1, order[1..]).state.db.books,
          Place(p.library, q));
      } else {
        assert q in order[1..];
        DeletesReachAll(p, refs, s1, order[1..], q);
      }
    }
  }

  lemma StaysDeleted(p: Params, refs: map<Bytes, Ref>, seen: set<Bytes>, a: Books, b: Books, k: Place)
    requires OnlyUnseenDeleted(p, refs, seen, a, b) && k in a && a[k].deleted
    ensures k in b && b[k].deleted
  {
  }

  // ------------------------------------------------------------------ the walk

  lemma RefsOfBooks(p: Params, books: Books, q: Bytes)
    ensures q in RefsOf(books, p.library) <==> Active(books, p.library, q)
    ensures Active(books, p.library, q) ==>
      RefsOf(books, p.library)[q] == Ref(books[Place(p.library, q)].id, books[Place(p.library, q)].contentSig)
  {
    if Active(books, p.library, q) {
      assert Place(p.library, q).path in ActivePaths(books, p.library);
    }
  }

  lemma RefsAgreeAtStart(p: Params, books: Books)
    ensures RefsAgree(p, RefsOf(books, p.library), books)
  {
    forall q | q in RefsOf(books, p.library)
      ensures Place(p.library, q) in books && books[Place(p.library, q)].id == RefsOf(books, p.library)[q].id
    {
      RefsOfBooks(p, books, q);
    }
  }

  /** Before the deletes: the tree's outcome and what is known of it. */
  ghost predicate TreeDone(p: Params, db: Db, visits: seq<Visit>, tree: Progress) {
    tree == AfterTree(p, RefsOf(db.books, p.library), State(db, {}, NOTHING), visits)
  }

  lemma TreeFacts(p: Params, db: Db, visits: seq<Visit>, tree: Progress)
    requires Consistent(p.hash, db.books) && TreeDone(p, db, visits, tree)
    ensures Kept(db.books, tree.state.db.books) && Consistent(p.hash, tree.state.db.books)
    ensures RefsAgree(p, RefsOf(db.books, p.library), tree.state.db.books)
  {
    RefsAgreeAtStart(p, db.books);
    TreeKeeps(p, RefsOf(db.books, p.library), State(db, {}, NOTHING), visits);
  }

  /** The two phases of a walk that gets past its first statement. */
  lemma Phases(p: Params, root: Bytes, db: Db, visits: seq<Visit>, order: seq<Bytes>, tree: Progress)
    requires TreeDone(p, db, visits, tree) && forall q :: q in order ==> q in RefsOf(db.books, p.library)
    ensures var done := AfterWalk(p, root, db, visits, order);
      || (!done.ok && done.state == State(db, {}, NOTHING))
      || (!tree.ok && done == tree)
      || (tree.ok && done == AfterDeletes(p, RefsOf(db.books, p.library), tree.state, order))
  {
  }

  /** What becomes of the books, phase by phase. */
  ghost predicate Outcome(p: Params, db: Db, visits: seq<Visit>, tree: Progress, done: Progress) {
    var refs, b0, b1, b2 := RefsOf(db.books, p.library), db.books, tree.state.db.books, done.state.db.books;
    && Kept(b0, b1) && Consistent(p.hash, b1) && Consistent(p.hash, b2)
    && (if tree.ok then OnlyUnseenDeleted(p, refs, tree.state.seen, b1, b2) || (b2 == b0 && !done.ok)
        else !done.ok && (b2 == b1 || b2 == b0))
  }

  lemma WalkOutcome(p: Params, root: Bytes, db: Db, visits: seq<Visit>, order: seq<Bytes>, tree: Progress)
    requires Consistent(p.hash, db.books) && forall q :: q in order ==> q in RefsOf(db.books, p.library)
    requires TreeDone(p, db, visits, tree)
    ensures Outcome(p, db, visits, tree, AfterWalk(p, root, db, visits, order))
  {
    TreeFacts(p, db, visits, tree);
    Phases(p, root, db, visits, order, tree);
    DeletesEffect(p, RefsOf(db.books, p.library), tree.state, order);
  }

  lemma OutcomeKeepsIdentity(p: Params, db: Db, visits: seq<Visit>, tree: Progress, done: Progress)
    requires Outcome(p, db, visits, tree, done)
    ensures forall k :: k in db.books ==> k in done.state.db.books && done.state.db.books[k].id == db.books[k].id
  {
  }

  /** Rows never vanish and never change their id, whatever the walk meets and wherever it stops. */
  lemma WalkKeepsIdentity(p: Params, root: Bytes, db: Db, visits: seq<Visit>, order: seq<Bytes>)
    requires Consistent(p.hash, db.books) && forall q :: q in order ==> q in RefsOf(db.books, p.library)
    ensures var b := AfterWalk(p, root, db, visits, order).state.db.books;
      && Consistent(p.hash, b)
      && forall k :: k in db.books ==> k in b && b[k].id == db.books[k].id
  {
    var tree := AfterTree(p, RefsOf(db.books, p.library), State(db, {}, NOTHING), visits);
    WalkOutcome(p, root, db, visits, order, tree);
    OutcomeKeepsIdentity(p, db, visits, tree, AfterWalk(p, root, db, visits, order));
  }

  lemma DeletedWasUnseen(p: Params, db: Db, visits: seq<Visit>, tree: Progress, done: Progress, k: Place)
    requires Outcome(p, db, visits, tree, done)
    requires k in done.state.db.books && done.state.db.books[k].deleted
    ensures k in db.books
    ensures !db.books[k].deleted ==> tree.ok && Unseen(p, RefsOf(db.books, p.library), tree.state.seen, k)
  {
    RefsOfBooks(p, db.books, k.path);
  }

  /** However a walk ends, a row that is deleted afterwards was in the table before it.  If the walk
      deleted it, it was of the walk's library, and the walk had been through the whole tree without
      meeting a supported entry at its path. */
  lemma NoWrongfulDeletion(p: Params, root: Bytes, db: Db, visits: seq<Visit>, order: seq<Bytes>, k: Place)
    requires Consistent(p.hash, db.books) && forall q :: q in order ==> q in RefsOf(db.books, p.library)
    requires k in AfterWalk(p, root, db, visits, order).state.db.books
    requires AfterWalk(p, root, db, visits, order).state.db.books[k].deleted
    ensures k in db.books
    ensures !db.books[k].deleted ==>
      && k.library == p.library
      && AfterTree(p, RefsOf(db.books, p.library), State(db, {}, NOTHING), visits).ok
      && forall v: Visit :: v in visits && v.Entry? && !v.isDir && SupportedPath(v.path) ==> v.path != k.path
  {
    var tree := AfterTree(p, RefsOf(db.books, p.library), State(db, {}, NOTHING), visits);
    WalkOutcome(p, root, db, visits, order, tree);
    DeletedWasUnseen(p, db, visits, tree, AfterWalk(p, root, db, visits, order), k);
    if !db.books[k].deleted {
      MetMeansSeen(p, db, visits, tree);
    }
  }

  // ------------------------------------------------------------------ reconciliation

  lemma MetMeansSeen(p: Params, db: Db, visits: seq<Visit>, tree: Progress)
    requires TreeDone(p, db, visits, tree) && tree.ok
    ensures forall v: Visit :: v in visits && v.Supported() && v.path in RefsOf(db.books, p.library) ==>
      RefsOf(db.books, p.library)[v.path].id in tree.state.seen
  {
    TreeSees(p, RefsOf(db.books, p.library), State(db, {}, NOTHING), visits);
  }

  lemma SeenMeansMet(p: Params, db: Db, visits: seq<Visit>, tree: Progress, path: Bytes)
    requires StableId.CollisionFree(p.hash) && Consistent(p.hash, db.books) && TreeDone(p, db, visits, tree)
    requires path in RefsOf(db.books, p.library) && RefsOf(db.books, p.library)[path].id in tree.state.seen
    ensures exists v: Visit :: v in visits && v.Supported() && v.path == path
  {
    var refs, start := RefsOf(db.books, p.library), State(db, {}, NOTHING);
    var id := refs[path].id;
    TreeSees(p, refs, start, visits);
    RefsAgreeAtStart(p, db.books);
    var v :| v in visits && Sees(p, refs, v, id);
    assert StableId.BelongsTo(p.hash, id, path) by { assert db.books[Place(p.library, path)].id == id; }
    if Known(refs, v) {
      assert db.books[Place(p.library, v.path)].id == id;
    } else {
      SignatureBelongs(p.hash, v);
      StableId.OnePath(p.hash, id, path, v.path);
    }
  }

  predicate MetAndGood(p: Params, before: Books, visits: seq<Visit>, path: Bytes) {
    exists v: Visit :: v in visits && v.Supported() && v.path == path && (Active(before, p.library, path) || v.Usable())
  }

  /** Exact reconciliation: after a walk without error, a path of the library is active if and only if
      the walk met a supported entry there that was active already or could be read; every file that
      could be read has its current signature, under the id its row had; and no other library's row
      changed. */
  lemma Reconciled(p: Params, root: Bytes, db: Db, visits: seq<Visit>, order: seq<Bytes>)
    requires StableId.CollisionFree(p.hash) && Consistent(p.hash, db.books)
    requires DistinctPaths(visits) && Iterates(order, RefsOf(db.books, p.library))
    requires AfterWalk(p, root, db, visits, order).ok
    ensures var b := AfterWalk(p, root, db, visits, order).state.db.books;
      && (forall path :: Active(b, p.library, path) <==> MetAndGood(p, db.books, visits, path))
      && (forall v: Visit :: v in visits && v.Usable() ==> Ingested(p, db.books, b, v))
      && (forall k: Place :: k.library != p.library ==> SameAt(db.books, b, k))
  {
    var b := AfterWalk(p, root, db, visits, order).state.db.books;
    var tree := AfterTree(p, RefsOf(db.books, p.library), State(db, {}, NOTHING), visits);
    WalkOutcome(p, root, db, visits, order, tree);
    Phases(p, root, db, visits, order, tree);
    forall path
      ensures Active(b, p.library, path) <==> MetAndGood(p, db.books, visits, path)
    {
      ReconciledPath(p, db, visits, order, tree, b, path);
    }
    forall v: Visit | v in visits && v.Usable()
      ensures Ingested(p, db.books, b, v)
    {
      ReconciledVisit(p, db, visits, tree, b, v);
    }
    forall k: Place | k.library != p.library
      ensures SameAt(db.books, b, k)
    {
      TreeTouches(p, RefsOf(db.books, p.library), State(db, {}, NOTHING), visits, k);
    }
  }

  /** The books after a walk without error, as seen from the tree phase. */
  ghost predicate Finished(p: Params, db: Db, visits: seq<Visit>, tree: Progress, b: Books) {
    && TreeDone(p, db, visits, tree) && tree.ok
    && Kept(db.books, tree.state.db.books)
    && OnlyUnseenDeleted(p, RefsOf(db.books, p.library), tree.state.seen, tree.state.db.books, b)
  }

  lemma ReconciledVisit(p: Params, db: Db, visits: seq<Visit>, tree: Progress, b: Books, v: Visit)
    requires DistinctPaths(visits) && Finished(p, db, visits, tree, b)
    requires v in visits && v.Usable()
    ensures Ingested(p, db.books, b, v)
  {
    var refs, start, k := RefsOf(db.books, p.library), State(db, {}, NOTHING), Place(p.library, v.path);
    RefsOfBooks(p, db.books, v.path);
    MetMeansSeen(p, db, visits, tree);
    RefsAgreeAtStart(p, db.books);
    if Ingests(p, refs, v) {
      TreeIngests(p, refs, start, visits, v);
    } else {
      OnlyOneVisit(p, refs, visits, v);
      TreeTouches(p, refs, start, visits, k);
    }
    NotUnseenIsKept(p, refs, tree.state.seen, tree.state.db.books, b, k);
  }

  lemma NotUnseenIsKept(p: Params, refs: map<Bytes, Ref>, seen: set<Bytes>, a: Books, b: Books, k: Place)
    requires OnlyUnseenDeleted(p, refs, seen, a, b) && !Unseen(p, refs, seen, k)
    ensures SameAt(a, b, k)
  {
  }

  lemma OnlyOneVisit(p: Params, refs: map<Bytes, Ref>, visits: seq<Visit>, v: Visit)
    requires DistinctPaths(visits) && v in visits && v.Entry? && !Ingests(p, refs, v)
    ensures forall u: Visit :: u in visits ==> !Touches(p, refs, u, Place(p.library, v.path))
  {
    forall u: Visit | u in visits && u.Entry? && u.path == v.path
      ensures u == v
    {
      var i :| 0 <= i < |visits| && visits[i] == u;
      var j :| 0 <= j < |visits| && visits[j] == v;
    }
  }

  lemma ReconciledKnown(p: Params, db: Db, visits: seq<Visit>, order: seq<Bytes>, tree: Progress, b: Books, path: Bytes)
    requires StableId.CollisionFree(p.hash) && Consistent(p.hash, db.books) && Finished(p, db, visits, tree, b)
    requires Iterates(order, RefsOf(db.books, p.library)) && Active(db.books, p.library, path)
    requires AfterDeletes(p, RefsOf(db.books, p.library), tree.state, order).ok
    requires AfterDeletes(p, RefsOf(db.books, p.library), tree.state, order).state.db.books == b
    ensures Active(b, p.library, path) <==> exists v: Visit :: v in visits && v.Supported() && v.path == path
  {
    var refs, k := RefsOf(db.books, p.library), Place(p.library, path);
    RefsOfBooks(p, db.books, path);
    if refs[path].id in tree.state.seen {
      SeenMeansMet(p, db, visits, tree, path);
      NotUnseenIsKept(p, refs, tree.state.seen, tree.state.db.books, b, k);
    } else {
      TreeFacts(p, db, visits, tree);
      DeletesReachAll(p, refs, tree.state, order, path);
      MetMeansSeen(p, db, visits, tree);
    }
  }

  lemma ReconciledUnknown(p: Params, db: Db, visits: seq<Visit>, tree: Progress, b: Books, path: Bytes)
    requires DistinctPaths(visits) && Finished(p, db, visits, tree, b) && !Active(db.books, p.library, path)
    ensures Active(b, p.library, path) <==> exists v: Visit :: v in visits && v.Usable() && v.path == path
  {
    var refs, k := RefsOf(db.books, p.library), Place(p.library, path);
    RefsOfBooks(p, db.books, path);
    NotUnseenIsKept(p, refs, tree.state.seen, tree.state.db.books, b, k);
    if u: Visit :| u in visits && u.Usable() && u.path == path {
      ReconciledVisit(p, db, visits, tree, b, u);
    } else {
      TreeTouches(p, refs, State(db, {}, NOTHING), visits, k);
    }
  }

  lemma ReconciledPath(p: Params, db: Db, visits: seq<Visit>, order: seq<Bytes>, tree: Progress, b: Books, path: Bytes)
    requires StableId.CollisionFree(p.hash) && Consistent(p.hash, db.books) && DistinctPaths(visits)
    requires Iterates(order, RefsOf(db.books, p.library))
    requires Finished(p, db, visits, tree, b)
    requires AfterDeletes(p, RefsOf(db.books, p.library), tree.state, order).ok
    requires AfterDeletes(p, RefsOf(db.books, p.library), tree.state, order).state.db.books == b
    ensures Active(b, p.library, path) <==> MetAndGood(p, db.books, visits, path)
  {
    if Active(db.books, p.library, path) {
      ReconciledKnown(p, db, visits, order, tree, b, path);
    } else {
      ReconciledUnknown(p, db, visits, tree, b, path);
    }
  }
}
