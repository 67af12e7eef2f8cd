/** What a walk without error leaves, file by file: rows, chapters, covers and jobs. */
module Written {
  import opened Text
  import opened Orders
  import opened Scan
  import opened Reconcile
  import StableId

  // ------------------------------------------------------------------ which files count

  lemma {:induction false} ExtIsSuffix(path: Bytes, n: nat)
    requires n <= |path|
    ensures var e := ExtWithin(path, n);
      && |e| <= |path|
      && (e != [] ==> e == path[|path| - |e|..] && e[0] == DOT && |path| - |e| < n)
  {
    if n > 0 && path[n - 1] != SLASH && path[n - 1] != DOT {
      ExtIsSuffix(path, n - 1);
    }
  }

  /** `letter` is the lower-case letter, in either case. */
  predicate IsLetter(c: Byte, letter: Byte) {
    c == letter || c == letter - 32
  }

  /** The path ends in a dot and "m4b" or "mp3" in any case. */
  predicate EndsAsAudio(path: Bytes) {
    var n := |path|;
    && n >= 4 && path[n - 4] == 46 && IsLetter(path[n - 3], 109)
    && ((path[n - 2] == 52 && IsLetter(path[n - 1], 98)) || (IsLetter(path[n - 2], 112) && path[n - 1] == 51))
  }

  lemma SupportedPathExactly(path: Bytes)
    ensures SupportedPath(path) <==> EndsAsAudio(path)
  {
    var n, e := |path|, Ext(path);
    ExtIsSuffix(path, n);
    if EndsAsAudio(path) {
      assert ExtWithin(path, n) == ExtWithin(path, n - 1) == ExtWithin(path, n - 2) == ExtWithin(path, n - 3);
      assert e == path[n - 4..];
    }
    if |e| == 4 {
      assert e[0] == path[n - 4] && e[1] == path[n - 3] && e[2] == path[n - 2] && e[3] == path[n - 1];
      assert Lower(e)[0] == 46 && |Lower(e)| == 4;
      assert Lower(e) == [Lower(e)[0], Lower(e)[1], Lower(e)[2], Lower(e)[3]];
    }
  }

  predicate IsAudio(v: Visit) {
    v.Entry? && !v.isDir && EndsAsAudio(v.path)
  }

  /** Statted, a regular file, and parsed. */
  predicate CanBeRead(v: Visit) {
    IsAudio(v) && v.info.Some? && v.info.value.regular && v.parsed.Some?
  }

  lemma ReadableIsUsable(v: Visit)
    ensures v.Supported() <==> IsAudio(v)
    ensures v.Usable() <==> CanBeRead(v)
  {
    if v.Entry? {
      SupportedPathExactly(v.path);
    }
  }

  function SignatureOf(hash: StableId.Hash, v: Visit): Bytes
    requires CanBeRead(v)
  {
    hash(StableId.Encoding(v.path, v.info.value.size, v.info.value.mtime))
  }

  predicate IsActive(books: Books, k: Place) {
    k in books && !books[k].deleted
  }

  /** The file's row is active with the file's signature already. */
  predicate Unchanged(p: Params, books: Books, v: Visit)
    requires CanBeRead(v)
  {
    var k := Place(p.library, v.path);
    IsActive(books, k) && books[k].contentSig == SignatureOf(p.hash, v)
  }

  lemma IngestsExactly(p: Params, books: Books, v: Visit)
    ensures Ingests(p, RefsOf(books, p.library), v) <==> CanBeRead(v) && !Unchanged(p, books, v)
  {
    ReadableIsUsable(v);
    if v.Entry? {
      RefsOfBooks(p, books, v.path);
    }
  }

  // ------------------------------------------------------------------ chapters, covers, jobs

  /** The id a file's chapters, cover and job are written under. */
  function WriteId(p: Params, books: Books, v: Visit): Bytes
    requires CanBeRead(v)
  {
    var k := Place(p.library, v.path);
    if IsActive(books, k) then books[k].id else SignatureOf(p.hash, v)
  }

  /** The visit writes under `id`. */
  predicate Writes(p: Params, refs: map<Bytes, Ref>, v: Visit, id: Bytes) {
    Ingests(p, refs, v) && IdFor(p, refs, v) == id
  }

  predicate SameDependents(a: Db, b: Db, id: Bytes) {
    && (id in a.chapters <==> id in b.chapters) && (id in a.chapters ==> a.chapters[id] == b.chapters[id])
    && (id in a.covers <==> id in b.covers) && (id in a.covers ==> a.covers[id] == b.covers[id])
  }

  predicate SameCover(a: Db, b: Db, id: Bytes) {
    (id in a.covers <==> id in b.covers) && (id in a.covers ==> a.covers[id] == b.covers[id])
  }

  /** Under `id` are the chapters of the parsed file and its cover, if it has one; "embedded" if it does
      not say where from. */
  predicate HoldsDependents(before: Db, after: Db, id: Bytes, parsed: Parsed) {
    var cover := parsed.cover;
    && id in after.chapters && after.chapters[id] == parsed.chapters
    && if cover.bytes == [] then SameCover(before, after, id)
       else
         && id in after.covers && after.covers[id].bytes == cover.bytes
         && after.covers[id].contentType == cover.contentType
         && after.covers[id].source ==
              if cover.source == [] then [101, 109, 98, 101, 100, 100, 101, 100] else cover.source
  }

  /** The enqueued ids only grow, by `more`. */
  predicate Grows(a: Db, b: Db) {
    a.enqueued <= b.enqueued
  }

  predicate Enqueues(p: Params, a: Db, b: Db, id: Bytes) {
    a.enqueued <= b.enqueued && if p.queue then id in b.enqueued[|a.enqueued|..] else a.enqueued == b.enqueued
  }

  lemma WriteDependents(p: Params, db: Db, id: Bytes, at: Place, row: Row, parsed: Parsed)
    ensures var (ok, db') := Write(p, db, id, at, row, parsed);
      && Grows(db, db') && (!p.queue ==> db'.enqueued == db.enqueued)
      && (forall other :: other != id ==> SameDependents(db, db', other))
      && (ok ==> HoldsDependents(db, db', id, parsed) && Enqueues(p, db, db', id))
  {
    var (ok, db') := Write(p, db, id, at, row, parsed);
    if ok && p.queue {
      assert db'.enqueued == db.enqueued + [id];
    }
  }

  lemma VisitDependents(p: Params, refs: map<Bytes, Ref>, s: State, v: Visit, id: Bytes)
    ensures var next := AfterVisit(p, refs, s, v);
      && Grows(s.db, next.state.db) && (!p.queue ==> next.state.db.enqueued == s.db.enqueued)
      && (!Writes(p, refs, v, id) ==> SameDependents(s.db, next.state.db, id))
      && (Writes(p, refs, v, id) && next.ok ==>
          HoldsDependents(s.db, next.state.db, id, v.parsed.value) && Enqueues(p, s.db, next.state.db, id))
  {
    if Ingests(p, refs, v) {
      WriteDependents(p, s.db, IdFor(p, refs, v), Place(p.library, v.path), RowFor(p, refs, v), v.parsed.value);
    }
  }

  lemma {:induction false} TreeLeavesDependents(p: Params, refs: map<Bytes, Ref>, s: State, visits: seq<Visit>,
                                                id: Bytes)
    requires forall v :: v in visits ==> !Writes(p, refs, v, id)
    ensures var t := AfterTree(p, refs, s, visits).state;
      SameDependents(s.db, t.db, id) && Grows(s.db, t.db) && (!p.queue ==> t.db.enqueued == s.db.enqueued)
    decreases visits
  {
    if visits != [] {
      assert visits[0] in visits;
      VisitDependents(p, refs, s, visits[0], id);
      var next := AfterVisit(p, refs, s, visits[0]);
      if next.ok {
        assert forall v :: v in visits[1..] ==> v in visits;
        TreeLeavesDependents(p, refs, next.state, visits[1..], id);
      }
    }
  }

  lemma HoldsAfter(p: Params, a: Db, b: Db, c: Db, id: Bytes, parsed: Parsed)
    requires HoldsDependents(a, b, id, parsed) && Enqueues(p, a, b, id)
    requires SameDependents(b, c, id) && Grows(b, c) && (!p.queue ==> c.enqueued == b.enqueued)
    ensures HoldsDependents(a, c, id, parsed) && Enqueues(p, a, c, id)
  {
    if p.queue {
      var n := |a.enqueued|;
      var i :| 0 <= i < |b.enqueued[n..]| && b.enqueued[n..][i] == id;
      assert c.enqueued[n..][i] == b.enqueued[n + i];
    }
  }

  lemma HoldsFrom(p: Params, a: Db, b: Db, c: Db, id: Bytes, parsed: Parsed)
    requires SameDependents(a, b, id) && Grows(a, b) && (!p.queue ==> b.enqueued == a.enqueued)
    requires HoldsDependents(b, c, id, parsed) && Enqueues(p, b, c, id)
    ensures HoldsDependents(a, c, id, parsed) && Enqueues(p, a, c, id)
  {
    if p.queue {
      var n := |b.enqueued|;
      var i :| 0 <= i < |c.enqueued[n..]| && c.enqueued[n..][i] == id;
      assert c.enqueued[|a.enqueued|..][n - |a.enqueued| + i] == c.enqueued[n + i];
    }
  }

  lemma {:induction false} TreeDependents(p: Params, refs: map<Bytes, Ref>, s: State, visits: seq<Visit>, v: Visit,
                                          id: Bytes)
    requires DistinctPaths(visits) && v in visits && Writes(p, refs, v, id)
    requires forall u :: u in visits && Writes(p, refs, u, id) ==> u.path == v.path
    requires AfterTree(p, refs, s, visits).ok
    ensures var t := AfterTree(p, refs, s, visits).state;
      HoldsDependents(s.db, t.db, id, v.parsed.value) && Enqueues(p, s.db, t.db, id)
    decreases visits
  {
    var first, rest := visits[0], visits[1..];
    var next := AfterVisit(p, refs, s, first);
    var t := AfterTree(p, refs, s, visits).state;
    assert t == AfterTree(p, refs, next.state, rest).state;
    assert first in visits && forall u :: u in rest ==> u in visits;
    VisitDependents(p, refs, s, first, id);
    DistinctTail(visits);
    if v == first {
      TreeLeavesDependents(p, refs, next.state, rest, id);
      HoldsAfter(p, s.db, next.state.db, t.db, id, v.parsed.value);
    } else {
      assert v in rest;
      TreeDependents(p, refs, next.state, rest, v, id);
      HoldsFrom(p, s.db, next.state.db, t.db, id, v.parsed.value);
    }
  }

  lemma {:induction false} DeletesLeaveDependents(p: Params, refs: map<Bytes, Ref>, s: State, order: seq<Bytes>)
    requires forall q :: q in order ==> q in refs
    ensures var t := AfterDeletes(p, refs, s, order).state.db;
      t.chapters == s.db.chapters && t.covers == s.db.covers && t.enqueued == s.db.enqueued
    decreases order
  {
    if order != [] {
      DeletesStep(p, refs, s, order);
      var id := refs[order[0]].id;
      DeletesLeaveDependents(p, refs, if id in s.seen then s else Deleting(s, id), order[1..]);
    }
  }

  /** An id written under belongs to one path, so no two visits of a walk write under it. */
  lemma OneWriter(p: Params, books: Books, u: Visit, v: Visit, id: Bytes)
    requires StableId.CollisionFree(p.hash) && Consistent(p.hash, books)
    requires Writes(p, RefsOf(books, p.library), u, id) && Writes(p, RefsOf(books, p.library), v, id)
    ensures u.path == v.path
  {
    WriterOwns(p, books, u, id);
    WriterOwns(p, books, v, id);
    StableId.OnePath(p.hash, id, u.path, v.path);
  }

  lemma WriterOwns(p: Params, books: Books, v: Visit, id: Bytes)
    requires Consistent(p.hash, books) && Writes(p, RefsOf(books, p.library), v, id)
    ensures StableId.BelongsTo(p.hash, id, v.path)
  {
    RefsOfBooks(p, books, v.path);
    SignatureBelongs(p.hash, v);
  }

  lemma WriteIdIs(p: Params, books: Books, v: Visit)
    requires CanBeRead(v) && !Unchanged(p, books, v)
    ensures Writes(p, RefsOf(books, p.library), v, WriteId(p, books, v))
  {
    IngestsExactly(p, books, v);
    RefsOfBooks(p, books, v.path);
  }

  // ------------------------------------------------------------------ main result

  /** The file's row holds what was read from it, under the id the row had, or, if there was none, the
      file's signature; and its chapters, cover and job are written. */
  predicate IsWritten(p: Params, before: Db, after: Db, v: Visit)
    requires CanBeRead(v)
  {
    var k, sig := Place(p.library, v.path), SignatureOf(p.hash, v);
    && k in after.books
    && after.books[k] == Row(if k in before.books then before.books[k].id else sig, v.info.value.size,
                             v.info.value.mtime, v.parsed.value.tags, false, sig)
    && HoldsDependents(before, after, WriteId(p, before.books, v), v.parsed.value)
    && Enqueues(p, before, after, WriteId(p, before.books, v))
  }

  lemma RowIsWritten(p: Params, db: Db, visits: seq<Visit>, tree: Progress, b: Books, v: Visit)
    requires DistinctPaths(visits) && Finished(p, db, visits, tree, b)
    requires v in visits && CanBeRead(v) && !Unchanged(p, db.books, v)
    ensures var k, sig := Place(p.library, v.path), SignatureOf(p.hash, v);
      && k in b
      && b[k] == Row(if k in db.books then db.books[k].id else sig, v.info.value.size, v.info.value.mtime,
                     v.parsed.value.tags, false, sig)
  {
    var refs, k := RefsOf(db.books, p.library), Place(p.library, v.path);
    ReadableIsUsable(v);
    IngestsExactly(p, db.books, v);
    ReconciledVisit(p, db, visits, tree, b, v);
    RefsAgreeAtStart(p, db.books);
    RefsOfBooks(p, db.books, v.path);
    TreeIngests(p, refs, State(db, {}, NOTHING), visits, v);
    MetMeansSeen(p, db, visits, tree);
    NotUnseenIsKept(p, refs, tree.state.seen, tree.state.db.books, b, k);
  }

  lemma DependentsAreWritten(p: Params, db: Db, visits: seq<Visit>, order: seq<Bytes>, tree: Progress, v: Visit)
    requires StableId.CollisionFree(p.hash) && Consistent(p.hash, db.books)
    requires DistinctPaths(visits) && TreeDone(p, db, visits, tree) && tree.ok
    requires forall q :: q in order ==> q in RefsOf(db.books, p.library)
    requires v in visits && CanBeRead(v) && !Unchanged(p, db.books, v)
    ensures var after := AfterDeletes(p, RefsOf(db.books, p.library), tree.state, order).state.db;
      && HoldsDependents(db, after, WriteId(p, db.books, v), v.parsed.value)
      && Enqueues(p, db, after, WriteId(p, db.books, v))
  {
    var refs, id := RefsOf(db.books, p.library), WriteId(p, db.books, v);
    WriteIdIs(p, db.books, v);
    forall u | u in visits && Writes(p, refs, u, id)
      ensures u.path == v.path
    {
      OneWriter(p, db.books, u, v, id);
    }
    TreeDependents(p, refs, State(db, {}, NOTHING), visits, v, id);
    DeletesLeaveDependents(p, refs, tree.state, order);
    var after := AfterDeletes(p, refs, tree.state, order).state.db;
    HoldsAfter(p, db, tree.state.db, after, id, v.parsed.value);
  }

  lemma OthersUntouched(p: Params, db: Db, visits: seq<Visit>, tree: Progress, b: Books, v: Visit)
    requires DistinctPaths(visits) && Finished(p, db, visits, tree, b)
    requires v in visits && IsAudio(v) && (CanBeRead(v) ==> Unchanged(p, db.books, v))
    ensures SameAt(db.books, b, Place(p.library, v.path))
  {
    var refs, k := RefsOf(db.books, p.library), Place(p.library, v.path);
    ReadableIsUsable(v);
    IngestsExactly(p, db.books, v);
    OnlyOneVisit(p, refs, visits, v);
    TreeTouches(p, refs, State(db, {}, NOTHING), visits, k);
    MetMeansSeen(p, db, visits, tree);
    NotUnseenIsKept(p, refs, tree.state.seen, tree.state.db.books, b, k);
  }

  /** The path was met as an audio file that was active already or can be read. */
  ghost predicate MetThere(p: Params, before: Books, visits: seq<Visit>, path: Bytes) {
    exists v: Visit ::
      && v in visits && IsAudio(v) && v.path == path
      && (IsActive(before, Place(p.library, path)) || CanBeRead(v))
  }

  lemma MetThereExactly(p: Params, before: Books, visits: seq<Visit>, path: Bytes)
    ensures MetAndGood(p, before, visits, path) <==> MetThere(p, before, visits, path)
  {
    forall v: Visit
      ensures (v.Supported() <==> IsAudio(v)) && (v.Usable() <==> CanBeRead(v))
    {
      ReadableIsUsable(v);
    }
  }

  /** A walk without error, file by file: a path is active if and only if it was met as an audio file that
      was active or can be read; every readable file that is new or changed is written whole; every other
      audio file met leaves its row as it was. */
  lemma WalkWrites(p: Params, root: Bytes, db: Db, visits: seq<Visit>, order: seq<Bytes>)
    requires StableId.CollisionFree(p.hash) && Consistent(p.hash, db.books)
    requires DistinctPaths(visits) && Iterates(order, RefsOf(db.books, p.library))
    requires AfterWalk(p, root, db, visits, order).ok
    ensures var after := AfterWalk(p, root, db, visits, order).state.db;
      && (forall path :: IsActive(after.books, Place(p.library, path)) <==> MetThere(p, db.books, visits, path))
      && (forall v: Visit :: v in visits && CanBeRead(v) && !Unchanged(p, db.books, v) ==> IsWritten(p, db, after, v))
      && (forall v: Visit :: v in visits && IsAudio(v) && (CanBeRead(v) ==> Unchanged(p, db.books, v)) ==>
            SameAt(db.books, after.books, Place(p.library, v.path)))
  {
    var after := AfterWalk(p, root, db, visits, order).state.db;
    var tree := AfterTree(p, RefsOf(db.books, p.library), State(db, {}, NOTHING), visits);
    Reconciled(p, root, db, visits, order);
    WalkOutcome(p, root, db, visits, order, tree);
    Phases(p, root, db, visits, order, tree);
    forall path
      ensures IsActive(after.books, Place(p.library, path)) <==> MetThere(p, db.books, visits, path)
    {
      MetThereExactly(p, db.books, visits, path);
      assert Active(after.books, p.library, path) <==> IsActive(after.books, Place(p.library, path));
    }
    forall v | v in visits && CanBeRead(v) && !Unchanged(p, db.books, v)
      ensures IsWritten(p, db, after, v)
    {
      RowIsWritten(p, db, visits, tree, after.books, v);
      DependentsAreWritten(p, db, visits, order, tree, v);
    }
    forall v | v in visits && IsAudio(v) && (CanBeRead(v) ==> Unchanged(p, db.books, v))
      ensures SameAt(db.books, after.books, Place(p.library, v.path))
    {
      OthersUntouched(p, db, visits, tree, after.books, v);
    }
  }
}
