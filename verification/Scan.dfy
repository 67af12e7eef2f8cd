/** The library scan: a walk over a directory tree that makes the audiobook table agree with it. */
module Scan {
  import opened Text
  import opened Orders
  import StableId

  // ------------------------------------------------------------------ the tree

  const SLASH: Byte := 47
  const DOT: Byte := 46

  /** filepath.Ext: from the last dot of the last path element. */
  function Ext(path: Bytes): Bytes {
    ExtWithin(path, |path|)
  }

  function ExtWithin(path: Bytes, n: nat): Bytes
    requires n <= |path|
  {
    if n == 0 || path[n - 1] == SLASH then []
    else if path[n - 1] == DOT then path[n - 1..]
    else ExtWithin(path, n - 1)
  }

  function Lower(s: Bytes): Bytes {
    seq(|s|, i requires 0 <= i < |s| => if 65 <= s[i] < 91 then s[i] + 32 else s[i])
  }

  const M4B: Bytes := [46, 109, 52, 98]
  const MP3: Bytes := [46, 109, 112, 51]

  predicate SupportedPath(path: Bytes) {
    Lower(Ext(path)) == M4B || Lower(Ext(path)) == MP3
  }

  datatype Info = Info(regular: bool, size: int, mtime: int)

  datatype Tags = Tags(title: Bytes, author: Bytes, narrator: Bytes, album: Bytes, year: Bytes, genre: Bytes,
                       isbn: Bytes, asin: Bytes, description: Bytes, durationMs: int)

  datatype Chapter = Chapter(idx: int, title: Bytes, startMs: int, endMs: int)

  datatype Cover = Cover(contentType: Bytes, bytes: Bytes, source: Bytes)

  /** No cover is a cover without bytes. */
  datatype Parsed = Parsed(tags: Tags, chapters: seq<Chapter>, cover: Cover)

  /** One call of WalkDir's function: an error, or an entry with what stat and parsing yield. */
  datatype Visit = Unreadable | Entry(path: Bytes, isDir: bool, info: Option<Info>, parsed: Option<Parsed>) {
    predicate Supported() {
      Entry? && !isDir && SupportedPath(path)
    }

    /** Statted, regular and parsed. */
    predicate Usable() {
      Supported() && info.Some? && info.value.regular && parsed.Some?
    }

    function Signature(hash: StableId.Hash): Bytes
      requires Entry? && info.Some?
    {
      StableId.Of(hash, path, info.value.size, info.value.mtime)
    }
  }

  // ------------------------------------------------------------------ the tables

  datatype Row = Row(id: Bytes, size: int, mtime: int, tags: Tags, deleted: bool, contentSig: Bytes)

  /** The unique index (library_path_id, path). */
  datatype Place = Place(library: int, path: Bytes)

  type Books = map<Place, Row>

  /** `enqueued` are the ids passed to the enrichment queue, in order. */
  datatype Db = Db(books: Books, chapters: map<Bytes, seq<Chapter>>, covers: map<Bytes, Cover>, enqueued: seq<Bytes>)

  datatype Ref = Ref(id: Bytes, contentSig: Bytes)

  /** The statements a walk issues; any of them may fail. */
  datatype Statement = ListRefs | Upsert(path: Bytes) | Chapters(id: Bytes) | CoverOf(id: Bytes) | SoftDelete(id: Bytes)

  type Faults = Statement -> bool

  function ActivePaths(books: Books, library: int): set<Bytes> {
    set k | k in books && k.library == library && !books[k].deleted :: k.path
  }

  /** ListAudiobookRefsByLibrary: the rows of the library that are not deleted, by path. */
  function RefsOf(books: Books, library: int): map<Bytes, Ref> {
    map p | p in ActivePaths(books, library) :: Ref(books[Place(library, p)].id, books[Place(library, p)].contentSig)
  }

  predicate IdUsed(books: Books, id: Bytes) {
    exists k :: k in books && books[k].id == id
  }

  /** INSERT ... ON CONFLICT (library_path_id, path) DO UPDATE: an existing row keeps its id and is
      no longer deleted; a new row whose id is taken violates the primary key. */
  function UpsertRow(books: Books, at: Place, row: Row): Result<Books> {
    if at in books then Ok(books[at := row.(id := books[at].id, deleted := false)])
    else if IdUsed(books, row.id) then Err
    else Ok(books[at := row])
  }

  /** UPDATE ... SET deleted = TRUE WHERE id = $1. */
  function MarkDeleted(books: Books, id: Bytes): Books {
    map k | k in books :: if books[k].id == id then books[k].(deleted := true) else books[k]
  }

  /** The primary key of the chapters of one book. */
  predicate IndexesDistinct(chapters: seq<Chapter>) {
    forall i, j :: 0 <= i < j < |chapters| ==> chapters[i].idx != chapters[j].idx
  }

  /** "embedded" and "sidecar", the two sources the cover table admits. */
  const EMBEDDED: Bytes := [101, 109, 98, 101, 100, 100, 101, 100]
  const SIDECAR: Bytes := [115, 105, 100, 101, 99, 97, 114]

  predicate SourceAdmitted(source: Bytes) {
    source == EMBEDDED || source == SIDECAR
  }

  /** Chapters need distinct indexes and, if there are any, a book of their id. */
  predicate TakesChapters(books: Books, id: Bytes, chapters: seq<Chapter>) {
    IndexesDistinct(chapters) && (chapters == [] || IdUsed(books, id))
  }

  /** A cover needs an admitted source and a book of its id. */
  predicate TakesCover(books: Books, id: Bytes, cover: Cover) {
    SourceAdmitted(cover.source) && IdUsed(books, id)
  }

  /** A cover of no source is stored as an embedded one. */
  function Sourced(cover: Cover): Cover {
    if cover.source == [] then cover.(source := EMBEDDED) else cover
  }

  class ScanStore {
    var books: Books
    var chapters: map<Bytes, seq<Chapter>>
    var covers: map<Bytes, Cover>
    var enqueued: seq<Bytes>
    const faults: Faults

    function Contents(): Db
      reads this
    {
      Db(books, chapters, covers, enqueued)
    }

    constructor (faults: Faults)
      ensures Contents() == Db(map[], map[], map[], []) && this.faults == faults
    {
      this.faults := faults;
      books, chapters, covers, enqueued := map[], map[], map[], [];
    }

    method UpsertBook(at: Place, row: Row) returns (ok: bool)
      modifies this`books
      ensures ok == (!faults(Upsert(at.path)) && UpsertRow(old(books), at, row).Ok?)
      ensures books == if ok then UpsertRow(old(books), at, row).value else old(books)
      ensures ok <==>
        && !faults(Upsert(at.path))
        && (at in old(books) || forall k :: k in old(books) ==> old(books)[k].id != row.id)
      ensures !ok ==> books == old(books)
      ensures ok && at !in old(books) ==> books == old(books)[at := row]
      ensures ok && at in old(books) ==>
        books == old(books)[at := Row(old(books)[at].id, row.size, row.mtime, row.tags, false, row.contentSig)]
    {
      if faults(Upsert(at.path)) {
        return false;
      }
      if at in books {
        books := books[at := row.(id := books[at].id, deleted := false)];
        return true;
      }
      if IdUsed(books, row.id) {
        return false;
      }
      books := books[at := row];
      ok := true;
    }

    /** Deletes the chapters of `id` and inserts the new ones one by one, in one transaction: nothing
        changes if one is refused. */
    method ReplaceChapters(id: Bytes, chapters: seq<Chapter>) returns (ok: bool)
      modifies this`chapters
      ensures ok == (!faults(Chapters(id)) && TakesChapters(books, id, chapters))
      ensures ok <==>
        && !faults(Chapters(id)) && (chapters == [] || exists k :: k in books && books[k].id == id)
        && forall i, j :: 0 <= i < j < |chapters| ==> chapters[i].idx != chapters[j].idx
      ensures this.chapters == if ok then old(this.chapters)[id := chapters] else old(this.chapters)
    {
      if faults(Chapters(id)) {
        return false;
      }
      var written: seq<Chapter> := [];
      for i := 0 to |chapters|
        invariant written == chapters[..i] && TakesChapters(books, id, chapters[..i])
      {
        if !IdUsed(books, id) || exists j :: 0 <= j < |written| && written[j].idx == chapters[i].idx {
          return false;
        }
        written := written + [chapters[i]];
      }
      assert chapters[..|chapters|] == chapters;
      this.chapters := this.chapters[id := written];
      ok := true;
    }

    method UpsertCover(id: Bytes, cover: Cover) returns (ok: bool)
      modifies this`covers
      ensures ok == (!faults(CoverOf(id)) && TakesCover(books, id, cover))
      ensures ok <==>
        && !faults(CoverOf(id)) && (exists k :: k in books && books[k].id == id)
        && (cover.source == [101, 109, 98, 101, 100, 100, 101, 100]
            || cover.source == [115, 105, 100, 101, 99, 97, 114])
      ensures covers == if ok then old(covers)[id := cover] else old(covers)
    {
      if faults(CoverOf(id)) || !IdUsed(books, id) || (cover.source != EMBEDDED && cover.source != SIDECAR) {
        return false;
      }
      covers := covers[id := cover];
      ok := true;
    }

    method SoftDeleteBook(id: Bytes) returns (ok: bool)
      modifies this`books
      ensures ok == !faults(SoftDelete(id))
      ensures ok ==> books.Keys == old(books).Keys && forall k :: k in books ==>
        books[k] == if old(books)[k].id == id then old(books)[k].(deleted := true) else old(books)[k]
      ensures books == if ok then MarkDeleted(old(books), id) else old(books)
    {
      if faults(SoftDelete(id)) {
        return false;
      }
      books := map k | k in books :: if books[k].id == id then books[k].(deleted := true) else books[k];
      ok := true;
    }

    /** Best effort: what the queue answers does not matter to the scan. */
    method Enqueue(id: Bytes)
      modifies this`enqueued
      ensures enqueued == old(enqueued) + [id]
    {
      enqueued := enqueued + [id];
    }
  }

  // ------------------------------------------------------------------ the walk

  datatype WalkResult = WalkResult(added: nat, changed: nat, deleted: nat)

  datatype Params = Params(hash: StableId.Hash, faults: Faults, library: int, queue: bool)

  /** A walk in progress. */
  datatype State = State(db: Db, seen: set<Bytes>, res: WalkResult)

  /** The walk goes on, or stops with what was written so far. */
  datatype Progress = Progress(ok: bool, state: State)

  predicate Known(refs: map<Bytes, Ref>, v: Visit)
    requires v.Entry?
  {
    v.path in refs
  }

  /** The visit is of a new or content-changed file that can be read. */
  predicate Ingests(p: Params, refs: map<Bytes, Ref>, v: Visit) {
    v.Usable() && !(Known(refs, v) && refs[v.path].contentSig == v.Signature(p.hash))
  }

  /** The id a visit writes chapters, cover and job under. */
  function IdFor(p: Params, refs: map<Bytes, Ref>, v: Visit): Bytes
    requires v.Entry? && v.info.Some?
  {
    if Known(refs, v) then refs[v.path].id else v.Signature(p.hash)
  }

  function RowFor(p: Params, refs: map<Bytes, Ref>, v: Visit): Row
    requires v.Usable()
  {
    Row(IdFor(p, refs, v), v.info.value.size, v.info.value.mtime, v.parsed.value.tags, false, v.Signature(p.hash))
  }

  function Enqueued(p: Params, db: Db, id: Bytes): Db {
    if p.queue then db.(enqueued := db.enqueued + [id]) else db
  }

  /** Upsert, then chapters, then the cover if there is one, then the job; the first failure ends it. */
  function Write(p: Params, db: Db, id: Bytes, at: Place, row: Row, parsed: Parsed): (bool, Db) {
    var upserted := UpsertRow(db.books, at, row);
    if p.faults(Upsert(at.path)) || upserted.Err? then (false, db)
    else
      var db1 := db.(books := upserted.value);
      if p.faults(Chapters(id)) || !TakesChapters(db1.books, id, parsed.chapters) then (false, db1)
      else
        var db2 := db1.(chapters := db1.chapters[id := parsed.chapters]);
        if parsed.cover.bytes == [] then (true, Enqueued(p, db2, id))
        else if p.faults(CoverOf(id)) || !TakesCover(db2.books, id, Sourced(parsed.cover)) then (false, db2)
        else (true, Enqueued(p, db2.(covers := db2.covers[id := Sourced(parsed.cover)]), id))
  }

  function Ingest(p: Params, refs: map<Bytes, Ref>, s: State, v: Visit): Progress
    requires v.Usable()
  {
    var id := IdFor(p, refs, v);
    var (ok, db) := Write(p, s.db, id, Place(p.library, v.path), RowFor(p, refs, v), v.parsed.value);
    if !ok then Progress(false, s.(db := db))
    else
      Progress(true, State(db, s.seen + {id},
        if Known(refs, v) then s.res.(changed := s.res.changed + 1) else s.res.(added := s.res.added + 1)))
  }

  /** A known path is seen before anything about it can fail. */
  function Seeing(refs: map<Bytes, Ref>, s: State, v: Visit): State {
    if v.Supported() && Known(refs, v) then s.(seen := s.seen + {refs[v.path].id}) else s
  }

  function AfterVisit(p: Params, refs: map<Bytes, Ref>, s: State, v: Visit): Progress {
    if v.Unreadable? then Progress(false, s)
    else if Ingests(p, refs, v) then Ingest(p, refs, Seeing(refs, s, v), v)
    else Progress(true, Seeing(refs, s, v))
  }

  function AfterTree(p: Params, refs: map<Bytes, Ref>, s: State, visits: seq<Visit>): Progress
    decreases visits
  {
    if visits == [] then Progress(true, s)
    else
      var next := AfterVisit(p, refs, s, visits[0]);
      if !next.ok then next else AfterTree(p, refs, next.state, visits[1..])
  }

  /** The state after one delete. */
  function Deleting(s: State, id: Bytes): State {
    s.(db := s.db.(books := MarkDeleted(s.db.books, id)), res := s.res.(deleted := s.res.deleted + 1))
  }

  /** Deletes the rows not seen, in the order the map of refs happens to be iterated in. */
  function AfterDeletes(p: Params, refs: map<Bytes, Ref>, s: State, order: seq<Bytes>): Progress
    requires forall q :: q in order ==> q in refs
    decreases order
  {
    if order == [] then Progress(true, s)
    else
      var id := refs[order[0]].id;
      if id in s.seen then AfterDeletes(p, refs, s, order[1..])
      else if p.faults(SoftDelete(id)) then Progress(false, s)
      else
        AfterDeletes(p, refs, Deleting(s, id), order[1..])
  }

  const NOTHING := WalkResult(0, 0, 0)

  /** An iteration order of the library's refs. */
  ghost predicate Iterates(order: seq<Bytes>, refs: map<Bytes, Ref>) {
    (forall q :: q in order <==> q in refs) && Distinct(order)
  }

  function AfterWalk(p: Params, root: Bytes, db: Db, visits: seq<Visit>, order: seq<Bytes>): Progress
    requires forall q :: q in order ==> q in RefsOf(db.books, p.library)
  {
    var start := State(db, {}, NOTHING);
    if root == [] || p.faults(ListRefs) then Progress(false, start)
    else
      var refs := RefsOf(db.books, p.library);
      var tree := AfterTree(p, refs, start, visits);
      if !tree.ok then tree else AfterDeletes(p, refs, tree.state, order)
  }

  method WriteFile(store: ScanStore, p: Params, id: Bytes, at: Place, row: Row, parsed: Parsed) returns (ok: bool)
    requires p.faults == store.faults
    modifies store
    ensures (ok, store.Contents()) == Write(p, old(store.Contents()), id, at, row, parsed)
  {
    ok := store.UpsertBook(at, row);
    if !ok {
      return;
    }
    ok := store.ReplaceChapters(id, parsed.chapters);
    if !ok {
      return;
    }
    if |parsed.cover.bytes| > 0 {
      var source := parsed.cover.source;
      if source == [] {
        source := EMBEDDED;
      }
      ok := store.UpsertCover(id, Cover(parsed.cover.contentType, parsed.cover.bytes, source));
      if !ok {
        return;
      }
    }
    if p.queue {
      store.Enqueue(id);
    }
  }

  /** The function WalkDir calls; false stops the walk. */
  method VisitEntry(store: ScanStore, p: Params, refs: map<Bytes, Ref>, v: Visit, seen0: set<Bytes>, res0: WalkResult)
    returns (ok: bool, seen: set<Bytes>, res: WalkResult)
    requires p.faults == store.faults
    modifies store
    ensures Progress(ok, State(store.Contents(), seen, res)) ==
      AfterVisit(p, refs, State(old(store.Contents()), seen0, res0), v)
  {
    seen, res := seen0, res0;
    if v.Unreadable? {
      return false, seen, res;
    }
    if v.isDir || !SupportedPath(v.path) {
      return true, seen, res;
    }
    var known := v.path in refs;
    if known {
      seen := seen + {refs[v.path].id};
    }
    if v.info.None? || !v.info.value.regular {
      return true, seen, res;
    }
    var sig := StableId.Of(p.hash, v.path, v.info.value.size, v.info.value.mtime);
    if known && refs[v.path].contentSig == sig {
      return true, seen, res;
    }
    var id := sig;
    if known {
      id := refs[v.path].id;
    }
    if v.parsed.None? {
      return true, seen, res;
    }
    var row := Row(id, v.info.value.size, v.info.value.mtime, v.parsed.value.tags, false, sig);
    ok := WriteFile(store, p, id, Place(p.library, v.path), row, v.parsed.value);
    if !ok {
      return;
    }
    if known {
      res := res.(changed := res.changed + 1);
    } else {
      res := res.(added := res.added + 1);
    }
    seen := seen + {id};
  }

  method Walk(store: ScanStore, p: Params, root: Bytes, visits: seq<Visit>)
    returns (ok: bool, res: WalkResult, ghost order: seq<Bytes>)
    requires p.faults == store.faults
    modifies store
    ensures Iterates(order, RefsOf(old(store.books), p.library))
    ensures var done := AfterWalk(p, root, old(store.Contents()), visits, order);
      ok == done.ok && res == done.state.res && store.Contents() == done.state.db
  {
    res := WalkResult(0, 0, 0);
    order := OrderOf(RefsOf(store.books, p.library).Keys);
    if root == [] || store.faults(ListRefs) {
      return false, res, order;
    }
    var refs := RefsOf(store.books, p.library);
    var seen: set<Bytes> := {};
    ghost var start := State(store.Contents(), {}, NOTHING);
    for i := 0 to |visits|
      invariant AfterTree(p, refs, start, visits) == AfterTree(p, refs, State(store.Contents(), seen, res), visits[i..])
    {
      assert visits[i..][0] == visits[i] && visits[i..][1..] == visits[i + 1..];
      ok, seen, res := VisitEntry(store, p, refs, visits[i], seen, res);
      if !ok {
        return false, res, order;
      }
    }
    ok, res, order := DeleteUnseen(store, p, refs, seen, res);
  }

  /** The loop over the map of refs, in whatever order. */
  method DeleteUnseen(store: ScanStore, p: Params, refs: map<Bytes, Ref>, seen: set<Bytes>, sofar: WalkResult)
    returns (ok: bool, res: WalkResult, ghost order: seq<Bytes>)
    requires p.faults == store.faults
    modifies store`books
    ensures Iterates(order, refs)
    ensures var done := AfterDeletes(p, refs, State(old(store.Contents()), seen, sofar), order);
      ok == done.ok && done.state == State(store.Contents(), seen, res)
  {
    res := sofar;
    order := [];
    var left := refs.Keys;
    while left != {}
      invariant left <= refs.Keys && forall q :: q in order <==> q in refs && q !in left
      invariant Distinct(order)
      invariant AfterDeletes(p, refs, State(old(store.Contents()), seen, sofar), order) ==
        Progress(true, State(store.Contents(), seen, res))
      decreases left
    {
      var path :| path in left;
      left := left - {path};
      DeletesAppend(p, refs, State(old(store.Contents()), seen, sofar), order, path);
      order := order + [path];
      var id := refs[path].id;
      if id in seen {
        continue;
      }
      var wrote := store.SoftDeleteBook(id);
      if !wrote {
        ghost var rest := OrderOf(left);
        DeletesStop(p, refs, State(old(store.Contents()), seen, sofar), order, rest);
        DistinctConcat(order, rest);
        order := order + rest;
        return false, res, order;
      }
      res := res.(deleted := res.deleted + 1);
    }
    ok := true;
  }

  ghost function OrderOf(paths: set<Bytes>): (order: seq<Bytes>)
    ensures forall q :: q in order <==> q in paths
    ensures Distinct(order)
  {
    if paths == {} then [] else
      var q :| q in paths;
      [q] + OrderOf(paths - {q})
  }

  lemma DistinctConcat(a: seq<Bytes>, b: seq<Bytes>)
    requires Distinct(a) && Distinct(b) && forall q :: q in a ==> q !in b
    ensures Distinct(a + b)
  {
    forall i, j | 0 <= i < j < |a + b|
      ensures (a + b)[i] != (a + b)[j]
    {
      assert i < |a| <= j ==> a[i] in a && b[j - |a|] in b;
    }
  }

  lemma {:induction false} DeletesAppend(p: Params, refs: map<Bytes, Ref>, s: State, order: seq<Bytes>, path: Bytes)
    requires path in refs && forall q :: q in order ==> q in refs
    requires AfterDeletes(p, refs, s, order).ok
    ensures AfterDeletes(p, refs, s, order + [path]) ==
      AfterDeletes(p, refs, AfterDeletes(p, refs, s, order).state, [path])
    decreases order
  {
    if order == [] {
      assert order + [path] == [path];
      assert AfterDeletes(p, refs, s, order).state == s;
    } else {
      assert (order + [path])[1..] == order[1..] + [path];
      var id := refs[order[0]].id;
      if id in s.seen {
        DeletesAppend(p, refs, s, order[1..], path);
      } else {
        DeletesAppend(p, refs, Deleting(s, id), order[1..], path);
      }
    }
  }

  lemma {:induction false} DeletesStop(p: Params, refs: map<Bytes, Ref>, s: State, order: seq<Bytes>, rest: seq<Bytes>)
    requires forall q :: q in order + rest ==> q in refs
    requires forall q :: q in order ==> q in refs
    requires !AfterDeletes(p, refs, s, order).ok
    ensures AfterDeletes(p, refs, s, order + rest) == AfterDeletes(p, refs, s, order)
    decreases order
  {
    assert (order + rest)[1..] == order[1..] + rest;
    var id := refs[order[0]].id;
    if id in s.seen {
      DeletesStop(p, refs, s, order[1..], rest);
    } else if !p.faults(SoftDelete(id)) {
      DeletesStop(p, refs, Deleting(s, id), order[1..], rest);
    }
  }
}
