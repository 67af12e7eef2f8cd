/** The depth-bounded walk over scraped JSON that collects book records. */
module Collector {
  import opened Text
  import opened Orders

  const MAX_DEPTH := 64

  datatype Json =
    | Null
    | Bool(b: bool)
    | Number(n: real)
    | Str(text: string)
    | Arr(items: seq<Json>)
    | Obj(fields: map<string, Json>)

  /** One source's idea of a book record: a title and at least one of these fields. */
  type Shape = set<string>

  const STORYTEL: Shape := {"consumableId", "bookId", "authors", "narrators", "duration"}
  const BOOKBEAT: Shape := {"id", "bookId", "authors", "narrators", "duration", "coverUrl"}
  const AUDIOTEKA: Shape := {"id", "authors", "narrators", "duration", "coverUrl", "isbn"}

  predicate IsBook(shape: Shape, v: Json) {
    v.Obj? && "title" in v.fields && exists f :: f in shape && f in v.fields
  }

  /** The record a book object converts to; none without a title text.  The mapping of its other
      fields is the source's own. */
  datatype Candidate = Candidate(title: string, record: map<string, Json>)

  function Convert(v: Json): Option<Candidate>
    requires v.Obj?
  {
    if "title" in v.fields && v.fields["title"].Str? && v.fields["title"].text != ""
    then Some(Candidate(v.fields["title"].text, v.fields))
    else None
  }

  // ------------------------------------------------------------------ where things are

  datatype Step = Item(i: nat) | Field(name: string)

  type Path = seq<Step>

  predicate Leads(v: Json, step: Step) {
    match step
    case Item(i) => v.Arr? && i < |v.items|
    case Field(f) => v.Obj? && f in v.fields
  }

  function Child(v: Json, step: Step): Json
    requires Leads(v, step)
    ensures Child(v, step) < v
  {
    match step
    case Item(i) => v.items[i]
    case Field(f) => v.fields[f]
  }

  /** What is at `path` in `v`. */
  function At(v: Json, path: Path): Option<Json>
    decreases path
  {
    if path == [] then Some(v)
    else if Leads(v, path[0]) then At(Child(v, path[0]), path[1..])
    else None
  }

  /** The record at `path` is to be collected: it is a book that converts, no deeper than the bound,
      and nothing it is inside of is a book. */
  predicate Collectable(shape: Shape, v: Json, path: Path, bound: int) {
    && |path| <= bound
    && (var here := At(v, path); here.Some? && IsBook(shape, here.value) && Convert(here.value).Some?)
    && forall k :: 0 <= k < |path| ==> NotBookAt(shape, v, path[..k])
  }

  predicate NotBookAt(shape: Shape, v: Json, path: Path) {
    At(v, path).Some? && !IsBook(shape, At(v, path).value)
  }

  /** Seen from one step further in. */
  lemma CollectableInside(shape: Shape, v: Json, path: Path, bound: int)
    requires path != []
    ensures Collectable(shape, v, path, bound) <==>
      !IsBook(shape, v) && Leads(v, path[0]) && Collectable(shape, Child(v, path[0]), path[1..], bound - 1)
  {
    if Leads(v, path[0]) {
      var child, rest := Child(v, path[0]), path[1..];
      assert path[..0] == [];
      forall k | 0 <= k < |rest|
        ensures NotBookAt(shape, child, rest[..k]) <==> NotBookAt(shape, v, path[..k + 1])
      {
        assert path[..k + 1][0] == path[0] && path[..k + 1][1..] == rest[..k];
      }
      if Collectable(shape, v, path, bound) {
        assert NotBookAt(shape, v, path[..0]);
        forall k | 0 <= k < |rest|
          ensures NotBookAt(shape, child, rest[..k])
        {
          assert NotBookAt(shape, v, path[..k + 1]);
        }
      }
      if !IsBook(shape, v) && Collectable(shape, child, rest, bound - 1) {
        forall k | 0 <= k < |path|
          ensures NotBookAt(shape, v, path[..k])
        {
          if k > 0 {
            assert NotBookAt(shape, child, rest[..k - 1]);
          }
        }
      }
    }
  }

  // ------------------------------------------------------------------ the traversal

  /** The order in which the runtime ranges over the fields of the object at a path. */
  type FieldOrder = (Path, map<string, Json>) -> seq<string>

  ghost predicate Ranges(order: FieldOrder) {
    forall path, fields ::
      (forall f :: f in order(path, fields) <==> f in fields) && Distinct(order(path, fields))
  }

  /** What the traversal of `v`, met at `at`, collects, and where: everything no deeper than `bound`. */
  function Found(shape: Shape, order: FieldOrder, v: Json, at: Path, bound: int): seq<(Path, Candidate)>
    decreases v, 1, 0
  {
    if |at| > bound then []
    else match v
      case Arr(items) => FoundItems(shape, order, v, at, bound, 0)
      case Obj(fields) =>
        if IsBook(shape, v) then
          if Convert(v).Some? then [(at, Convert(v).value)] else []
        else FoundFields(shape, order, v, at, bound, order(at, fields))
      case _ => []
  }

  function FoundItems(shape: Shape, order: FieldOrder, v: Json, at: Path, bound: int, i: nat): seq<(Path, Candidate)>
    requires v.Arr? && i <= |v.items|
    decreases v, 0, |v.items| - i
  {
    if i == |v.items| then []
    else Found(shape, order, v.items[i], at + [Item(i)], bound) + FoundItems(shape, order, v, at, bound, i + 1)
  }

  function FoundFields(shape: Shape, order: FieldOrder, v: Json, at: Path, bound: int,
                       names: seq<string>): seq<(Path, Candidate)>
    requires v.Obj?
    decreases v, 0, |names|
  {
    if names == [] then []
    else
      (if names[0] in v.fields then Found(shape, order, v.fields[names[0]], at + [Field(names[0])], bound) else [])
      + FoundFields(shape, order, v, at, bound, names[1..])
  }

  function Second(): ((Path, Candidate)) -> Candidate {
    (x: (Path, Candidate)) => x.1
  }

  function Collected(shape: Shape, order: FieldOrder, v: Json, at: Path, bound: int): seq<Candidate> {
    Map(Found(shape, order, v, at, bound), Second())
  }

  class Results {
    var out: seq<Candidate>

    constructor ()
      ensures out == []
    {
      out := [];
    }
  }

  /** traverseNextData; its copies for the other sources differ in the shape only. */
  method Traverse(shape: Shape, order: FieldOrder, v: Json, at: Path, depth: nat, results: Results)
    requires depth == |at|
    modifies results
    ensures results.out == old(results.out) + Collected(shape, order, v, at, MAX_DEPTH)
    decreases v, 1
  {
    if depth > MAX_DEPTH {
      return;
    }
    if v.Arr? {
      TraverseItems(shape, order, v, at, depth, results);
    } else if v.Obj? {
      if IsBook(shape, v) {
        if Convert(v).Some? {
          results.out := results.out + [Convert(v).value];
        }
        return;
      }
      TraverseFields(shape, order, v, at, depth, results);
    }
  }

  lemma AppendTwice(a: seq<Candidate>, b: seq<Candidate>, c: seq<Candidate>)
    ensures (a + b) + c == a + (b + c)
  {
  }

  lemma ItemsStep(shape: Shape, order: FieldOrder, v: Json, at: Path, i: nat)
    requires v.Arr? && i < |v.items|
    ensures Map(FoundItems(shape, order, v, at, MAX_DEPTH, i), Second()) ==
      Collected(shape, order, v.items[i], at + [Item(i)], MAX_DEPTH)
        + Map(FoundItems(shape, order, v, at, MAX_DEPTH, i + 1), Second())
  {
    MapConcat(Found(shape, order, v.items[i], at + [Item(i)], MAX_DEPTH),
              FoundItems(shape, order, v, at, MAX_DEPTH, i + 1), Second());
  }

  lemma FieldsStep(shape: Shape, order: FieldOrder, v: Json, at: Path, names: seq<string>, i: nat)
    requires v.Obj? && i < |names| && names[i] in v.fields
    ensures Map(FoundFields(shape, order, v, at, MAX_DEPTH, names[i..]), Second()) ==
      Collected(shape, order, v.fields[names[i]], at + [Field(names[i])], MAX_DEPTH)
      + Map(FoundFields(shape, order, v, at, MAX_DEPTH, names[i + 1..]), Second())
  {
    assert names[i..][0] == names[i] && names[i..][1..] == names[i + 1..];
    MapConcat(Found(shape, order, v.fields[names[i]], at + [Field(names[i])], MAX_DEPTH),
              FoundFields(shape, order, v, at, MAX_DEPTH, names[i + 1..]), Second());
  }

  method TraverseItems(shape: Shape, order: FieldOrder, v: Json, at: Path, depth: nat, results: Results)
    requires v.Arr? && depth == |at|
    modifies results
    ensures results.out == old(results.out) + Map(FoundItems(shape, order, v, at, MAX_DEPTH, 0), Second())
    decreases v, 0
  {
    ghost var whole := old(results.out) + Map(FoundItems(shape, order, v, at, MAX_DEPTH, 0), Second());
    for i := 0 to |v.items|
      invariant results.out + Map(FoundItems(shape, order, v, at, MAX_DEPTH, i), Second()) == whole
    {
      var item := at + [Item(i)];
      ItemsStep(shape, order, v, at, i);
      ghost var before, rest := results.out, Map(FoundItems(shape, order, v, at, MAX_DEPTH, i + 1), Second());
      Traverse(shape, order, v.items[i], item, depth + 1, results);
      AppendTwice(before, Collected(shape, order, v.items[i], item, MAX_DEPTH), rest);
    }
  }

  method TraverseFields(shape: Shape, order: FieldOrder, v: Json, at: Path, depth: nat, results: Results)
    requires v.Obj? && depth == |at|
    modifies results
    ensures results.out ==
      old(results.out) + Map(FoundFields(shape, order, v, at, MAX_DEPTH, order(at, v.fields)), Second())
    decreases v, 0
  {
    var names := order(at, v.fields);
    ghost var whole := old(results.out) + Map(FoundFields(shape, order, v, at, MAX_DEPTH, names), Second());
    for i := 0 to |names|
      invariant results.out + Map(FoundFields(shape, order, v, at, MAX_DEPTH, names[i..]), Second()) == whole
    {
      assert names[i..][0] == names[i] && names[i..][1..] == names[i + 1..];
      if names[i] in v.fields {
        var field := at + [Field(names[i])];
        FieldsStep(shape, order, v, at, names, i);
        ghost var before := results.out;
        ghost var rest := Map(FoundFields(shape, order, v, at, MAX_DEPTH, names[i + 1..]), Second());
        Traverse(shape, order, v.fields[names[i]], field, depth + 1, results);
        AppendTwice(before, Collected(shape, order, v.fields[names[i]], field, MAX_DEPTH), rest);
      }
    }
  }

  // ------------------------------------------------------------------ exactly the collectable ones

  /** `x` is a collectable record of `v`, found where it is. */
  ghost predicate Is(shape: Shape, v: Json, at: Path, bound: int, x: (Path, Candidate)) {
    && at <= x.0 && Collectable(shape, v, x.0[|at|..], bound - |at|)
    && x.1 == Convert(At(v, x.0[|at|..]).value).value
  }

  /** `x` is one inside the child of `v` that `step` leads to. */
  ghost predicate IsUnder(shape: Shape, v: Json, at: Path, bound: int, step: Step, x: (Path, Candidate)) {
    Leads(v, step) && at + [step] <= x.0 && Is(shape, Child(v, step), at + [step], bound, x)
  }

  lemma UnderIsIs(shape: Shape, v: Json, at: Path, bound: int, step: Step, x: (Path, Candidate))
    ensures IsUnder(shape, v, at, bound, step, x) && !IsBook(shape, v) ==> Is(shape, v, at, bound, x)
    ensures Is(shape, v, at, bound, x) && |x.0| > |at| && step == x.0[|at|] ==>
      IsUnder(shape, v, at, bound, step, x) && !IsBook(shape, v)
  {
    if at <= x.0 && |x.0| > |at| && step == x.0[|at|] {
      var path := x.0[|at|..];
      assert path[0] == step && path[1..] == x.0[|at + [step]|..];
      assert at + [step] <= x.0;
      CollectableInside(shape, v, path, bound - |at|);
    }
    if at + [step] <= x.0 {
      assert x.0[|at|] == step && at <= x.0;
    }
  }

  lemma {:induction false} FoundIff(shape: Shape, order: FieldOrder, v: Json, at: Path, bound: int,
                                    x: (Path, Candidate))
    requires Ranges(order)
    ensures x in Found(shape, order, v, at, bound) <==> Is(shape, v, at, bound, x)
    decreases v, 1, 0
  {
    if |at| <= bound {
      if v.Obj? && IsBook(shape, v) {
        BookIsItself(shape, v, at, bound, x);
      } else {
        InsideIff(shape, v, at, bound, x);
        if v.Arr? {
          FoundItemsIff(shape, order, v, at, bound, 0, x);
          ItemSteps(shape, v, at, bound, x);
        } else if v.Obj? {
          FoundFieldsIff(shape, order, v, at, bound, order(at, v.fields), x);
          FieldSteps(shape, v, at, bound, order(at, v.fields), x);
        }
      }
    }
  }

  /** Into an array lead the items, ... */
  lemma ItemSteps(shape: Shape, v: Json, at: Path, bound: int, x: (Path, Candidate))
    requires v.Arr?
    ensures (exists k: nat :: 0 <= k < |v.items| && IsUnder(shape, v, at, bound, Item(k), x)) <==>
      (exists step :: IsUnder(shape, v, at, bound, step, x))
  {
    if step :| IsUnder(shape, v, at, bound, step, x) {
      assert step == Item(step.i);
    }
  }

  /** ... and into an object its fields. */
  lemma FieldSteps(shape: Shape, v: Json, at: Path, bound: int, names: seq<string>, x: (Path, Candidate))
    requires v.Obj? && forall f :: f in names <==> f in v.fields
    ensures (exists f :: f in names && IsUnder(shape, v, at, bound, Field(f), x)) <==>
      (exists step :: IsUnder(shape, v, at, bound, step, x))
  {
    if step :| IsUnder(shape, v, at, bound, step, x) {
      assert step == Field(step.name);
    }
  }

  lemma BookIsItself(shape: Shape, v: Json, at: Path, bound: int, x: (Path, Candidate))
    requires IsBook(shape, v) && |at| <= bound
    ensures Is(shape, v, at, bound, x) <==> Convert(v).Some? && x == (at, Convert(v).value)
  {
    if at <= x.0 {
      var path := x.0[|at|..];
      if path != [] {
        CollectableInside(shape, v, path, bound - |at|);
      } else {
        assert x.0 == at;
      }
    }
    assert at[|at|..] == [];
  }

  /** What is not a book itself is collected from exactly through its children. */
  lemma InsideIff(shape: Shape, v: Json, at: Path, bound: int, x: (Path, Candidate))
    requires !IsBook(shape, v)
    ensures Is(shape, v, at, bound, x) <==> exists step :: IsUnder(shape, v, at, bound, step, x)
  {
    if Is(shape, v, at, bound, x) {
      assert x.0[|at|..] != [];
      UnderIsIs(shape, v, at, bound, x.0[|at|], x);
    }
    forall step | IsUnder(shape, v, at, bound, step, x)
      ensures Is(shape, v, at, bound, x)
    {
      UnderIsIs(shape, v, at, bound, step, x);
    }
  }

  lemma {:induction false} FoundItemsIff(shape: Shape, order: FieldOrder, v: Json, at: Path, bound: int, i: nat,
                                         x: (Path, Candidate))
    requires Ranges(order) && v.Arr? && i <= |v.items|
    ensures x in FoundItems(shape, order, v, at, bound, i) <==>
      exists k: nat :: i <= k < |v.items| && IsUnder(shape, v, at, bound, Item(k), x)
    decreases v, 0, |v.items| - i
  {
    if i < |v.items| {
      FoundIff(shape, order, v.items[i], at + [Item(i)], bound, x);
      FoundItemsIff(shape, order, v, at, bound, i + 1, x);
      assert IsUnder(shape, v, at, bound, Item(i), x) <==> Is(shape, v.items[i], at + [Item(i)], bound, x);
    }
  }

  lemma {:induction false} FoundFieldsIff(shape: Shape, order: FieldOrder, v: Json, at: Path, bound: int,
                                          names: seq<string>, x: (Path, Candidate))
    requires Ranges(order) && v.Obj?
    ensures x in FoundFields(shape, order, v, at, bound, names) <==>
      exists f :: f in names && IsUnder(shape, v, at, bound, Field(f), x)
    decreases v, 0, |names|
  {
    if names != [] {
      if names[0] in v.fields {
        FoundIff(shape, order, v.fields[names[0]], at + [Field(names[0])], bound, x);
      }
      FoundFieldsIff(shape, order, v, at, bound, names[1..], x);
      assert forall f :: f in names <==> f == names[0] || f in names[1..];
      assert IsUnder(shape, v, at, bound, Field(names[0]), x) <==>
        names[0] in v.fields && Is(shape, v.fields[names[0]], at + [Field(names[0])], bound, x);
    }
  }

  // ------------------------------------------------------------------ each once

  ghost predicate PathsDistinct(s: seq<(Path, Candidate)>) {
    forall i, j :: 0 <= i < j < |s| ==> s[i].0 != s[j].0
  }

  lemma PathsDistinctConcat(a: seq<(Path, Candidate)>, b: seq<(Path, Candidate)>)
    requires PathsDistinct(a) && PathsDistinct(b)
    requires forall x, y :: x in a && y in b ==> x.0 != y.0
    ensures PathsDistinct(a + b)
  {
    forall i, j | 0 <= i < j < |a + b|
      ensures (a + b)[i].0 != (a + b)[j].0
    {
      assert i < |a| <= j ==> a[i] in a && b[j - |a|] in b;
    }
  }

  lemma {:induction false} FoundOnce(shape: Shape, order: FieldOrder, v: Json, at: Path, bound: int)
    requires Ranges(order)
    ensures PathsDistinct(Found(shape, order, v, at, bound))
    decreases v, 1, 0
  {
    if v.Arr? {
      FoundItemsOnce(shape, order, v, at, bound, 0);
    } else if v.Obj? {
      FoundFieldsOnce(shape, order, v, at, bound, order(at, v.fields));
    }
  }

  /** Different steps lead to different paths. */
  lemma StepsApart(shape: Shape, v: Json, at: Path, bound: int, s: Step, t: Step, x: (Path, Candidate),
                   y: (Path, Candidate))
    requires IsUnder(shape, v, at, bound, s, x) && IsUnder(shape, v, at, bound, t, y) && s != t
    ensures x.0 != y.0
  {
    assert x.0[|at|] == s && y.0[|at|] == t;
  }

  lemma {:induction false} FoundItemsOnce(shape: Shape, order: FieldOrder, v: Json, at: Path, bound: int, i: nat)
    requires Ranges(order) && v.Arr? && i <= |v.items|
    ensures PathsDistinct(FoundItems(shape, order, v, at, bound, i))
    decreases v, 0, |v.items| - i
  {
    if i < |v.items| {
      var first := Found(shape, order, v.items[i], at + [Item(i)], bound);
      var rest := FoundItems(shape, order, v, at, bound, i + 1);
      FoundOnce(shape, order, v.items[i], at + [Item(i)], bound);
      FoundItemsOnce(shape, order, v, at, bound, i + 1);
      forall x, y | x in first && y in rest
        ensures x.0 != y.0
      {
        FoundIff(shape, order, v.items[i], at + [Item(i)], bound, x);
        assert IsUnder(shape, v, at, bound, Item(i), x);
        FoundItemsIff(shape, order, v, at, bound, i + 1, y);
        var k: nat :| i + 1 <= k < |v.items| && IsUnder(shape, v, at, bound, Item(k), y);
        StepsApart(shape, v, at, bound, Item(i), Item(k), x, y);
      }
      PathsDistinctConcat(first, rest);
    }
  }

  lemma {:induction false} FoundFieldsOnce(shape: Shape, order: FieldOrder, v: Json, at: Path, bound: int,
                                           names: seq<string>)
    requires Ranges(order) && v.Obj? && Distinct(names)
    ensures PathsDistinct(FoundFields(shape, order, v, at, bound, names))
    decreases v, 0, |names|
  {
    if names != [] {
      var f, rest := names[0], FoundFields(shape, order, v, at, bound, names[1..]);
      assert forall i :: 0 <= i < |names[1..]| ==> names[1..][i] == names[i + 1];
      FoundFieldsOnce(shape, order, v, at, bound, names[1..]);
      if f in v.fields {
        var first := Found(shape, order, v.fields[f], at + [Field(f)], bound);
        FoundOnce(shape, order, v.fields[f], at + [Field(f)], bound);
        forall x, y | x in first && y in rest
          ensures x.0 != y.0
        {
          FoundIff(shape, order, v.fields[f], at + [Field(f)], bound, x);
          assert IsUnder(shape, v, at, bound, Field(f), x);
          FoundFieldsIff(shape, order, v, at, bound, names[1..], y);
          var g :| g in names[1..] && IsUnder(shape, v, at, bound, Field(g), y);
          StepsApart(shape, v, at, bound, Field(f), Field(g), x, y);
        }
        PathsDistinctConcat(first, rest);
      } else {
        assert FoundFields(shape, order, v, at, bound, names) == rest;
      }
    }
  }

  // ------------------------------------------------------------------ main results

  /** On any tree the traversal collects exactly the convertible book records at depth 64 at most that
      are inside no other book, each once, as what it converts to. */
  lemma CollectsExactly(shape: Shape, order: FieldOrder, v: Json)
    requires Ranges(order)
    ensures var found := Found(shape, order, v, [], MAX_DEPTH);
      && PathsDistinct(found)
      && Collected(shape, order, v, [], MAX_DEPTH) == Map(found, Second())
      && (forall path, c :: (path, c) in found <==>
          |path| <= 64 && Records(shape, v, path, c) && !InsideBook(shape, v, path))
  {
    FoundOnce(shape, order, v, [], MAX_DEPTH);
    forall path, c
      ensures (path, c) in Found(shape, order, v, [], MAX_DEPTH) <==>
        |path| <= 64 && Records(shape, v, path, c) && !InsideBook(shape, v, path)
    {
      FoundIff(shape, order, v, [], MAX_DEPTH, (path, c));
      assert path[0..] == path;
      CollectableExactly(shape, v, path, c);
    }
  }

  /** At `path` is an object with a title and one of the shape's other fields. */
  predicate HasShape(shape: Shape, v: Json, path: Path) {
    match At(v, path)
    case Some(Obj(fields)) => "title" in fields && exists f :: f in fields && f in shape
    case _ => false
  }

  /** Its title is a text, not empty, and `c` carries it and the object's fields. */
  predicate Records(shape: Shape, v: Json, path: Path, c: Candidate) {
    && HasShape(shape, v, path)
    && (var fields := At(v, path).value.fields;
        fields["title"].Str? && fields["title"].text == c.title != "" && c.record == fields)
  }

  predicate InsideBook(shape: Shape, v: Json, path: Path) {
    exists k :: 0 <= k < |path| && HasShape(shape, v, path[..k])
  }

  lemma {:induction false} AtPrefix(v: Json, path: Path, k: nat)
    requires k <= |path| && At(v, path).Some?
    ensures At(v, path[..k]).Some?
    decreases path
  {
    if k > 0 {
      AtPrefix(Child(v, path[0]), path[1..], k - 1);
      assert path[..k][1..] == path[1..][..k - 1];
    }
  }

  lemma CollectableExactly(shape: Shape, v: Json, path: Path, c: Candidate)
    ensures Collectable(shape, v, path, 64) && c == Convert(At(v, path).value).value <==>
      |path| <= 64 && Records(shape, v, path, c) && !InsideBook(shape, v, path)
  {
    if At(v, path).Some? {
      forall k | 0 <= k < |path|
        ensures NotBookAt(shape, v, path[..k]) <==> !HasShape(shape, v, path[..k])
      {
        AtPrefix(v, path, k);
      }
    }
  }

  /** What makes a book record of each source. */
  lemma ShapesAre(fields: map<string, Json>)
    ensures IsBook(STORYTEL, Obj(fields)) <==>
      && "title" in fields
      && ("consumableId" in fields || "bookId" in fields || "authors" in fields || "narrators" in fields
          || "duration" in fields)
    ensures IsBook(BOOKBEAT, Obj(fields)) <==>
      && "title" in fields
      && ("id" in fields || "bookId" in fields || "authors" in fields || "narrators" in fields
          || "duration" in fields || "coverUrl" in fields)
    ensures IsBook(AUDIOTEKA, Obj(fields)) <==>
      && "title" in fields
      && ("id" in fields || "authors" in fields || "narrators" in fields || "duration" in fields
          || "coverUrl" in fields || "isbn" in fields)
  {
    assert "bookId" in STORYTEL && "bookId" in BOOKBEAT && "isbn" in AUDIOTEKA;
  }

  /** The order in which the runtime ranges over fields changes nothing but the order of the records. */
  lemma FieldOrderIrrelevant(shape: Shape, order: FieldOrder, order': FieldOrder, v: Json)
    requires Ranges(order) && Ranges(order')
    ensures multiset(Collected(shape, order, v, [], MAX_DEPTH)) == multiset(Collected(shape, order', v, [], MAX_DEPTH))
  {
    var a, b := Found(shape, order, v, [], MAX_DEPTH), Found(shape, order', v, [], MAX_DEPTH);
    FoundOnce(shape, order, v, [], MAX_DEPTH);
    FoundOnce(shape, order', v, [], MAX_DEPTH);
    forall x
      ensures x in a <==> x in b
    {
      FoundIff(shape, order, v, [], MAX_DEPTH, x);
      FoundIff(shape, order', v, [], MAX_DEPTH, x);
    }
    DistinctSameElements(a, b);
    MapOfPermutation(a, b, Second());
  }

  /** Nothing in `v` is deeper than `h`. */
  ghost predicate NoDeeper(v: Json, h: int) {
    forall path :: At(v, path).Some? ==> |path| <= h
  }

  /** On a tree no higher than the bound, the bound does not show. */
  lemma ShallowIsUnbounded(shape: Shape, order: FieldOrder, v: Json, bound: int)
    requires Ranges(order) && NoDeeper(v, MAX_DEPTH) && bound >= MAX_DEPTH
    ensures Found(shape, order, v, [], MAX_DEPTH) == Found(shape, order, v, [], bound)
  {
    SameWithinHeight(shape, order, v, [], MAX_DEPTH, bound);
  }

  lemma ChildNoDeeper(v: Json, h: int, step: Step)
    requires NoDeeper(v, h) && Leads(v, step)
    ensures NoDeeper(Child(v, step), h - 1)
  {
    forall path | At(Child(v, step), path).Some?
      ensures |path| <= h - 1
    {
      assert ([step] + path)[1..] == path;
      assert At(v, [step] + path).Some?;
    }
  }

  lemma {:induction false} SameWithinHeight(shape: Shape, order: FieldOrder, v: Json, at: Path, bound: int, bound': int)
    requires NoDeeper(v, bound - |at|) && bound <= bound'
    ensures Found(shape, order, v, at, bound) == Found(shape, order, v, at, bound')
    decreases v, 1, 0
  {
    assert At(v, []).Some?;
    if v.Arr? {
      SameItems(shape, order, v, at, bound, bound', 0);
    } else if v.Obj? {
      SameFields(shape, order, v, at, bound, bound', order(at, v.fields));
    }
  }

  lemma {:induction false} SameItems(shape: Shape, order: FieldOrder, v: Json, at: Path, bound: int, bound': int,
                                     i: nat)
    requires v.Arr? && i <= |v.items| && NoDeeper(v, bound - |at|) && bound <= bound'
    ensures FoundItems(shape, order, v, at, bound, i) == FoundItems(shape, order, v, at, bound', i)
    decreases v, 0, |v.items| - i
  {
    if i < |v.items| {
      ChildNoDeeper(v, bound - |at|, Item(i));
      SameWithinHeight(shape, order, v.items[i], at + [Item(i)], bound, bound');
      SameItems(shape, order, v, at, bound, bound', i + 1);
    }
  }

  lemma {:induction false} SameFields(shape: Shape, order: FieldOrder, v: Json, at: Path, bound: int, bound': int,
                                      names: seq<string>)
    requires v.Obj? && NoDeeper(v, bound - |at|) && bound <= bound'
    ensures FoundFields(shape, order, v, at, bound, names) == FoundFields(shape, order, v, at, bound', names)
    decreases v, 0, |names|
  {
    if names != [] {
      if names[0] in v.fields {
        ChildNoDeeper(v, bound - |at|, Field(names[0]));
        SameWithinHeight(shape, order, v.fields[names[0]], at + [Field(names[0])], bound, bound');
      }
      SameFields(shape, order, v, at, bound, bound', names[1..]);
    }
  }
}
