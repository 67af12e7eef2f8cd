/** The few shapes of SQL the catalog queries are assembled from, with numbered placeholders. */
module Sql {
  import opened Text
  import opened Orders
  import opened Library
  import Keyset

  datatype Arg = TextArg(text: Bytes) | IntArg(number: int)

  datatype Op = Below | Same | Above

  /** `n` is the placeholder `$n`; `cast` marks `$n::timestamptz`. */
  datatype Expr =
    | NotDeleted
    | LibraryEnabled
    | LibraryIs(n: nat)
    | NotEmpty(col: Column)
    | Compare(col: Column, op: Op, n: nat, cast: bool)
    | IdAbove(n: nat)
    | Like(col: Column, n: nat)
    | And(left: Expr, right: Expr)
    | Or(left: Expr, right: Expr)

  predicate Provided(args: seq<Arg>, n: nat) {
    1 <= n <= |args|
  }

  function Operand(db: Engine, args: seq<Arg>, n: nat, cast: bool): Option<Value> {
    if Provided(args, n) && args[n - 1].TextArg? then ReadValue(db, args[n - 1].text, cast) else None
  }

  /** Every placeholder has an argument of the type its place asks for; otherwise the statement
      fails, whatever the rows. */
  predicate Binds(db: Engine, e: Expr, args: seq<Arg>) {
    match e
    case NotDeleted => true
    case LibraryEnabled => true
    case LibraryIs(n) => Provided(args, n) && args[n - 1].IntArg?
    case NotEmpty(col) => !IsTime(col)
    case Compare(col, _, n, cast) => cast == IsTime(col) && Operand(db, args, n, cast).Some?
    case IdAbove(n) => Provided(args, n) && args[n - 1].TextArg?
    case Like(col, n) => !IsTime(col) && Provided(args, n) && args[n - 1].TextArg?
    case And(a, b) => Binds(db, a, args) && Binds(db, b, args)
    case Or(a, b) => Binds(db, a, args) && Binds(db, b, args)
  }

  /** Whether a statement that binds accepts the row `b`. */
  predicate Eval(db: Engine, t: Table, e: Expr, args: seq<Arg>, b: Book) {
    match e
    case NotDeleted => !b.deleted
    case LibraryEnabled => b.library in t.enabled
    case LibraryIs(n) => Binds(db, e, args) && b.library == args[n - 1].number
    case NotEmpty(col) => Cell(b, col) != TextValue([])
    case Compare(col, op, n, cast) =>
      Binds(db, e, args) &&
      (var v := Operand(db, args, n, cast).value;
       match op
       case Below => ValueLess(db, Cell(b, col), v)
       case Same => Cell(b, col) == v
       case Above => ValueLess(db, v, Cell(b, col)))
    case IdAbove(n) => Binds(db, e, args) && db.collate(args[n - 1].text, b.id)
    case Like(col, n) => Binds(db, e, args) && db.ilike(Cell(b, col).text, args[n - 1].text)
    case And(l, r) => Eval(db, t, l, args, b) && Eval(db, t, r, args, b)
    case Or(l, r) => Eval(db, t, l, args, b) || Eval(db, t, r, args, b)
  }

  function Accepts(db: Engine, t: Table, e: Expr, args: seq<Arg>): Book -> bool {
    b => Eval(db, t, e, args, b)
  }

  predicate BindsLimit(args: seq<Arg>, n: nat) {
    Provided(args, n) && args[n - 1].IntArg? && args[n - 1].number >= 0
  }

  /** SELECT ... WHERE where ORDER BY col dir, id LIMIT $limit. */
  function Select(db: Engine, t: Table, where_: Expr, args: seq<Arg>, col: Column, dir: Direction,
                  limit: nat): Result<seq<Book>> {
    if !Binds(db, where_, args) || !BindsLimit(args, limit) then Err
    else
      var rows := Filter(t.rows, Accepts(db, t, where_, args));
      Ok(Take(Sort(rows, Keyset.ByKey(KeyOf(col), KeyOrder(db, dir))), args[limit - 1].number))
  }

  /** The clauses joined by AND, from the left. */
  function AndAll(clauses: seq<Expr>): Expr
    requires clauses != []
  {
    var n := |clauses| - 1;
    if n == 0 then clauses[0] else And(AndAll(clauses[..n]), clauses[n])
  }

  predicate AllBind(db: Engine, clauses: seq<Expr>, args: seq<Arg>) {
    forall i :: 0 <= i < |clauses| ==> Binds(db, clauses[i], args)
  }

  predicate AllEval(db: Engine, t: Table, clauses: seq<Expr>, args: seq<Arg>, b: Book) {
    forall i :: 0 <= i < |clauses| ==> Eval(db, t, clauses[i], args, b)
  }

  lemma {:induction false} AndAllBinds(db: Engine, clauses: seq<Expr>, args: seq<Arg>)
    requires clauses != []
    ensures Binds(db, AndAll(clauses), args) <==> AllBind(db, clauses, args)
  {
    var n := |clauses| - 1;
    if n > 0 {
      AndAllBinds(db, clauses[..n], args);
      assert forall i :: 0 <= i < n ==> clauses[..n][i] == clauses[i];
      assert AllBind(db, clauses, args) <==> AllBind(db, clauses[..n], args) && Binds(db, clauses[n], args);
    }
  }

  lemma {:induction false} AndAllEval(db: Engine, t: Table, clauses: seq<Expr>, args: seq<Arg>, b: Book)
    requires clauses != []
    ensures Eval(db, t, AndAll(clauses), args, b) <==> AllEval(db, t, clauses, args, b)
  {
    var n := |clauses| - 1;
    if n > 0 {
      AndAllEval(db, t, clauses[..n], args, b);
      assert forall i :: 0 <= i < n ==> clauses[..n][i] == clauses[i];
      assert AllEval(db, t, clauses, args, b) <==>
        AllEval(db, t, clauses[..n], args, b) && Eval(db, t, clauses[n], args, b);
    }
  }

  lemma AppendedClauses(db: Engine, t: Table, first: seq<Expr>, last: seq<Expr>, args: seq<Arg>, b: Book)
    ensures AllBind(db, first + last, args) <==> AllBind(db, first, args) && AllBind(db, last, args)
    ensures AllEval(db, t, first + last, args, b) <==> AllEval(db, t, first, args, b) && AllEval(db, t, last, args, b)
  {
    var all := first + last;
    assert forall i :: 0 <= i < |first| ==> all[i] == first[i];
    assert forall i :: 0 <= i < |last| ==> all[|first| + i] == last[i];
  }

  /** col > $n OR (col = $n AND id > $n+1), with < for a descending column. */
  function KeysetExpr(col: Column, dir: Direction, isTime: bool, n: nat): Expr {
    Or(Compare(col, if dir == Desc then Below else Above, n, isTime),
       And(Compare(col, Same, n, isTime), IdAbove(n + 1)))
  }

  /** The keyset predicate accepts exactly the rows strictly after the key its two arguments spell,
      and fails to bind exactly when the first does not read as a value of the column. */
  lemma KeysetMeaning(db: Engine, t: Table, col: Column, dir: Direction, n: nat, args: seq<Arg>, text: Bytes, id: Bytes)
    requires 1 <= n < |args| && args[n - 1] == TextArg(text) && args[n] == TextArg(id)
    ensures match ReadValue(db, text, IsTime(col))
      case None => !Binds(db, KeysetExpr(col, dir, IsTime(col), n), args)
      case Some(v) =>
        && Binds(db, KeysetExpr(col, dir, IsTime(col), n), args)
        && forall b :: (Eval(db, t, KeysetExpr(col, dir, IsTime(col), n), args, b) ==
                        KeyLess(db, dir, Key(v, id), KeyOf(col)(b)))
  {
    var e := KeysetExpr(col, dir, IsTime(col), n);
    assert Operand(db, args, n, IsTime(col)) == ReadValue(db, text, IsTime(col));
    assert Binds(db, e.left, args) == ReadValue(db, text, IsTime(col)).Some?;
    assert Binds(db, e.right.right, args);
    match ReadValue(db, text, IsTime(col))
    case None =>
    case Some(v) =>
      forall b
        ensures Eval(db, t, e, args, b) == KeyLess(db, dir, Key(v, id), KeyOf(col)(b))
      {
        assert Eval(db, t, e.right.left, args, b) == (Cell(b, col) == v);
        assert Eval(db, t, e.right.right, args, b) == db.collate(id, b.id);
      }
  }
}
