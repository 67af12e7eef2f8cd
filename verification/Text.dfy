/** Go strings as byte sequences, with the few string helpers the catalog cursor uses. */
module Text {

  type Byte = x: int | 0 <= x < 256

  type Bytes = seq<Byte>

  datatype Option<+T> = None | Some(value: T)

  /** A failed statement carries no more than the fact that it failed. */
  datatype Result<+T> = Ok(value: T) | Err

  /** The position of the last `sep` in `s`, or -1. */
  function LastIndex(s: Bytes, sep: Byte): (i: int)
    ensures -1 <= i < |s|
    ensures 0 <= i ==> s[i] == sep
    ensures forall k :: i < k < |s| ==> s[k] != sep
  {
    if s == [] then -1
    else if s[|s| - 1] == sep then |s| - 1
    else LastIndex(s[..|s| - 1], sep)
  }

  function CutPrefix(s: Bytes, prefix: Bytes): (r: Option<Bytes>)
    ensures r.Some? <==> prefix <= s
    ensures r.Some? ==> s == prefix + r.value
  {
    if prefix <= s then Some(s[|prefix|..]) else None
  }

  /** What is before and after the last separator is determined by the whole. */
  lemma {:induction false} LastIndexOfJoin(left: Bytes, sep: Byte, right: Bytes)
    requires sep !in right
    ensures LastIndex(left + [sep] + right, sep) == |left|
  {
    var s := left + [sep] + right;
    if right != [] {
      var n := |right| - 1;
      assert right[n] in right;
      assert s[|s| - 1] == right[n];
      assert s[..|s| - 1] == left + [sep] + right[..n];
      LastIndexOfJoin(left, sep, right[..n]);
    }
  }

  /** The last separator splits what was joined: two joins are equal only part by part. */
  lemma JoinAtLast(a: Bytes, b: Bytes, c: Bytes, d: Bytes, sep: Byte)
    requires sep !in b && sep !in d
    requires a + [sep] + b == c + [sep] + d
    ensures a == c && b == d
  {
    LastIndexOfJoin(a, sep, b);
    LastIndexOfJoin(c, sep, d);
    var s := a + [sep] + b;
    assert s[..|a|] == a && s[|a| + 1..] == b;
    assert (c + [sep] + d)[..|c|] == c && (c + [sep] + d)[|c| + 1..] == d;
  }

  /** The position of the first `sep` in `s`, or its length. */
  function FirstIndex(s: Bytes, sep: Byte): nat {
    if s == [] || s[0] == sep then 0 else 1 + FirstIndex(s[1..], sep)
  }

  lemma {:induction false} FirstIndexOfJoin(left: Bytes, sep: Byte, right: Bytes)
    requires sep !in left
    ensures FirstIndex(left + [sep] + right, sep) == |left|
  {
    if left != [] {
      assert left[0] in left;
      assert (left + [sep] + right)[1..] == left[1..] + [sep] + right;
      FirstIndexOfJoin(left[1..], sep, right);
    }
  }

  /** So does the first. */
  lemma JoinAtFirst(a: Bytes, b: Bytes, c: Bytes, d: Bytes, sep: Byte)
    requires sep !in a && sep !in c
    requires a + [sep] + b == c + [sep] + d
    ensures a == c && b == d
  {
    FirstIndexOfJoin(a, sep, b);
    FirstIndexOfJoin(c, sep, d);
    var s := a + [sep] + b;
    assert s[..|a|] == a && s[|a| + 1..] == b;
    assert (c + [sep] + d)[..|c|] == c && (c + [sep] + d)[|c| + 1..] == d;
  }
}
