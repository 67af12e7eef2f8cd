/** The scanner's ids: a hash of path, size and modification time. */
module StableId {
  import opened Text

  const NUL: Byte := 0
  const MINUS: Byte := 45
  const ZERO: Byte := 48

  /** %d of a natural number. */
  function Decimal(n: nat): (s: Bytes)
    ensures s != [] && MINUS !in s && NUL !in s
  {
    if n < 10 then [ZERO + n] else Decimal(n / 10) + [ZERO + n % 10]
  }

  /** The number a run of digits spells. */
  function Read(s: Bytes): int {
    if s == [] then 0 else 10 * Read(s[..|s| - 1]) + (s[|s| - 1] - ZERO)
  }

  lemma {:induction false} ReadDecimal(n: nat)
    ensures Read(Decimal(n)) == n
  {
    if n >= 10 {
      ReadDecimal(n / 10);
      var s := Decimal(n);
      assert s[..|s| - 1] == Decimal(n / 10);
    } else {
      assert Decimal(n)[..0] == [];
    }
  }

  /** %d of an integer. */
  function Integer(n: int): (s: Bytes)
    ensures NUL !in s
  {
    if n < 0 then [MINUS] + Decimal(-n) else Decimal(n)
  }

  lemma IntegerInjective(m: int, n: int)
    requires Integer(m) == Integer(n)
    ensures m == n
  {
    if m < 0 {
      assert Integer(m)[0] == MINUS && Integer(m)[1..] == Decimal(-m);
    } else {
      assert Integer(m)[0] in Decimal(m);
    }
    if n < 0 {
      assert Integer(n)[0] == MINUS && Integer(n)[1..] == Decimal(-n);
    } else {
      assert Integer(n)[0] in Decimal(n);
    }
    ReadDecimal(if m < 0 then -m else m);
    ReadDecimal(if n < 0 then -n else n);
  }

  /** "%s\x00%d\x00%d" */
  function Encoding(path: Bytes, size: int, mtime: int): Bytes {
    (path + [NUL] + Integer(size)) + [NUL] + Integer(mtime)
  }

  /** What is hashed determines path, size and time, whatever bytes the path holds. */
  lemma EncodingInjective(path: Bytes, size: int, mtime: int, path': Bytes, size': int, mtime': int)
    ensures Encoding(path, size, mtime) == Encoding(path', size', mtime') <==>
      path == path' && size == size' && mtime == mtime'
  {
    if Encoding(path, size, mtime) == Encoding(path', size', mtime') {
      JoinAtLast(path + [NUL] + Integer(size), Integer(mtime), path' + [NUL] + Integer(size'), Integer(mtime'), NUL);
      JoinAtLast(path, Integer(size), path', Integer(size'), NUL);
      IntegerInjective(size, size');
      IntegerInjective(mtime, mtime');
    }
  }

  /** The path "a", 120 bytes, 3 nanoseconds before the epoch. */
  lemma KnownAnswer()
    ensures Encoding([97], 120, -3) == [97, 0, 49, 50, 48, 0, 45, 51]
  {
    assert Decimal(12) == [49, 50];
    assert Integer(120) == [49, 50, 48] && Integer(-3) == [45, 51];
  }

  type Hash = Bytes -> Bytes

  ghost predicate CollisionFree(hash: Hash) {
    forall a, b :: hash(a) == hash(b) ==> a == b
  }

  function Of(hash: Hash, path: Bytes, size: int, mtime: int): Bytes {
    hash(Encoding(path, size, mtime))
  }

  /** `id` is the StableID of some version of the file at `path`. */
  ghost predicate BelongsTo(hash: Hash, id: Bytes, path: Bytes) {
    exists size, mtime :: id == Of(hash, path, size, mtime)
  }

  /** An id belongs to one path at most. */
  lemma OnePath(hash: Hash, id: Bytes, path: Bytes, path': Bytes)
    requires CollisionFree(hash)
    requires BelongsTo(hash, id, path) && BelongsTo(hash, id, path')
    ensures path == path'
  {
    var size, mtime :| id == Of(hash, path, size, mtime);
    var size', mtime' :| id == Of(hash, path', size', mtime');
    EncodingInjective(path, size, mtime, path', size', mtime');
  }
}
