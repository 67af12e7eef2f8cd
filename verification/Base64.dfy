/** The unpadded URL-safe base64 of section 5 of RFC 4648 (no padding, section 3.2),
    as Go's RawURLEncoding reads and writes it: bytes to sextets, sextets to letters, and back. */
module Base64 {
  import opened Text

  const CR: Byte := 13
  const LF: Byte := 10

  type Sextet = n: int | 0 <= n < 64

  /** The 64 letters A-Z a-z 0-9 - _ in order. */
  function Letter(n: Sextet): (c: Byte)
    ensures c != CR && c != LF
  {
    if n < 26 then 65 + n
    else if n < 52 then 97 + (n - 26)
    else if n < 62 then 48 + (n - 52)
    else if n == 62 then 45
    else 95
  }

  function Digit(c: Byte): Option<Sextet> {
    if 65 <= c < 91 then Some(c - 65)
    else if 97 <= c < 123 then Some(c - 97 + 26)
    else if 48 <= c < 58 then Some(c - 48 + 52)
    else if c == 45 then Some(62)
    else if c == 95 then Some(63)
    else None
  }

  function Letters(d: seq<Sextet>): Bytes {
    if d == [] then [] else [Letter(d[0])] + Letters(d[1..])
  }

  /** A byte outside the alphabet is an error; line breaks anywhere are ignored. */
  function Digits(s: Bytes): Option<seq<Sextet>> {
    if s == [] then Some([])
    else if s[0] == CR || s[0] == LF then Digits(s[1..])
    else match (Digit(s[0]), Digits(s[1..]))
      case (Some(d), Some(rest)) => Some([d] + rest)
      case _ => None
  }

  // The four sextets of a quantum, from its bytes x, y and z, ...
  function First(x: Byte): Sextet { x / 4 }

  function Second(x: Byte, y: Byte): Sextet { x % 4 * 16 + y / 16 }

  function Third(y: Byte, z: Byte): Sextet { y % 16 * 4 + z / 64 }

  function Fourth(z: Byte): Sextet { z % 64 }

  // ... and the three bytes of a quantum, from its sextets.
  function High(p: Sextet, q: Sextet): Byte { p * 4 + q / 16 }

  function Middle(q: Sextet, r: Sextet): Byte { q % 16 * 16 + r / 4 }

  function Low(r: Sextet, s: Sextet): Byte { r % 4 * 64 + s }

  /** Three bytes to four sextets; one or two left over give two or three. */
  function Sextets(b: Bytes): seq<Sextet> {
    if |b| == 0 then []
    else if |b| == 1 then [First(b[0]), Second(b[0], 0)]
    else if |b| == 2 then [First(b[0]), Second(b[0], b[1]), Third(b[1], 0)]
    else [First(b[0]), Second(b[0], b[1]), Third(b[1], b[2]), Fourth(b[2])] + Sextets(b[3..])
  }

  /** A lone last sextet is an error; unused low bits of the last one are not looked at. */
  function Unpack(d: seq<Sextet>): Option<Bytes> {
    if |d| == 0 then Some([])
    else if |d| == 1 then None
    else if |d| == 2 then Some([High(d[0], d[1])])
    else if |d| == 3 then Some([High(d[0], d[1]), Middle(d[1], d[2])])
    else match Unpack(d[4..])
      case None => None
      case Some(rest) => Some([High(d[0], d[1]), Middle(d[1], d[2]), Low(d[2], d[3])] + rest)
  }

  function Encode(b: Bytes): Bytes {
    Letters(Sextets(b))
  }

  function Decode(s: Bytes): Option<Bytes> {
    match Digits(s)
    case None => None
    case Some(d) => Unpack(d)
  }

  lemma DigitOfLetter(n: Sextet)
    ensures Digit(Letter(n)) == Some(n)
  {
  }

  lemma {:induction false} DigitsOfLetters(d: seq<Sextet>)
    ensures Digits(Letters(d)) == Some(d)
  {
    if d != [] {
      DigitsOfLetters(d[1..]);
      DigitOfLetter(d[0]);
      assert Letters(d)[1..] == Letters(d[1..]);
      assert d == [d[0]] + d[1..];
    }
  }

  lemma QuantumRoundTrip(x: Byte, y: Byte, z: Byte)
    ensures High(First(x), Second(x, y)) == x
    ensures Middle(Second(x, y), Third(y, z)) == y
    ensures Low(Third(y, z), Fourth(z)) == z
  {
  }

  lemma UnpackFour(p: Sextet, q: Sextet, r: Sextet, s: Sextet, tail: seq<Sextet>)
    requires Unpack(tail).Some?
    ensures Unpack([p, q, r, s] + tail) == Some([High(p, q), Middle(q, r), Low(r, s)] + Unpack(tail).value)
  {
    assert ([p, q, r, s] + tail)[4..] == tail;
  }

  lemma UnpackTwo(x: Byte)
    ensures Unpack(Sextets([x])) == Some([x])
  {
    assert Unpack([First(x), Second(x, 0)]) == Some([High(First(x), Second(x, 0))]);
    QuantumRoundTrip(x, 0, 0);
  }

  lemma UnpackThree(x: Byte, y: Byte)
    ensures Unpack(Sextets([x, y])) == Some([x, y])
  {
    var p, q, r := First(x), Second(x, y), Third(y, 0);
    assert Unpack([p, q, r]) == Some([High(p, q), Middle(q, r)]);
    QuantumRoundTrip(x, y, 0);
  }

  lemma {:induction false} UnpackSextets(b: Bytes)
    ensures Unpack(Sextets(b)) == Some(b)
  {
    if |b| >= 3 {
      var x, y, z, more := b[0], b[1], b[2], b[3..];
      UnpackSextets(more);
      UnpackFour(First(x), Second(x, y), Third(y, z), Fourth(z), Sextets(more));
      QuantumRoundTrip(x, y, z);
      assert b == [x, y, z] + more;
    } else if |b| == 2 {
      UnpackThree(b[0], b[1]);
      assert b == [b[0], b[1]];
    } else if |b| == 1 {
      UnpackTwo(b[0]);
      assert b == [b[0]];
    }
  }

  /** Decoding undoes encoding on every byte string. */
  lemma RoundTrip(b: Bytes)
    ensures Decode(Encode(b)) == Some(b)
  {
    UnpackSextets(b);
    DigitsOfLetters(Sextets(b));
  }

  /** Table 2 of section 5 of RFC 4648: A to Z, a to z, 0 to 9, minus and underline. */
  lemma LettersFollowTable(n: Sextet)
    ensures Letter(0) == 'A' as int && Letter(25) == 'Z' as int && Letter(26) == 'a' as int && Letter(51) == 'z' as int
    ensures Letter(52) == '0' as int && Letter(61) == '9' as int && Letter(62) == '-' as int && Letter(63) == '_' as int
    ensures n !in {25, 51, 61, 62, 63} ==> Letter(n + 1) == Letter(n) + 1
  {
  }

  /** Three bytes are four letters, of six bits each from the highest ... */
  lemma ThreeBytesAreFourLetters(x: Byte, y: Byte, z: Byte, more: Bytes)
    ensures Encode([x, y, z] + more) ==
      [Letter(x / 4), Letter(x % 4 * 16 + y / 16), Letter(y % 16 * 4 + z / 64), Letter(z % 64)] + Encode(more)
  {
    var p, q, r, s := First(x), Second(x, y), Third(y, z), Fourth(z);
    assert ([x, y, z] + more)[3..] == more;
    assert Sextets([x, y, z] + more) == [p, q, r, s] + Sextets(more);
    LettersConcat([p, q, r, s], Sextets(more));
    assert [p, q, r, s][1..] == [q, r, s] && [q, r, s][1..] == [r, s] && [r, s][1..] == [s] && [s][1..] == [];
    assert Letters([s]) == [Letter(s)];
    assert Letters([r, s]) == [Letter(r), Letter(s)];
    assert Letters([q, r, s]) == [Letter(q), Letter(r), Letter(s)];
  }

  lemma {:induction false} LettersConcat(a: seq<Sextet>, b: seq<Sextet>)
    ensures Letters(a + b) == Letters(a) + Letters(b)
  {
    if a == [] {
      assert a + b == b;
    } else {
      LettersConcat(a[1..], b);
      assert (a + b)[1..] == a[1..] + b;
    }
  }

  /** ... one left over is two ... */
  lemma LastByteIsTwoLetters(x: Byte)
    ensures Encode([x]) == [Letter(x / 4), Letter(x % 4 * 16)]
  {
    var p, q := First(x), Second(x, 0);
    assert [p, q][1..] == [q] && [q][1..] == [];
    assert Letters([q]) == [Letter(q)];
  }

  /** ... and two are three, without padding. */
  lemma LastTwoBytesAreThreeLetters(x: Byte, y: Byte)
    ensures Encode([x, y]) == [Letter(x / 4), Letter(x % 4 * 16 + y / 16), Letter(y % 16 * 4)]
  {
    var p, q, r := First(x), Second(x, y), Third(y, 0);
    assert [p, q, r][1..] == [q, r] && [q, r][1..] == [r] && [r][1..] == [];
    assert Letters([r]) == [Letter(r)];
    assert Letters([q, r]) == [Letter(q), Letter(r)];
  }

  predicate IsHexDigit(c: Byte) {
    48 <= c < 58 || 97 <= c < 103
  }

  lemma {:induction false} HexSextets(s: Bytes)
    requires forall i :: 0 <= i < |s| ==> IsHexDigit(s[i])
    ensures Digits(s).Some? && |Digits(s).value| == |s|
    ensures forall i :: 0 <= i < |s| ==> Digits(s).value[i] >= 26
  {
    if s != [] {
      assert IsHexDigit(s[0]);
      forall i | 0 <= i < |s[1..]|
        ensures IsHexDigit(s[1..][i])
      {
        assert s[1..][i] == s[i + 1];
      }
      HexSextets(s[1..]);
    }
  }

  /** Lower-case hexadecimal letters stand for 26 or more, so the bytes they decode to cannot
      begin with "la", whose second letter is "G" (6). */
  lemma HexIsNotLa(s: Bytes)
    requires forall i :: 0 <= i < |s| ==> IsHexDigit(s[i])
    ensures Decode(s).Some? && |Decode(s).value| >= 2 ==> Decode(s).value[0] != 108 || Decode(s).value[1] != 97
  {
    HexSextets(s);
  }
}
