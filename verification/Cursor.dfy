/** The opaque next-page cursor: base64 of a magic prefix, the sort value and the id. */
module Cursor {
  import opened Text
  import opened Library
  import Base64

  /** "lab1" */
  const MAGIC: Bytes := [108, 97, 98, 49]

  function Raw(value: Bytes, id: Bytes): Bytes {
    MAGIC + [SEPARATOR] + value + [SEPARATOR] + id
  }

  function Encode(db: Engine, b: Book, sort: string): Bytes {
    Base64.Encode(Raw(SortValueOf(db, b, sort), b.id))
  }

  /** The sort value and the id, split at the LAST separator. */
  function Split(rest: Bytes): Option<(Bytes, Bytes)> {
    var i := LastIndex(rest, SEPARATOR);
    if i < 0 then None else Some((rest[..i], rest[i + 1..]))
  }

  function Decode(s: Bytes): Option<(Bytes, Bytes)> {
    match Base64.Decode(s)
    case None => None
    case Some(raw) =>
      match CutPrefix(raw, MAGIC + [SEPARATOR])
      case None => None
      case Some(rest) => Split(rest)
  }

  lemma SplitJoin(value: Bytes, id: Bytes)
    ensures Split(value + [SEPARATOR] + id) == Some((value, id)) <==> SEPARATOR !in id
  {
    var rest := value + [SEPARATOR] + id;
    if SEPARATOR !in id {
      LastIndexOfJoin(value, SEPARATOR, id);
      assert rest[..|value|] == value && rest[|value| + 1..] == id;
    } else {
      var k :| 0 <= k < |id| && id[k] == SEPARATOR;
      assert rest[|value| + 1 + k] == SEPARATOR;
      assert LastIndex(rest, SEPARATOR) > |value|;
    }
  }

  /** Decoding gives back the exact sort value and id precisely when the id is free of the
      separator; the sort value may hold anything. */
  lemma RoundTrip(value: Bytes, id: Bytes)
    ensures Decode(Base64.Encode(Raw(value, id))) == Some((value, id)) <==> SEPARATOR !in id
  {
    var raw, rest := Raw(value, id), value + [SEPARATOR] + id;
    Base64.RoundTrip(raw);
    assert raw == (MAGIC + [SEPARATOR]) + rest;
    assert CutPrefix(raw, MAGIC + [SEPARATOR]) == Some(rest);
    SplitJoin(value, id);
  }

  /** A cursor of the previous format, a bare lower-case hexadecimal id, is never taken for a
      cursor of this one. */
  lemma LegacyIdRejected(s: Bytes)
    requires forall i :: 0 <= i < |s| ==> Base64.IsHexDigit(s[i])
    ensures Decode(s) == None
  {
    Base64.HexIsNotLa(s);
  }

  /** "lab1", the separator, the text of the sort's column, the separator, the id. */
  lemma CursorLayout(db: Engine, b: Book, sort: string)
    ensures var text := match sort
        case "author" => b.author
        case "added" => db.formatTime(b.createdAt)
        case "updated" => db.formatTime(b.updatedAt)
        case _ => b.title;
      Encode(db, b, sort) == Base64.Encode([108, 97, 98, 49, 31] + text + [31] + b.id)
  {
    assert MAGIC + [SEPARATOR] == [108, 97, 98, 49, 31];
  }
}
