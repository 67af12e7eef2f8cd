/** What a page of the catalog is, in the words of a request: no columns, keys or statements. */
module Pages {
  import opened Text
  import opened Library
  import Cursor

  /** `a` has a lower sort value than `b`, by the sort name; any other name is the title. */
  predicate SortsBelow(db: Engine, sort: string, a: Book, b: Book) {
    match sort
    case "author" => db.collate(a.author, b.author)
    case "added" => a.createdAt < b.createdAt
    case "updated" => a.updatedAt < b.updatedAt
    case _ => db.collate(a.title, b.title)
  }

  predicate SortsSame(sort: string, a: Book, b: Book) {
    match sort
    case "author" => a.author == b.author
    case "added" => a.createdAt == b.createdAt
    case "updated" => a.updatedAt == b.updatedAt
    case _ => a.title == b.title
  }

  /** The order of the list: descending if "desc" is asked for, else ascending; equals by id, ascending. */
  predicate ComesBefore(db: Engine, sort: string, order: string, a: Book, b: Book) {
    || (if order == "desc" then SortsBelow(db, sort, b, a) else SortsBelow(db, sort, a, b))
    || (SortsSame(sort, a, b) && db.collate(a.id, b.id))
  }

  /** The book is not deleted, its library is enabled, and it is the one asked for, if one is. */
  predicate Visible(t: Table, library: int, b: Book) {
    !b.deleted && b.library in t.enabled && (library > 0 ==> b.library == library)
  }

  /** `page` are the first books after `after`, up to `size`, of those that match. */
  ghost predicate IsPage(db: Engine, t: Table, sort: string, order: string, library: int, matches: Book -> bool,
                         after: Option<Book>, size: nat, page: seq<Book>)
  {
    && (forall i, j :: 0 <= i < j < |page| ==> ComesBefore(db, sort, order, page[i], page[j]))
    && (forall b :: b in page ==> IsAhead(db, t, sort, order, library, matches, after, b))
    && |page| <= size
    && forall b :: IsAhead(db, t, sort, order, library, matches, after, b) && b !in page ==>
      |page| == size > 0 && ComesBefore(db, sort, order, page[size - 1], b)
  }

  predicate IsAhead(db: Engine, t: Table, sort: string, order: string, library: int, matches: Book -> bool,
                    after: Option<Book>, b: Book)
  {
    && b in t.rows && Visible(t, library, b) && matches(b)
    && (after.Some? ==> ComesBefore(db, sort, order, after.value, b))
  }

  /** The cursor is none that is understood, or the one made from the book `after`. */
  predicate StandsAt(db: Engine, cursor: Bytes, sort: string, after: Option<Book>) {
    match after
    case None => Cursor.Decode(cursor) == None
    case Some(b) => SEPARATOR !in b.id && cursor == Cursor.Encode(db, b, sort)
  }

  /** The rows a page has at most, for the limit the store is asked for. */
  function StoreSize(limit: int): nat {
    if 1 <= limit <= 200 then limit else 50
  }

  /** And for the limit of a request. */
  function RequestSize(limit: Option<int>): nat {
    match limit
    case None => 50
    case Some(n) => if n < 1 then 50 else if n <= 200 then n else 200
  }

  /** The text is found with anything before and after it. */
  function Finds(db: Engine, query: Bytes): Book -> bool {
    (b: Book) => db.ilike(b.title, [37] + query + [37]) || db.ilike(b.author, [37] + query + [37])
  }

  function All(): Book -> bool {
    (b: Book) => true
  }
}
