/** The audiobook table, its sort columns and the order of its pages. */
module Library {
  import opened Text
  import opened Orders

  /** What summaries show and paging does not look at. */
  datatype Details = Details(narrator: Bytes, year: Bytes, durationMs: int)

  datatype Book = Book(id: Bytes, library: int, title: Bytes, author: Bytes, genre: Bytes,
                       createdAt: int, updatedAt: int, deleted: bool, details: Details)

  /** `rows` has one row per primary key; `enabled` are the library paths not switched off. */
  datatype Table = Table(rows: seq<Book>, enabled: set<int>) {
    ghost predicate Valid() {
      && (forall i, j :: 0 <= i < j < |rows| ==> rows[i].id != rows[j].id)
      && (forall i :: 0 <= i < |rows| ==> SEPARATOR !in rows[i].id)
    }

    predicate Visible(b: Book) {
      !b.deleted && b.library in enabled
    }
  }

  /** The unit separator; ids are hexadecimal and never hold it. */
  const SEPARATOR: Byte := 0x1f

  /** What the database decides: the order of texts, timestamps as text, and ILIKE. */
  datatype Engine = Engine(collate: (Bytes, Bytes) -> bool, formatTime: int -> Bytes,
                           parseTime: Bytes -> Option<int>, ilike: (Bytes, Bytes) -> bool) {
    ghost predicate Valid() {
      && StrictTotal(collate)
      && (forall t :: parseTime(formatTime(t)) == Some(t))
    }
  }

  datatype Column = Title | Author | CreatedAt | UpdatedAt | Genre

  datatype Value = TextValue(text: Bytes) | TimeValue(time: int)

  datatype Direction = Asc | Desc

  /** The place of a row in page order: its sort value, then its id. */
  datatype Key = Key(value: Value, id: Bytes)

  function Cell(b: Book, col: Column): (v: Value) {
    match col
    case Title => TextValue(b.title)
    case Author => TextValue(b.author)
    case Genre => TextValue(b.genre)
    case CreatedAt => TimeValue(b.createdAt)
    case UpdatedAt => TimeValue(b.updatedAt)
  }

  predicate IsTime(col: Column) {
    col == CreatedAt || col == UpdatedAt
  }

  predicate ValueLess(db: Engine, a: Value, b: Value) {
    match (a, b)
    case (TextValue(x), TextValue(y)) => db.collate(x, y)
    case (TimeValue(x), TimeValue(y)) => x < y
    case (TextValue(_), TimeValue(_)) => true
    case (TimeValue(_), TextValue(_)) => false
  }

  /** ORDER BY col dir, id. */
  predicate KeyLess(db: Engine, dir: Direction, a: Key, b: Key) {
    || (if dir == Desc then ValueLess(db, b.value, a.value) else ValueLess(db, a.value, b.value))
    || (a.value == b.value && db.collate(a.id, b.id))
  }

  function KeyOf(col: Column): Book -> Key {
    b => Key(Cell(b, col), b.id)
  }

  function KeyOrder(db: Engine, dir: Direction): (Key, Key) -> bool {
    (a, b) => KeyLess(db, dir, a, b)
  }

  lemma ValueLessIsTotal(db: Engine, a: Value, b: Value, c: Value)
    requires db.Valid()
    ensures !ValueLess(db, a, a)
    ensures ValueLess(db, a, b) && ValueLess(db, b, c) ==> ValueLess(db, a, c)
    ensures a != b ==> ValueLess(db, a, b) || ValueLess(db, b, a)
  {
  }

  lemma KeyOrderIsTotal(db: Engine, dir: Direction)
    requires db.Valid()
    ensures StrictTotal(KeyOrder(db, dir))
  {
    var lt := KeyOrder(db, dir);
    forall a, b, c
      ensures !lt(a, a)
      ensures lt(a, b) && lt(b, c) ==> lt(a, c)
      ensures a != b ==> lt(a, b) || lt(b, a)
    {
      ValueLessIsTotal(db, a.value, b.value, c.value);
      ValueLessIsTotal(db, c.value, b.value, a.value);
    }
  }

  /** The column behind the API's sort name, and whether it is a timestamp. */
  function ResolveSort(sort: string): (Column, bool) {
    match sort
    case "author" => (Author, false)
    case "added" => (CreatedAt, true)
    case "updated" => (UpdatedAt, true)
    case _ => (Title, false)
  }

  function SortValueOf(db: Engine, b: Book, sort: string): Bytes {
    match sort
    case "author" => b.author
    case "added" => db.formatTime(b.createdAt)
    case "updated" => db.formatTime(b.updatedAt)
    case _ => b.title
  }

  /** A cursor's text read back as a value of the sort column: `$n` or `$n::timestamptz`. */
  function ReadValue(db: Engine, text: Bytes, isTime: bool): Option<Value> {
    if !isTime then Some(TextValue(text))
    else match db.parseTime(text)
      case None => None
      case Some(t) => Some(TimeValue(t))
  }

  /** The text a cursor carries for a row is read back as the cell the row is ordered by, for
      every sort name, known or not. */
  lemma SortValueMatchesColumn(db: Engine, b: Book, sort: string)
    requires db.Valid()
    ensures var (col, isTime) := ResolveSort(sort);
      isTime == IsTime(col) && ReadValue(db, SortValueOf(db, b, sort), isTime) == Some(Cell(b, col))
  {
    if sort == "added" {
      assert db.parseTime(db.formatTime(b.createdAt)) == Some(b.createdAt);
    } else if sort == "updated" {
      assert db.parseTime(db.formatTime(b.updatedAt)) == Some(b.updatedAt);
    }
  }
}
