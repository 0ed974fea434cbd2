/** books.js: the JavaScript book collection. The list of books is a field
    that the mutators reassign; the data file is abstracted to the snapshot
    of records last written to it and, on loading, to what reading and
    parsing it produced. */
module BooksJs {
  import opened Seqs
  import opened Catalog

  /** `new Book(title, author, year, read)`: `read` defaults to false when it
      is not given. */
  function NewBook(title: string, author: string, year: int, read: Option<bool>): (b: Book)
    ensures b.title == title && b.author == author && b.year == year
    ensures b.read <==> read == Some(true)
  {
    Book(title, author, year, if read.Some? then read.value else false)
  }

  /** One element of the JSON array in the data file; `read` is None when
      the key is absent. */
  datatype StoredBook = StoredBook(title: string, author: string, year: int, read: Option<bool>)

  /** What reading and parsing the data file produced. */
  datatype LoadSource =
    | Parsed(records: seq<StoredBook>)  // an array of book records
    | Missing                           // readFileSync failed with ENOENT: no file, or no directory
    | Corrupt                           // JSON.parse threw a SyntaxError
    | OtherFailure                      // any other error, rethrown; among them the TypeError
                                        // of a document that is `null`, is not an array, or
                                        // holds a `null` element

  /** The records `saveBooks` writes: exactly title, author, year and read of
      every book, in list order. */
  function Snapshot(books: seq<Book>): (r: seq<StoredBook>)
    ensures |r| == |books|
    ensures forall i :: 0 <= i < |books| ==>
              r[i].title == books[i].title && r[i].author == books[i].author &&
              r[i].year == books[i].year && r[i].read == Some(books[i].read)
  {
    seq(|books|, i requires 0 <= i < |books| =>
      StoredBook(books[i].title, books[i].author, books[i].year, Some(books[i].read)))
  }

  /** The books `loadBooks` rebuilds from parsed records. */
  function Rebuild(records: seq<StoredBook>): (r: seq<Book>)
    ensures |r| == |records|
    ensures forall i :: 0 <= i < |records| ==>
              r[i].title == records[i].title && r[i].author == records[i].author &&
              r[i].year == records[i].year && (r[i].read <==> records[i].read == Some(true))
  {
    seq(|records|, i requires 0 <= i < |records| =>
      NewBook(records[i].title, records[i].author, records[i].year, records[i].read))
  }

  /** The list `loadBooks` installs, or None when it rethrows. */
  function Load(source: LoadSource): (r: Option<seq<Book>>)
    ensures r.None? <==> source.OtherFailure?
    ensures source.Missing? || source.Corrupt? ==> r == Some([])
    ensures source.Parsed? ==> r == Some(Rebuild(source.records))
  {
    match source
    case Parsed(records) => Some(Rebuild(records))
    case Missing => Some([])
    case Corrupt => Some([])
    case OtherFailure => None
  }

  /** Saving and then loading gives back the same list of books. */
  lemma SaveLoadRoundTrip(books: seq<Book>)
    ensures Load(Parsed(Snapshot(books))) == Some(books)
  {
    var snap := Snapshot(books);
    var r := Rebuild(snap);
    forall i | 0 <= i < |books|
      ensures r[i] == books[i]
    {
      assert snap[i].read == Some(books[i].read);
    }
    assert r == books;
  }

  class BookCollection {
    var books: seq<Book>
    /** The records last written to the data file by this collection, None
        before its first write. */
    var saved: Option<seq<StoredBook>>

    /** The part of the constructor before `loadBooks()`. */
    constructor ()
      ensures books == [] && saved == None
    {
      books := [];
      saved := None;
    }

    /** `loadBooks()`: replaces the list from the data file; a missing or
        corrupted file gives an empty list, and any other error propagates
        (reported as false) with the list untouched. */
    method LoadBooks(source: LoadSource) returns (ok: bool)
      modifies this`books
      ensures ok <==> !source.OtherFailure?
      ensures books == if ok then Load(source).value else old(books)
    {
      match source {
        case Parsed(records) =>
          books := Rebuild(records);
          ok := true;
        case Missing =>
          books := [];
          ok := true;
        case Corrupt =>
          books := [];
          ok := true;
        case OtherFailure =>
          ok := false;
      }
    }

    /** `saveBooks()`. */
    method SaveBooks()
      modifies this`saved
      ensures saved == Some(Snapshot(books))
    {
      saved := Some(Snapshot(books));
    }

    /** `addBook(title, author, year)`: appends a new unread book, saves, and
        returns the book. */
    method AddBook(title: string, author: string, year: int) returns (b: Book)
      modifies this
      ensures b == Book(title, author, year, false)
      ensures books == old(books) + [b]
      ensures saved == Some(Snapshot(books))
    {
      b := NewBook(title, author, year, None);
      books := books + [b];
      SaveBooks();
    }

    /** `listBooks()`. */
    function ListBooks(): (r: seq<Book>)
      reads this
      ensures r == books
    {
      books
    }

    /** `findBookByTitle(title)`: the first book whose title equals `title`
        ignoring case, or None for null. */
    function FindBookByTitle(title: string): (r: Option<Book>)
      reads this
      ensures r.None? <==> forall j :: 0 <= j < |books| ==> !HasTitle(books[j], title)
      ensures r.Some? ==> r == Some(books[TitleIndex(books, title).value])
    {
      FindTitle(books, title)
    }

    /** `markAsRead(title)`: true iff some title matches; then the first
        match is marked read and the list saved, otherwise nothing changes. */
    method MarkAsRead(title: string) returns (found: bool)
      modifies this
      ensures found <==> exists j :: 0 <= j < |old(books)| && HasTitle(old(books)[j], title)
      ensures books == MarkRead(old(books), title)
      ensures saved == if found then Some(Snapshot(books)) else old(saved)
    {
      var i := TitleIndex(books, title);
      if i.Some? {
        books := books[i.value := books[i.value].(read := true)];
        SaveBooks();
        found := true;
      } else {
        found := false;
      }
    }

    /** `removeBook(title)`: true iff some title matches; then that first
        match (and no other book) is dropped and the list saved, otherwise
        nothing changes. Every book is its own object, so filtering out
        `book` by identity removes exactly its position. */
    method RemoveBook(title: string) returns (found: bool)
      modifies this
      ensures found <==> exists j :: 0 <= j < |old(books)| && HasTitle(old(books)[j], title)
      ensures books == RemoveTitle(old(books), title)
      ensures saved == if found then Some(Snapshot(books)) else old(saved)
    {
      var i := TitleIndex(books, title);
      if i.Some? {
        books := RemoveAt(books, i.value);
        SaveBooks();
        found := true;
      } else {
        found := false;
      }
    }

    /** `findByAuthor(author)`: the books whose author equals `author`
        ignoring case, in list order. */
    function FindByAuthor(author: string): (r: seq<Book>)
      reads this
      ensures forall i :: 0 <= i < |r| ==> r[i] in books && HasAuthor(r[i], author)
      ensures forall i :: 0 <= i < |books| && HasAuthor(books[i], author) ==> books[i] in r
    {
      AuthorFilter(books, author)
    }
  }

  /** `new BookCollection(dataFile)`: None when `loadBooks` throws. */
  method Open(source: LoadSource) returns (r: Option<BookCollection>)
    ensures r.Some? <==> !source.OtherFailure?
    ensures r.Some? ==> fresh(r.value) && r.value.books == Load(source).value && r.value.saved == None
  {
    var c := new BookCollection();
    var ok := c.LoadBooks(source);
    r := if ok then Some(c) else None;
  }

  /** The scenarios of the test suite, stated against the contracts above. */
  method TestScenarios()
  {
    var c := new BookCollection();
    var ok := c.LoadBooks(Parsed([]));
    var b := c.AddBook("1984", "George Orwell", 1949);
    assert |c.books| == 1;
    var found := c.FindBookByTitle("1984");
    assert HasTitle(c.books[0], "1984");
    assert found == Some(Book("1984", "George Orwell", 1949, false));

    var marked := c.MarkAsRead("1984");
    assert marked;
    assert c.FindBookByTitle("1984").value.read;

    var missing := c.MarkAsRead("Nonexistent Book");
    assert !HasTitle(c.books[0], "Nonexistent Book");
    assert !missing;

    var removed := c.RemoveBook("1984");
    assert removed && c.books == [];
    assert c.FindBookByTitle("1984").None?;
  }
}
