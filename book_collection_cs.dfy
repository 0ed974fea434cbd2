/** Services/BookCollection.cs: the C# book collection. `_books` is the field
    `books`; the data file is abstracted to the list last serialized to it
    and, on loading, to what reading and deserializing it produced. */
module BookCollectionCs {
  import opened Seqs
  import opened Catalog

  /** What `File.ReadAllText` followed by `JsonSerializer.Deserialize`
      produced. */
  datatype LoadSource =
    | Deserialized(list: seq<Book>)  // a JSON array of books
    | DeserializedNull               // the JSON text `null`
    | FileNotFound                   // FileNotFoundException: the file alone is missing
    | JsonError                      // JsonException: corrupted file, or a document
                                     // that is not an array
    | OtherError                     // any other exception, which propagates; among
                                     // them DirectoryNotFoundException

  /** The list `LoadBooks` installs, or None when the exception propagates. */
  function Load(source: LoadSource): (r: Option<seq<Book>>)
    ensures r.None? <==> source.OtherError?
    ensures source.FileNotFound? || source.JsonError? || source.DeserializedNull? ==> r == Some([])
    ensures source.Deserialized? ==> r == Some(source.list)
  {
    match source
    case Deserialized(list) => Some(list)
    case DeserializedNull => Some([])
    case FileNotFound => Some([])
    case JsonError => Some([])
    case OtherError => None
  }

  /** `List.Remove(book)` with `book` the first title match removes that very
      position: an equal book earlier in the list would have matched the
      title first. */
  lemma FirstEqualIsFirstTitleMatch(books: seq<Book>, title: string)
    requires TitleIndex(books, title).Some?
    ensures FirstIndex(books, x => x == FindTitle(books, title).value) == TitleIndex(books, title)
  {
    var i := TitleIndex(books, title).value;
    var b := books[i];
    var k := FirstIndex(books, x => x == b);
    assert k.Some? && k.value <= i;
    assert books[k.value] == b;
    assert HasTitle(books[k.value], title);
  }

  class BookCollection {
    var books: seq<Book>
    /** The list last serialized to the data file, None before the first
        write. */
    var saved: Option<seq<Book>>

    /** The part of the constructor before `LoadBooks()`. */
    constructor ()
      ensures books == [] && saved == None
    {
      books := [];
      saved := None;
    }

    /** `LoadBooks()`: a missing file, a corrupted file or a `null` document
        gives an empty list; any other exception propagates (reported as
        false) with the list untouched. */
    method LoadBooks(source: LoadSource) returns (ok: bool)
      modifies this`books
      ensures ok <==> !source.OtherError?
      ensures books == if ok then Load(source).value else old(books)
    {
      match source {
        case Deserialized(list) =>
          books := list;
          ok := true;
        case DeserializedNull =>
          books := [];
          ok := true;
        case FileNotFound =>
          books := [];
          ok := true;
        case JsonError =>
          books := [];
          ok := true;
        case OtherError =>
          ok := false;
      }
    }

    /** `SaveBooks()`. */
    method SaveBooks()
      modifies this`saved
      ensures saved == Some(books)
    {
      saved := Some(books);
    }

    /** `Books`: the list the mutators act on. */
    function Books(): (r: seq<Book>)
      reads this
      ensures r == books
    {
      books
    }

    /** `ListBooks()`: the same list as `Books`. */
    function ListBooks(): (r: seq<Book>)
      reads this
      ensures r == Books()
    {
      books
    }

    /** `AddBook(title, author, year)`: appends a new unread book, saves, and
        returns it. */
    method AddBook(title: string, author: string, year: int) returns (b: Book)
      modifies this
      ensures b == Book(title, author, year, false)
      ensures books == old(books) + [b]
      ensures saved == Some(books)
    {
      b := Book(title, author, year, false);
      books := books + [b];
      SaveBooks();
    }

    /** `FindBookByTitle(title)`: the first book whose title matches under
        ordinal ignore-case comparison, or None for null. */
    function FindBookByTitle(title: string): (r: Option<Book>)
      reads this
      ensures r.None? <==> forall j :: 0 <= j < |books| ==> !HasTitle(books[j], title)
      ensures r.Some? ==> r == Some(books[TitleIndex(books, title).value])
    {
      FindTitle(books, title)
    }

    /** `MarkAsRead(title)`: false with no change when no title matches;
        otherwise sets `Read` on the first match, saves, and returns true. */
    method MarkAsRead(title: string) returns (found: bool)
      modifies this
      ensures found <==> exists j :: 0 <= j < |old(books)| && HasTitle(old(books)[j], title)
      ensures books == MarkRead(old(books), title)
      ensures saved == if found then Some(books) else old(saved)
    {
      var book := FindBookByTitle(title);
      if book.None? {
        return false;
      }
      var i := TitleIndex(books, title).value;
      books := books[i := books[i].(read := true)];
      SaveBooks();
      found := true;
    }

    /** `RemoveBook(title)`: false with no change when no title matches;
        otherwise `_books.Remove(book)` drops the first element equal to
        the first match, which is that match itself, saves, and returns
        true. */
    method RemoveBook(title: string) returns (found: bool)
      modifies this
      ensures found <==> exists j :: 0 <= j < |old(books)| && HasTitle(old(books)[j], title)
      ensures books == RemoveTitle(old(books), title)
      ensures saved == if found then Some(books) else old(saved)
    {
      var book := FindBookByTitle(title);
      if book.None? {
        return false;
      }
      var b := book.value;
      FirstEqualIsFirstTitleMatch(books, title);
      var k := FirstIndex(books, x => x == b);
      books := RemoveAt(books, k.value);
      SaveBooks();
      found := true;
    }

    /** `FindByAuthor(author)`: a new list of the books whose author matches
        under ordinal ignore-case comparison, in list order. */
    function FindByAuthor(author: string): (r: seq<Book>)
      reads this
      ensures forall i :: 0 <= i < |r| ==> r[i] in books && HasAuthor(r[i], author)
      ensures forall i :: 0 <= i < |books| && HasAuthor(books[i], author) ==> books[i] in r
    {
      AuthorFilter(books, author)
    }
  }

  /** `new BookCollection(dataFile)`: None when `LoadBooks` throws. */
  method Open(source: LoadSource) returns (r: Option<BookCollection>)
    ensures r.Some? <==> !source.OtherError?
    ensures r.Some? ==> fresh(r.value) && r.value.books == Load(source).value && r.value.saved == None
  {
    var c := new BookCollection();
    var ok := c.LoadBooks(source);
    r := if ok then Some(c) else None;
  }

  /** The scenarios of the test suite, stated against the contracts above. */
  method TestScenarios()
  {
    var c := new BookCollection();
    var ok := c.LoadBooks(Deserialized([]));
    var b := c.AddBook("The Hobbit", "J.R.R. Tolkien", 1937);
    assert |c.Books()| == 1;
    assert HasTitle(c.books[0], "The Hobbit");
    assert c.FindBookByTitle("The Hobbit") == Some(Book("The Hobbit", "J.R.R. Tolkien", 1937, false));

    var marked := c.MarkAsRead("The Hobbit");
    assert marked && c.FindBookByTitle("The Hobbit").value.read;

    var missing := c.RemoveBook("Nonexistent Book");
    assert !HasTitle(c.books[0], "Nonexistent Book");
    assert !missing && |c.books| == 1;

    var removed := c.RemoveBook("The Hobbit");
    assert removed && c.FindBookByTitle("The Hobbit").None?;
  }
}
