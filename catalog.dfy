/** The book list both sample applications keep (books.js and
    BookCollection.cs): a book record, the case-insensitive title and author
    matches, and the effect of each query and update on the list, as
    functions of the list. The two collection classes are specified by these
    functions. */
module Catalog {
  import opened Seqs
  import opened Ascii

  /** One book: `class Book` of books.js, `Book` of the C# models. */
  datatype Book = Book(title: string, author: string, year: int, read: bool)

  /** The title comparison of `findBookByTitle` / `FindBookByTitle`. */
  predicate HasTitle(b: Book, title: string) {
    EqualsIgnoreCase(b.title, title)
  }

  /** The author comparison of `findByAuthor` / `FindByAuthor`. */
  predicate HasAuthor(b: Book, author: string) {
    EqualsIgnoreCase(b.author, author)
  }

  /** Position of the first book with the given title, ignoring case. */
  function TitleIndex(books: seq<Book>, title: string): (r: Option<nat>)
    ensures r.Some? ==> r.value < |books| && HasTitle(books[r.value], title)
    ensures r.Some? ==> forall j :: 0 <= j < r.value ==> !HasTitle(books[j], title)
    ensures r.None? <==> forall j :: 0 <= j < |books| ==> !HasTitle(books[j], title)
  {
    FirstIndex(books, b => HasTitle(b, title))
  }

  /** The book that a title lookup returns: the first match, or null. */
  function FindTitle(books: seq<Book>, title: string): (r: Option<Book>)
    ensures r.None? <==> forall j :: 0 <= j < |books| ==> !HasTitle(books[j], title)
    ensures r.Some? ==> exists i :: 0 <= i < |books| && books[i] == r.value && HasTitle(books[i], title) &&
                                    forall j :: 0 <= j < i ==> !HasTitle(books[j], title)
  {
    match TitleIndex(books, title)
    case None => None
    case Some(i) => Some(books[i])
  }

  /** The list after marking the first title match as read; unchanged when
      nothing matches. */
  function MarkRead(books: seq<Book>, title: string): (r: seq<Book>)
    ensures |r| == |books|
    ensures forall j :: 0 <= j < |books| ==>
              r[j].title == books[j].title && r[j].author == books[j].author && r[j].year == books[j].year
    ensures forall j :: 0 <= j < |books| ==>
              r[j].read == (books[j].read || TitleIndex(books, title) == Some(j))
  {
    match TitleIndex(books, title)
    case None => books
    case Some(i) => books[i := books[i].(read := true)]
  }

  /** The list after removing the first title match; unchanged when nothing
      matches. */
  function RemoveTitle(books: seq<Book>, title: string): (r: seq<Book>)
    ensures TitleIndex(books, title).None? ==> r == books
    ensures TitleIndex(books, title).Some? ==> r == RemoveAt(books, TitleIndex(books, title).value)
  {
    match TitleIndex(books, title)
    case None => books
    case Some(i) => RemoveAt(books, i)
  }

  /** The books by the given author, ignoring case, in list order. */
  function AuthorFilter(books: seq<Book>, author: string): (r: seq<Book>)
    ensures forall i :: 0 <= i < |r| ==> r[i] in books && HasAuthor(r[i], author)
    ensures forall i :: 0 <= i < |books| && HasAuthor(books[i], author) ==> books[i] in r
  {
    Filter(books, b => HasAuthor(b, author))
  }

  /** A book added with the given fields is found again by its own title,
      unless an earlier book already has that title. */
  lemma {:induction false} AddedBookIsFound(books: seq<Book>, b: Book)
    requires forall j :: 0 <= j < |books| ==> !HasTitle(books[j], b.title)
    ensures FindTitle(books + [b], b.title) == Some(b)
  {
    var s := books + [b];
    assert forall j :: 0 <= j < |books| ==> s[j] == books[j];
    assert HasTitle(s[|books|], b.title);
  }

  /** Appending never changes the answer for a title already present. */
  lemma AppendKeepsEarlierMatch(books: seq<Book>, b: Book, title: string)
    requires TitleIndex(books, title).Some?
    ensures TitleIndex(books + [b], title) == TitleIndex(books, title)
  {
    var i := TitleIndex(books, title).value;
    var s := books + [b];
    assert forall j :: 0 <= j < |books| ==> s[j] == books[j];
    assert HasTitle(s[i], title);
  }

  /** Only the titles of the list decide where the first title match is. */
  lemma {:induction false} TitleIndexSameTitles(a: seq<Book>, b: seq<Book>, title: string)
    requires |a| == |b|
    requires forall j :: 0 <= j < |a| ==> a[j].title == b[j].title
    ensures TitleIndex(a, title) == TitleIndex(b, title)
  {
    assert forall j :: 0 <= j < |a| ==> (HasTitle(a[j], title) <==> HasTitle(b[j], title));
    match TitleIndex(a, title)
    case None =>
    case Some(i) =>
      assert HasTitle(b[i], title);
  }

  /** Marking as read is idempotent: the second call finds the same book
      again (so it again reports success) and leaves the list as it was. */
  lemma MarkReadIdempotent(books: seq<Book>, title: string)
    ensures TitleIndex(MarkRead(books, title), title) == TitleIndex(books, title)
    ensures MarkRead(MarkRead(books, title), title) == MarkRead(books, title)
  {
    var once := MarkRead(books, title);
    TitleIndexSameTitles(once, books, title);
    var twice := MarkRead(once, title);
    assert forall j :: 0 <= j < |books| ==> twice[j] == once[j];
  }

  /** Removing a title match removes exactly one book with that title: the
      other books, matching or not, stay, in their order. */
  lemma RemoveTitleMultiset(books: seq<Book>, title: string)
    requires TitleIndex(books, title).Some?
    ensures |RemoveTitle(books, title)| == |books| - 1
    ensures multiset(RemoveTitle(books, title)) + multiset{FindTitle(books, title).value} == multiset(books)
  {
    RemoveAtMultiset(books, TitleIndex(books, title).value);
  }

  /** After removing the only book with a title, looking that title up
      returns null. */
  lemma {:induction false} RemoveOnlyMatch(books: seq<Book>, title: string, i: nat)
    requires i < |books| && HasTitle(books[i], title)
    requires forall j :: 0 <= j < |books| && j != i ==> !HasTitle(books[j], title)
    ensures FindTitle(RemoveTitle(books, title), title).None?
  {
    assert TitleIndex(books, title) == Some(i);
    var r := RemoveTitle(books, title);
    forall k | 0 <= k < |r|
      ensures !HasTitle(r[k], title)
    {
      if k < i {
        assert r[k] == books[k];
      } else {
        assert r[k] == books[k + 1];
      }
    }
  }

  /** Appending a book extends the author filter by that book exactly when
      its author matches, and leaves the earlier results as they were. */
  lemma AuthorFilterAppend(books: seq<Book>, b: Book, author: string)
    ensures AuthorFilter(books + [b], author) ==
              AuthorFilter(books, author) + (if HasAuthor(b, author) then [b] else [])
  {
    FilterAppend(books, [b], x => HasAuthor(x, author));
    assert [b][1..] == [];
  }

  /** The author filter is exact: it is a subsequence of the list, and it
      holds every book by that author exactly as often as the list does, and
      no other book. */
  lemma AuthorFilterExact(books: seq<Book>, author: string, x: Book)
    ensures IsSubsequence(AuthorFilter(books, author), books)
    ensures multiset(AuthorFilter(books, author))[x] == if HasAuthor(x, author) then multiset(books)[x] else 0
  {
    FilterIsSubsequence(books, b => HasAuthor(b, author));
    FilterCount(books, b => HasAuthor(b, author), x);
  }
}
