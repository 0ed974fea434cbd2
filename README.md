# Book collections, user store and form validators, in Dafny

This project models the sample applications of the repository. It proves
properties of the model with Dafny.

- **The book collection, twice.** `books.js` is the JavaScript version and
  `Services/BookCollection.cs` is the C# version. Each keeps an in-memory
  list of books with title, author, year and a read flag. Each supports:
  - adding a book;
  - case-insensitive lookup by title;
  - marking a book as read;
  - removing the first title match;
  - filtering by author.

  Each saves the list after every successful change. Each loads the list at
  start-up, falling back to an empty list when the data file is missing or
  corrupted. books.js also falls back when the file's directory is missing;
  C# treats only a missing file as empty, and a missing directory throws.
- **The user store of `models/User.js`.** It is a module-level array of users
  and an id counter. Ids are assigned automatically unless a truthy id is
  given. Lookups by id go through `parseInt`; lookups by email are exact.
  Deletion splices the first match out. Saving replaces the first entry with
  the same id in place. The projections (`findAll`, `toJSON`) leave out the
  password.
- **The registration checks of `auth/register.js`.** These are the three
  ordered guards `handleRegister` applies before its network call, the
  `validateEmail` regular expression, and the four flags of
  `validatePassword`.
- **`capitalize` of `utils/helpers.js`.**

## Structure

| module | file | models |
|---|---|---|
| `Seqs` | seqs.dfy | `find`, `findIndex`, `filter`, `some` and `splice(i, 1)` over sequences, and an `Option` type for null and undefined |
| `Ascii` | ascii.dfy | case folding for `toLowerCase`, `toUpperCase` and `OrdinalIgnoreCase` |
| `Chars` | chars.dfy | the `\s` and `\d` character classes |
| `Catalog` | catalog.dfy | the book record and the effect of each query and update on a list of books, shared by both book collections |
| `BooksJs` | books_js.dfy | `class BookCollection` of books.js, with its load and save rules |
| `BookCollectionCs` | book_collection_cs.dfy | `class BookCollection` of BookCollection.cs, with its load rule and `List.Remove` |
| `IntParsing` | int_parsing.dfy | `parseInt(string)` and `String(n)` |
| `UserModel` | user_model.dfy | the user store of User.js |
| `Register` | register.dfy | the `handleRegister` guards, `validateEmail` and `validatePassword` |
| `Helpers` | helpers.dfy | `capitalize` |

### How the collections are modelled

Each collection is a class. Its list is a `seq` field that the methods
reassign:
- `books` for the two book collections;
- `users` and `nextId` for the user store.

Every method that changes state is specified by a function of the old list:
- `Catalog.MarkRead` and `Catalog.RemoveTitle` for the book collections;
- `UserModel.DeleteId` and `UserModel.SaveUser` for the user store.

The lemmas about those functions carry the properties, such as idempotence,
"exactly one book removed" and "ids unchanged by a save".

Object identity is modelled by position. books.js removes with
`filter(b => b !== book)` and C# removes with `List.Remove(book)`. Both drop
the position of the first title match:
- in books.js every stored book is its own object;
- in C#, `BookCollectionCs.FirstEqualIsFirstTitleMatch` shows that no equal
  book can come earlier in the list.

The data file is abstract. A `LoadSource` value says what reading and
parsing produced. The `saved` field holds what the last save wrote.

The two loaders differ in at least these cases. Each is one `LoadSource`
value per loader:
- The data file holds the JSON text `null`. C# gives an empty collection
  (`DeserializedNull`). In books.js, `null.map` throws a `TypeError`, which
  is rethrown (`OtherFailure`).
- The data file holds valid JSON that is not an array, such as `{}` or `5`.
  In books.js, `data.map` throws a `TypeError`, which is rethrown
  (`OtherFailure`). In C#, the deserializer throws a `JsonException`, which
  is caught, so the list is empty (`JsonError`).
- The data file's directory is missing. In books.js, `readFileSync` fails
  with ENOENT, so the list is empty (`Missing`). In C#, `File.ReadAllText`
  throws `DirectoryNotFoundException`. That is not a
  `FileNotFoundException`, so it propagates (`OtherError`).
- The array holds a `null` element. In books.js, reading `b.title` throws a
  `TypeError`, which is rethrown (`OtherFailure`). C# loads a null entry,
  which the model does not represent (see "Left out").
- A record has a field of the wrong JSON type, such as `"year": "1949"`,
  `"read": "yes"` or `"title": 5`. C#'s deserializer throws a
  `JsonException`, which is caught, so the list is empty (`JsonError`).
  books.js loads the record as it is; the model's typed records cannot
  represent that (see "Left out").
- The file starts with a UTF-8 byte-order mark. C#'s `File.ReadAllText`
  strips it, so the list loads (`Deserialized`). books.js reads it with
  `readFileSync(..., "utf-8")`, which keeps U+FEFF, so `JSON.parse` throws
  a `SyntaxError` and the list is empty (`Corrupt`).

Automatically assigned user ids are strictly increasing, so they are
pairwise distinct (`UserModel.IssuedIdsDistinct`). They are not guaranteed
to differ from ids passed in explicitly, because an explicit id does not
advance the counter. The model keeps that behaviour.

## Model

| member | source | states |
|---|---|---|
| `Seqs.FirstIndex` | samples/src/models/User.js:36 | `findIndex`: the result is the position of the first element satisfying the predicate, or None exactly when no element does |
| `Seqs.Find` | samples/src/models/User.js:26 | `find`: a result exists exactly when some element satisfies the predicate, and it is the first such element |
| `Seqs.Any` | samples/src/auth/register.js:47-49 | a one-character-class regular expression test is true exactly when some character is in the class |
| `Seqs.Filter` | samples/book-app-project-js/books.js:85 | `filter` returns only elements of the input that satisfy the predicate, and every satisfying element appears in it |
| `Seqs.FilterIsSubsequence` | samples/book-app-project-js/books.js:85 | `filter` keeps the input order: its result is a subsequence of the input |
| `Seqs.FilterCount` | samples/book-app-project-js/books.js:85 | `filter` keeps each satisfying element exactly as many times as it occurs, and no other element |
| `Seqs.FilterAppend` | samples/book-app-project-js/books.js:85 | filtering a concatenation is the concatenation of the filtered parts |
| `Seqs.RemoveAt` | samples/src/models/User.js:38 | `splice(i, 1)` shortens by one, keeps the elements before `i`, and shifts the elements after it down by one |
| `Seqs.RemoveAtMultiset` | samples/src/models/User.js:38 | `splice(i, 1)` removes exactly one occurrence of the element at `i` |
| `Ascii.EqualsIgnoreCaseCharwise` | samples/book-app-project-cs/Services/BookCollection.cs:61 | ignore-case equality holds iff the lengths are equal and the strings agree character by character up to letter case |
| `Catalog.TitleIndex` | samples/book-app-project-js/books.js:60-62 | the position of the first book whose title equals the query ignoring case, or None iff no title matches |
| `Catalog.FindTitle` | samples/book-app-project-js/books.js:60-62 | the title lookup returns None (null) iff no title matches, and otherwise the first matching book |
| `Catalog.MarkRead` | samples/book-app-project-js/books.js:64-72 | marking keeps the length, the titles, the authors and the years; a book is read afterwards iff it was read before or it is the first title match |
| `Catalog.RemoveTitle` | samples/book-app-project-js/books.js:74-82 | with no title match the list is unchanged; otherwise exactly the first match's position is removed |
| `Catalog.AuthorFilter` | samples/book-app-project-js/books.js:84-86 | the result holds only books of the list whose author matches ignoring case, and every such book |
| `Catalog.AddedBookIsFound` | samples/book-app-project-js/tests/test_books.js:17-27 | after appending a book whose title is new, the title lookup returns exactly that book: the given author and year, and unread |
| `Catalog.AppendKeepsEarlierMatch` | samples/book-app-project-js/books.js:49-62 | appending a book never changes which book a lookup returns for a title that was already present |
| `Catalog.TitleIndexSameTitles` | samples/book-app-project-js/books.js:60-62 | the first title match depends only on the titles of the list |
| `Catalog.MarkReadIdempotent` | samples/book-app-project-js/books.js:64-72 | marking the same title twice equals marking it once, and the second call again finds the same book, so it again returns true |
| `Catalog.RemoveTitleMultiset` | samples/book-app-project-js/books.js:74-82 | a successful removal shortens the list by one and removes exactly one occurrence of the book the lookup returned |
| `Catalog.RemoveOnlyMatch` | samples/book-app-project-cs/Tests/BookCollectionTests.cs:54-62 | after removing the only book with a title, the lookup of that title returns null |
| `Catalog.AuthorFilterAppend` | samples/book-app-project-js/books.js:84-86 | after a book is appended, the author filter is the earlier result followed by the new book exactly when its author matches |
| `Catalog.AuthorFilterExact` | samples/book-app-project-cs/Services/BookCollection.cs:82-87 | the author filter is a subsequence of the list and holds each book by that author exactly as often as the list does |
| `BooksJs.NewBook` | samples/book-app-project-js/books.js:6-13 | a new book has the given title, author and year; it is read only when `read` is given as true, and the default is false |
| `BooksJs.Snapshot` | samples/book-app-project-js/books.js:40-45 | the records `saveBooks` writes are one per book, in order, with its title, author, year and read flag |
| `BooksJs.Rebuild` | samples/book-app-project-js/books.js:26 | `loadBooks` builds one book per record, in order, with its title, author and year, read exactly when the record's `read` is true |
| `BooksJs.Load` | samples/book-app-project-js/books.js:22-37 | a missing file or a syntax error gives an empty list; parsed records are rebuilt into books; any other error propagates |
| `BooksJs.SaveLoadRoundTrip` | samples/book-app-project-js/books.js:22-47 | loading what the save wrote (title, author, year and read of each book, in order) gives back the same list |
| `BooksJs.BookCollection.constructor` | samples/book-app-project-js/books.js:16-18 | a collection starts with an empty list and has written nothing |
| `BooksJs.Open` | samples/book-app-project-js/books.js:16-20 | construction succeeds iff loading does not rethrow, and then the list is what the load produced |
| `BooksJs.BookCollection.LoadBooks` | samples/book-app-project-js/books.js:22-37 | on success the list is replaced by the loaded one; on a rethrown error it is left as it was |
| `BooksJs.BookCollection.SaveBooks` | samples/book-app-project-js/books.js:39-47 | the data file afterwards holds the snapshot of the current list |
| `BooksJs.BookCollection.AddBook` | samples/book-app-project-js/books.js:49-54 | appends exactly one unread book with the given fields at the end, keeps the earlier books, saves, and returns the new book |
| `BooksJs.BookCollection.ListBooks` | samples/book-app-project-js/books.js:56-58 | `listBooks` returns the very list the mutators act on |
| `BooksJs.BookCollection.FindBookByTitle` | samples/book-app-project-js/books.js:60-62 | returns null iff no title matches ignoring case, otherwise the first matching book |
| `BooksJs.BookCollection.MarkAsRead` | samples/book-app-project-js/books.js:64-72 | returns true iff a title matches; the new list is `Catalog.MarkRead` of the old one; it saves only on success |
| `BooksJs.BookCollection.RemoveBook` | samples/book-app-project-js/books.js:74-82 | returns true iff a title matches; the new list is `Catalog.RemoveTitle` of the old one; it saves only on success |
| `BooksJs.BookCollection.FindByAuthor` | samples/book-app-project-js/books.js:84-86 | returns only books of the collection by that author, ignoring case, and all of them |
| `BookCollectionCs.Load` | samples/book-app-project-cs/Services/BookCollection.cs:25-41 | a missing file, a JSON error or a `null` document gives an empty list; any other exception propagates |
| `BookCollectionCs.FirstEqualIsFirstTitleMatch` | samples/book-app-project-cs/Services/BookCollection.cs:73-80 | `List.Remove` of the looked-up book removes the first title match, because no equal book comes earlier |
| `BookCollectionCs.BookCollection.constructor` | samples/book-app-project-cs/Services/BookCollection.cs:17-21 | a collection starts with an empty list and has written nothing |
| `BookCollectionCs.Open` | samples/book-app-project-cs/Services/BookCollection.cs:17-21 | construction succeeds iff `LoadBooks` does not throw, and then the list is what the load produced |
| `BookCollectionCs.BookCollection.LoadBooks` | samples/book-app-project-cs/Services/BookCollection.cs:25-41 | on success the list is replaced by the loaded one; on a propagated exception it is left as it was |
| `BookCollectionCs.BookCollection.SaveBooks` | samples/book-app-project-cs/Services/BookCollection.cs:43-47 | the data file afterwards holds the current list |
| `BookCollectionCs.BookCollection.AddBook` | samples/book-app-project-cs/Services/BookCollection.cs:49-55 | appends exactly one unread book with the given fields, so the count grows by one; saves; returns the book |
| `BookCollectionCs.BookCollection.Books` | samples/book-app-project-cs/Services/BookCollection.cs:23 | the `Books` property is the list the mutators act on |
| `BookCollectionCs.BookCollection.ListBooks` | samples/book-app-project-cs/Services/BookCollection.cs:57 | `ListBooks()` returns the same list as `Books` |
| `BookCollectionCs.BookCollection.FindBookByTitle` | samples/book-app-project-cs/Services/BookCollection.cs:59-62 | returns null iff no title matches under ignore-case comparison, otherwise the first matching book |
| `BookCollectionCs.BookCollection.MarkAsRead` | samples/book-app-project-cs/Services/BookCollection.cs:64-71 | returns false with no change when nothing matches; otherwise sets read on the first match only, saves, and returns true |
| `BookCollectionCs.BookCollection.RemoveBook` | samples/book-app-project-cs/Services/BookCollection.cs:73-80 | returns false with no change when nothing matches; otherwise removes exactly the first match, saves, and returns true |
| `BookCollectionCs.BookCollection.FindByAuthor` | samples/book-app-project-cs/Services/BookCollection.cs:82-87 | returns only books by that author under ignore-case comparison, and all of them; the collection is not changed |
| `IntParsing.TrimStart` | samples/src/models/User.js:22 | `parseInt` drops leading white space: the rest is the suffix of the input after a run of white-space characters, and does not itself start with white space |
| `IntParsing.DigitValue` | samples/src/models/User.js:22 | `0`-`9` are worth 0 to 9, `a`-`z` and `A`-`Z` are worth 10 to 35, and any other character is a digit in no base; the value is below 10 exactly for the decimal digits |
| `IntParsing.DigitPrefix` | samples/src/models/User.js:22 | the digits `parseInt` reads are the longest prefix of digits of the base |
| `IntParsing.DecimalDigits` | samples/src/models/User.js:22 | the decimal form of a natural number is non-empty and consists of digits only |
| `IntParsing.DecimalDigitsValue` | samples/src/models/User.js:22 | the decimal digits of `n` denote `n` |
| `IntParsing.DigitPrefixOfDigits` | samples/src/models/User.js:22 | a run of digits followed by a non-digit is read exactly |
| `IntParsing.ParseSigned` | samples/src/models/User.js:22 | after the white space, no text gives NaN, and a negative result needs a leading `-` |
| `IntParsing.ParseInt` | samples/src/models/User.js:22 | `parseInt` of an empty or all-white-space string is NaN, and a negative result comes only from a leading `-` after the white space |
| `IntParsing.ParseIntNoDigit` | samples/src/models/User.js:22 | after the white space, a first character that is neither a sign nor a digit gives NaN |
| `IntParsing.ParseIntDigitStart` | samples/src/models/User.js:22 | after the white space, a lone digit or two leading digits give a non-negative number |
| `IntParsing.HexadecimalUpper` | samples/src/models/User.js:22 | `parseInt("0x1A")` is 26: a `0x` prefix selects base 16 and upper-case letters are digits |
| `IntParsing.HexadecimalNegative` | samples/src/models/User.js:22 | `parseInt("-0xff!")` is -255: a sign may come before the prefix, lower-case letters are digits, and reading stops at the first non-digit |
| `IntParsing.HexadecimalEmpty` | samples/src/models/User.js:22 | `parseInt("0x")` is NaN: a prefix with no digit after it reads nothing |
| `IntParsing.DecimalString` | samples/src/models/User.js:22 | `String(n)` of an integer is non-empty, starts with `-` exactly when `n` is negative, and is otherwise all digits |
| `IntParsing.ParseIntDecimal` | samples/src/models/User.js:22 | `parseInt` reads back any integer's decimal form, whatever text follows it, unless that text continues the number: a digit, or an `x` after the form `0` |
| `IntParsing.ParseIntRoundTrip` | samples/src/models/User.js:22 | `parseInt(String(n))` is `n` |
| `UserModel.IdGiven` | samples/src/models/User.js:10 | `id || nextId++` keeps a given id only when it is truthy: present and not 0 |
| `UserModel.IdIndex` | samples/src/models/User.js:43 | the position of the first user with that id, or None iff no user has it |
| `UserModel.LookupIndex` | samples/src/models/User.js:36 | an id argument that `parseInt` turns into NaN matches no user; otherwise this is the first user with the parsed id |
| `UserModel.DeleteId` | samples/src/models/User.js:35-40 | `deleteById` is a no-op when no id matches; otherwise it splices out exactly the first user with that id |
| `UserModel.SaveUser` | samples/src/models/User.js:42-48 | `save` keeps the length and every stored id; it replaces the first entry with the same id and nothing else, and it never inserts |
| `UserModel.ToJson` | samples/src/models/User.js:50-57 | `toJSON` carries id, name, email and createdAt; the result type has no password field |
| `UserModel.IncreasingIsOrdered` | samples/src/models/User.js:6-10 | in an increasing run of ids, every later id is larger than every earlier one |
| `UserModel.UserStore.constructor` | samples/src/models/User.js:5-6 | the store starts empty with the counter at 1 |
| `UserModel.UserStore.NewUser` | samples/src/models/User.js:9-15 | a truthy given id is kept and the counter is untouched; otherwise the user gets the counter, which advances by one and exceeds every id handed out before; a missing createdAt is the current time |
| `UserModel.UserStore.FindAll` | samples/src/models/User.js:17-19 | one entry per stored user, in store order, with id, name and email; the element type has no password field |
| `UserModel.UserStore.FindById` | samples/src/models/User.js:21-23 | undefined iff the argument parses to NaN or no user has the parsed id; otherwise the first user with it |
| `UserModel.UserStore.FindByEmail` | samples/src/models/User.js:25-27 | undefined iff no email equals the argument exactly (case-sensitive); otherwise the first user with it |
| `UserModel.UserStore.Create` | samples/src/models/User.js:29-33 | appends exactly the new user and returns it; earlier users are unchanged; the user has the given name, email and password, the given creation time or else the current time, and the given truthy id or else the counter's next id, which was never handed out before and is appended to the counter's history of issued ids |
| `UserModel.UserStore.DeleteById` | samples/src/models/User.js:35-40 | the new store is `UserModel.DeleteId` of the old one, and the counter invariant is kept |
| `UserModel.UserStore.Save` | samples/src/models/User.js:42-48 | the new store is `UserModel.SaveUser` of the old one, the user is returned, and the counter invariant is kept |
| `UserModel.IssuedIdsDistinct` | samples/src/models/User.js:10 | two ids the counter handed out are different |
| `UserModel.CreatedUserIsFound` | samples/src/models/User.js:21-33 | a created user whose id is new is found by `findById` with the decimal form of its id |
| `UserModel.DeleteRemovesOne` | samples/src/models/User.js:35-40 | a matching delete shortens the store by one and removes exactly one occurrence of the first matching user |
| `UserModel.DeleteAbsentIsNoOp` | samples/src/models/User.js:35-40 | deleting an id that no user has leaves the store unchanged |
| `UserModel.SaveKeepsIds` | samples/src/models/User.js:42-48 | the sequence of stored ids is the same before and after a save |
| `Register.CheckRegistration` | samples/src/auth/register.js:7-17 | the request goes out iff the fields are non-empty, the passwords are equal and the password has at least 8 characters; an empty field is reported first, then a mismatch, then a short password |
| `Register.ValidateEmail` | samples/src/auth/register.js:39-42 | `validateEmail`: the whole address splits at an `@` and a later `.` into three non-empty runs with no white space and no `@`; so an accepted address has at least 5 characters and starts with neither white space nor `@` |
| `Register.ValidateEmailIsPlainAddress` | samples/src/auth/register.js:39-42 | the e-mail expression accepts exactly the strings with no white space, one `@` with text before it, and a `.` after the `@` that is neither first nor last in the part after it |
| `Register.MatchIsPlain` | samples/src/auth/register.js:40 | a string the expression accepts has that plain shape |
| `Register.PlainMatches` | samples/src/auth/register.js:40 | a string of that plain shape is accepted by the expression |
| `Register.ValidatePassword` | samples/src/auth/register.js:44-51 | `length` iff at least 8 characters; `hasNumber`, `hasUppercase` and `hasSpecial` iff some character is in 0-9, in A-Z, or among `!@#$%^&*` |
| `Register.LengthFlagMatchesGuard` | samples/src/auth/register.js:15-17 | with the fields present and the passwords equal, the `length` flag is set exactly when `handleRegister` lets the request go out |
| `Helpers.Capitalize` | samples/src/utils/helpers.js:10-12 | the empty string stays empty; otherwise the length is kept, the first character is upper-cased and the rest is unchanged |
| `Helpers.CapitalizeIdempotent` | samples/src/utils/helpers.js:11 | capitalizing twice equals capitalizing once |
| `Helpers.CapitalizeSameIgnoringCase` | samples/src/utils/helpers.js:11 | capitalizing changes at most the case of the first letter: the result equals the input ignoring case |
| `Helpers.CapitalizedStart` | samples/src/utils/helpers.js:11 | a capitalized string never starts with a lower-case letter and agrees with the input after the first character |

The methods `TestScenarios` replay the scenarios of the two test suites
against the contracts.

## Left out

- File and JSON I/O: reading, writing, `JSON.parse`/`stringify` and `System.Text.Json`. The data file is a `LoadSource` value when loading and a snapshot field when saving. A failed write is not modelled.
- The console warning printed for a corrupted data file.
- Unicode case mapping. `toLowerCase`, `toUpperCase` and `OrdinalIgnoreCase` are modelled for ASCII letters only; other characters are left unchanged. So `capitalize` of a string starting with, for example, `ß` (which JavaScript expands to two characters) is not modelled.
- UTF-16: JavaScript strings are sequences of UTF-16 code units; the model uses Unicode characters. `length` and `charAt` differ for characters outside the Basic Multilingual Plane.
- Aliasing. The JavaScript and C# lists and book objects are shared references:
  - a caller that mutates the list returned by `listBooks`/`ListBooks`/`Books`, or a book returned by a lookup, changes the collection;
  - in User.js, `save` usually stores the very object already in the array.

  The model has values only.
- BooksJs.Load: a record whose fields have the wrong JSON type (a string year, a non-boolean `read`, a numeric title) is loaded as it is by books.js; `StoredBook` has typed fields, so such a record cannot be represented.
- BookCollectionCs.Load: a JSON array holding `null` loads a null entry in C#; the model's books are never null, so this case is not represented.
- IntParsing.ParseIntRoundTrip: JavaScript numbers are IEEE doubles, and the model's integers are unbounded. The round trip holds in JavaScript only for safe integers (magnitude at most 2^53 - 1). Beyond them `parseInt` rounds, and from 1e21 on `String(n)` uses exponent form, so `parseInt(String(1e21))` is 1.
- IntParsing.ParseIntDecimal: holds in JavaScript only for safe integers, for the same reason.
- IntParsing.ParseInt: a digit string beyond 2^53 is read exactly here, while JavaScript rounds it, so `findById("9007199254740993")` finds id 9007199254740992 there and not here.
- UserModel.IssuedIdsDistinct: holds in JavaScript only while `nextId` stays below 2^53; from there `nextId++` no longer advances.
- UserModel.CreatedUserIsFound: holds in JavaScript only for safe-integer ids, as it rests on the `parseInt` round trip.
- BooksJs.BookCollection.FindBookByTitle: the TypeError thrown for a non-string title is not modelled.
- Asynchrony: the User methods return promises. The model returns their values directly.
- JavaScript dynamic typing. Ids are integers, and the names, emails and passwords are strings:
  - falsiness of a given id covers absence and 0 only, not NaN, `false` or `""`;
  - a given `createdAt` is taken to be a `Date` object, which is always truthy; a `createdAt` passed as the number 0 would be replaced by the current time in JavaScript, and is kept here;
  - `findById` and `deleteById` take the string form of the id;
  - `handleRegister`'s `!name` is modelled as the empty string.
- Time: the `createdAt` default `new Date()` is a time-stamp parameter `now`. `createdAt` is an integer time stamp.
- The network part of `handleRegister`: `fetch`, the server's reply and `localStorage`.
- The rest of the repository: the demo-recording orchestrator, the interactive CLIs, the HTTP routes, the browser services and the React components. Each is process, file-system, network or UI code.
- `formatDate`, `debounce`, `parseJSON` and `generateId` in helpers.js, which depend on the clock, timers, a library parser and randomness.
