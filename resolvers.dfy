/**
 * The query resolvers (`book`, `books`, `author`, `authors`) and the field
 * resolvers (`Author.books`, `Book.author`), each a single `find` or
 * `filter` over the current contents of the two arrays.
 */
module Resolvers {
  import opened Wrappers
  import opened Arrays
  import opened Text
  import opened Records

  /** An optional string argument takes effect only when truthy: present and non-empty. */
  function Truthy(arg: Option<string>): (b: bool)
    ensures b <==> arg != None && arg != Some("")
  {
    arg.Some? && arg.value != ""
  }

  // The callbacks the resolvers hand to `find` and `filter`. An absent `id`
  // argument is `undefined`, which is strictly equal to no record's id.

  function BookHasId(id: Option<int>): Book -> bool
  {
    (b: Book) => id == Some(b.id)
  }

  function AuthorHasId(id: Option<int>): Author -> bool
  {
    (a: Author) => id == Some(a.id)
  }

  function WrittenBy(author: Author): Book -> bool
  {
    (b: Book) => b.authorId == author.id
  }

  function BookNameMatches(query: string): Book -> bool
  {
    (b: Book) => MatchesIgnoringCase(b.name, query)
  }

  function AuthorNameMatches(query: string): Author -> bool
  {
    (a: Author) => MatchesIgnoringCase(a.name, query)
  }

  /** Query `book(id)`: the first book with that id, or null. */
  function BookById(books: seq<Book>, id: Option<int>): (r: Option<Book>)
    ensures r.None? <==> forall i | 0 <= i < |books| :: id != Some(books[i].id)
    ensures r.Some? ==> exists i | 0 <= i < |books| ::
      books[i] == r.value && id == Some(r.value.id) && forall j | 0 <= j < i :: books[j].id != r.value.id
  {
    Find(books, BookHasId(id))
  }

  /** Query `author(id)`: the first author with that id, or null. */
  function AuthorById(authors: seq<Author>, id: Option<int>): (r: Option<Author>)
    ensures r.None? <==> forall i | 0 <= i < |authors| :: id != Some(authors[i].id)
    ensures r.Some? ==> exists i | 0 <= i < |authors| ::
      authors[i] == r.value && id == Some(r.value.id) && forall j | 0 <= j < i :: authors[j].id != r.value.id
  {
    Find(authors, AuthorHasId(id))
  }

  /**
   * Query `books(name)`: without a truthy name, the whole array; otherwise the
   * books whose name contains the query ignoring case, in store order.
   */
  function BooksByName(books: seq<Book>, name: Option<string>): (r: seq<Book>)
    ensures !Truthy(name) ==> r == books
    ensures Truthy(name) ==> forall i | 0 <= i < |r| :: MatchesIgnoringCase(r[i].name, name.value)
    ensures Truthy(name) ==> forall i | 0 <= i < |books| && MatchesIgnoringCase(books[i].name, name.value) ::
      multiset(r)[books[i]] == multiset(books)[books[i]]
    ensures IsSubsequence(r, books) && |r| <= |books|
  {
    if Truthy(name) then Filter(books, BookNameMatches(name.value)) else SubsequenceOfItself(books); books
  }

  /** Query `authors(name)`: the same filter over the authors. */
  function AuthorsByName(authors: seq<Author>, name: Option<string>): (r: seq<Author>)
    ensures !Truthy(name) ==> r == authors
    ensures Truthy(name) ==> forall i | 0 <= i < |r| :: MatchesIgnoringCase(r[i].name, name.value)
    ensures Truthy(name) ==> forall i | 0 <= i < |authors| && MatchesIgnoringCase(authors[i].name, name.value) ::
      multiset(r)[authors[i]] == multiset(authors)[authors[i]]
    ensures IsSubsequence(r, authors) && |r| <= |authors|
  {
    if Truthy(name) then Filter(authors, AuthorNameMatches(name.value)) else SubsequenceOfItself(authors); authors
  }

  /** Field `Author.books`: every book whose `authorId` is the author's id, in store order. */
  function BooksOf(books: seq<Book>, author: Author): (r: seq<Book>)
    ensures forall i | 0 <= i < |r| :: r[i].authorId == author.id
    ensures forall i | 0 <= i < |books| && books[i].authorId == author.id ::
      multiset(r)[books[i]] == multiset(books)[books[i]]
    ensures IsSubsequence(r, books)
  {
    Filter(books, WrittenBy(author))
  }

  /** Field `Book.author`: the first author whose id is the book's `authorId`, or null. */
  function AuthorOf(authors: seq<Author>, book: Book): (r: Option<Author>)
    ensures r.None? <==> forall i | 0 <= i < |authors| :: authors[i].id != book.authorId
    ensures r.Some? ==> r.value.id == book.authorId && exists i | 0 <= i < |authors| ::
      authors[i] == r.value && forall j | 0 <= j < i :: authors[j].id != book.authorId
  {
    Find(authors, AuthorHasId(Some(book.authorId)))
  }

  lemma {:induction false} SubsequenceOfItself<T>(s: seq<T>)
    ensures IsSubsequence(s, s)
  {
    if s != [] {
      SubsequenceOfItself(s[1..]);
    }
  }

  /** A book appended to the array is listed under its author, after that author's earlier books. */
  lemma BooksOfAfterAppend(books: seq<Book>, book: Book, author: Author)
    ensures BooksOf(books + [book], author)
         == BooksOf(books, author) + (if book.authorId == author.id then [book] else [])
  {
    FilterAppend(books, book, WrittenBy(author));
  }

  /** Appending a book changes `book(id)` only for an id no earlier book has. */
  lemma BookByIdAfterAppend(books: seq<Book>, book: Book, id: Option<int>)
    ensures BookById(books + [book], id)
         == if BookById(books, id).Some? then BookById(books, id)
            else if id == Some(book.id) then Some(book) else None
  {
    FindAppend(books, book, BookHasId(id));
  }

  /** Appending an author changes `author(id)` only for an id no earlier author has. */
  lemma AuthorByIdAfterAppend(authors: seq<Author>, author: Author, id: Option<int>)
    ensures AuthorById(authors + [author], id)
         == if AuthorById(authors, id).Some? then AuthorById(authors, id)
            else if id == Some(author.id) then Some(author) else None
  {
    FindAppend(authors, author, AuthorHasId(id));
  }

  /** The books' ids are 1, 2, ..., in order: what appending with id `length + 1` yields from an empty array. */
  predicate BookIdsDense(books: seq<Book>)
  {
    forall i | 0 <= i < |books| :: books[i].id == i + 1
  }

  predicate AuthorIdsDense(authors: seq<Author>)
  {
    forall i | 0 <= i < |authors| :: authors[i].id == i + 1
  }

  /** With dense ids, `book(k)` is the k-th book, and null outside 1..length. */
  lemma BookByIdDense(books: seq<Book>, k: int)
    requires BookIdsDense(books)
    ensures BookById(books, Some(k)) == if 1 <= k <= |books| then Some(books[k - 1]) else None
  {
  }

  /** With dense ids, `author(k)` is the k-th author, and null outside 1..length. */
  lemma AuthorByIdDense(authors: seq<Author>, k: int)
    requires AuthorIdsDense(authors)
    ensures AuthorById(authors, Some(k)) == if 1 <= k <= |authors| then Some(authors[k - 1]) else None
  {
  }

  /** `books(name)` does not depend on the case of the query. */
  lemma BooksByNameIgnoresQueryCase(books: seq<Book>, query: string)
    ensures BooksByName(books, Some(ToLower(query))) == BooksByName(books, Some(query))
  {
    if query != [] {
      forall i | 0 <= i < |books|
        ensures BookNameMatches(ToLower(query))(books[i]) == BookNameMatches(query)(books[i])
      {
        QueryCaseIrrelevant(books[i].name, query);
      }
      FilterCongruent(books, BookNameMatches(ToLower(query)), BookNameMatches(query));
    }
  }

  /** `authors(name)` does not depend on the case of the query. */
  lemma AuthorsByNameIgnoresQueryCase(authors: seq<Author>, query: string)
    ensures AuthorsByName(authors, Some(ToLower(query))) == AuthorsByName(authors, Some(query))
  {
    if query != [] {
      forall i | 0 <= i < |authors|
        ensures AuthorNameMatches(ToLower(query))(authors[i]) == AuthorNameMatches(query)(authors[i])
      {
        QueryCaseIrrelevant(authors[i].name, query);
      }
      FilterCongruent(authors, AuthorNameMatches(ToLower(query)), AuthorNameMatches(query));
    }
  }
}
