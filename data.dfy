/**
 * The module-level `authors` and `books` arrays and the three mutations
 * that act on them. The seed arrays are loaded from mock data files this
 * model does not see, so they are the constructor's parameters.
 */
module Data {
  import opened Wrappers
  import opened Records
  import opened Resolvers

  class Store {
    var authors: seq<Author>
    var books: seq<Book>

    constructor (authors: seq<Author>, books: seq<Book>)
      ensures this.authors == authors && this.books == books
    {
      this.authors := authors;
      this.books := books;
    }

    /**
     * Mutation `addBook(name, authorId)`: pushes a book whose id is the old
     * length plus one and returns it. The author id is not checked.
     */
    method AddBook(name: string, authorId: int) returns (book: Book)
      modifies this`books
      ensures book == Book(|old(books)| + 1, name, authorId)
      ensures books == old(books) + [book]
      ensures forall author: Author ::
                BooksOf(books, author) == BooksOf(old(books), author) + (if author.id == authorId then [book] else [])
      ensures BookIdsDense(old(books)) ==> BookIdsDense(books)
    {
      book := Book(|books| + 1, name, authorId);
      books := books + [book];
      forall author: Author
        ensures BooksOf(books, author)
          == BooksOf(old(books), author) + (if author.id == authorId then [book] else [])
      {
        BooksOfAfterAppend(old(books), book, author);
      }
    }

    /** Mutation `addAuthor(name)`: pushes an author whose id is the old length plus one and returns it. */
    method AddAuthor(name: string) returns (author: Author)
      modifies this`authors
      ensures author == Author(|old(authors)| + 1, name)
      ensures authors == old(authors) + [author]
      ensures AuthorById(authors, Some(author.id))
        == if AuthorById(old(authors), Some(author.id)).Some? then AuthorById(old(authors), Some(author.id))
           else Some(author)
      ensures AuthorIdsDense(old(authors)) ==> AuthorIdsDense(authors)
    {
      author := Author(|authors| + 1, name);
      authors := authors + [author];
      AuthorByIdAfterAppend(old(authors), author, Some(author.id));
    }

    /**
     * Mutation `deleteAuthor(name)`: computes the matching authors and drops
     * the result, so neither array changes (the method modifies nothing).
     * It answers with an object holding only a name: the argument, or
     * "error" when the argument is empty.
     */
    method DeleteAuthor(name: string) returns (replyName: string)
      ensures replyName != ""
      ensures name != "" ==> replyName == name
      ensures name == "" ==> replyName == "error"
    {
      if Truthy(Some(name)) {
        var _ := AuthorsByName(authors, Some(name));
        replyName := name;
      } else {
        replyName := "error";
      }
    }
  }
}
