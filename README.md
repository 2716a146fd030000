# Author/book store behind a GraphQL tutorial server

This project models the in-memory data behind the GraphQL server in
`server.js`. The server keeps two arrays, `authors` (`{id, name}`) and
`books` (`{id, name, authorId}`). Its resolvers read and change them:

- the queries `book(id)`, `books(name)`, `author(id)`, `authors(name)`;
- the relationship fields `Author.books` and `Book.author`;
- the mutations `addBook`, `addAuthor` and `deleteAuthor`.

Every query and field resolver is one JavaScript `find` or `filter` call.
`Arrays` models those two array methods. It also gives `filter` a reference
characterisation (`IsFilterOf`) and proves that `Filter` is the only sequence
meeting it. `Text` models `toLowerCase` on ASCII letters and `includes`.
`Resolvers` holds the resolvers as pure functions over the arrays' current
contents, plus lemmas about how they behave when the arrays grow. `Data.Store`
is the mutable state: a class with the two arrays as `seq` fields. Its
mutation methods append and say exactly what the new state is.

Design decisions:

- An optional `id` argument that is absent is `undefined` in the source, and
  `undefined` is strictly equal to no record id. So `BookById` and `AuthorById`
  take `Option<int>`, and `None` finds nothing.
- An optional `name` argument is used only when it is truthy (present and
  non-empty). Otherwise the whole array is returned.
- Ids are not assumed unique. Seed data is unknown, so lookups are stated as
  "the first record with that id". `BookIdsDense` and `AuthorIdsDense` describe
  the case where the ids are 1, 2, … in order. In that case the appending
  mutations keep the ids dense, and the lookups return the k-th record.
- Lookups return the first record with the given id. Ids can repeat, in the
  seed data or when `length + 1` equals an existing id. A later record with a
  repeated id is then never returned.

## Model

| member | source | states |
|---|---|---|
| `Arrays.Find` | server.js:55 | `find` gives nothing exactly when no element satisfies the callback; otherwise it gives an element that satisfies it, and no earlier element does |
| `Arrays.Filter` | server.js:23 | `filter` keeps only matching elements, as a subsequence of the array; every matching element keeps its multiplicity; an element is in the result iff it matches; the result is no longer than the array |
| `Arrays.FilterUnique` | server.js:65 | any sequence that keeps only matching elements, is a subsequence and keeps every match's multiplicity equals `Filter`'s result, so the characterisation is exact |
| `Arrays.FilterAppend` | server.js:113 | filtering an array with one more element at the end gives the old result, followed by that element if it matches |
| `Arrays.FindAppend` | server.js:113 | finding in an array with one more element at the end gives the old answer if there was one; otherwise the new element if it matches; otherwise nothing |
| `Text.ToLower` | server.js:65 | lower-casing keeps the length, leaves no upper-case ASCII letter, adds 32 to the code of every letter A-Z, and keeps every other character |
| `Text.ToLowerAt` | server.js:65 | the lower-cased string holds, at every index, the lower-case form of the original character there |
| `Text.MatchesIgnoringCase` | server.js:65 | the name test `name.toLowerCase().includes(query.toLowerCase())` holds iff the lower-cased query occurs at some index of the lower-cased name |
| `Resolvers.Truthy` | server.js:64 | a string argument is truthy iff it is present and not the empty string |
| `Text.ToLowerIdempotent` | server.js:65 | lower-casing an already lower-cased string changes nothing |
| `Text.Includes` | server.js:65 | `s.includes(t)` holds iff `t` occurs in `s` at some index; the empty string occurs everywhere |
| `Text.QueryCaseIrrelevant` | server.js:65 | the name test gives the same answer when the query is lower-cased first |
| `Text.MatchesSlice` | server.js:79 | a name matches every piece of itself, and in particular itself, ignoring case |
| `Resolvers.BookById` | server.js:55 | `book(id)` is null iff no book has that id (always when `id` is absent); otherwise it is a stored book with that id, and no earlier book has that id |
| `Resolvers.AuthorById` | server.js:91 | `author(id)`: the same, over the authors |
| `Resolvers.BooksByName` | server.js:63-69 | without a truthy name, `books` returns the whole array; with one, it returns exactly the books whose lower-cased name contains the lower-cased query, in store order, each as often as stored; never longer than the array |
| `Resolvers.AuthorsByName` | server.js:77-83 | `authors(name)`: the same, over the authors |
| `Resolvers.BooksOf` | server.js:22-24 | `Author.books` is exactly the books whose `authorId` equals the author's id, in store order, each as often as stored |
| `Resolvers.AuthorOf` | server.js:38-40 | `Book.author` is null iff no author has the book's `authorId`; otherwise it is the first author with that id |
| `Resolvers.BooksOfAfterAppend` | server.js:113 | after a book is appended, an author's books are the earlier ones followed by the new book when its `authorId` is that author's id |
| `Resolvers.BookByIdAfterAppend` | server.js:107-115 | after a book is appended, `book(id)` is the old answer if there was one; otherwise the new book when `id` is its id; otherwise null |
| `Resolvers.AuthorByIdAfterAppend` | server.js:123-130 | after an author is appended, `author(id)` is the old answer if there was one; otherwise the new author when `id` is its id; otherwise null |
| `Resolvers.BookByIdDense` | server.js:109 | when book ids are 1..n in order, `book(k)` is the k-th book for 1 ≤ k ≤ n and null otherwise |
| `Resolvers.AuthorByIdDense` | server.js:125 | when author ids are 1..n in order, `author(k)` is the k-th author for 1 ≤ k ≤ n and null otherwise |
| `Resolvers.BooksByNameIgnoresQueryCase` | server.js:65 | `books(name)` gives the same list whatever the case of the query's ASCII letters |
| `Resolvers.AuthorsByNameIgnoresQueryCase` | server.js:79 | `authors(name)` gives the same list whatever the case of the query's ASCII letters |
| `Data.Store.constructor` | server.js:3-4 | the store starts with the given seed arrays |
| `Data.Store.AddBook` | server.js:107-115 | appends exactly `{id: old length + 1, name, authorId}` and returns it; earlier books and all authors are unchanged; the author id is not checked; every author with that id now lists the new book last; dense ids stay dense |
| `Data.Store.AddAuthor` | server.js:123-130 | appends exactly `{id: old length + 1, name}` and returns it; earlier authors and all books are unchanged; `author(new id)` gives the new author unless an earlier author already had that id; dense ids stay dense |
| `Data.Store.DeleteAuthor` | server.js:138-146 | changes neither array (it modifies nothing); answers with the given name when it is non-empty, and with the name "error" when it is empty |

## Left out

- The HTTP server, the `graphqlHTTP` middleware, the GraphiQL page and listening on port 5000 (server.js:1-2, server.js:156-163): I/O plumbing.
- GraphQL schema objects and their argument validation and output coercion. This includes `Book.authorId` being declared as a string (server.js:35) while it is stored and compared as an integer. `authorId` is modelled as an integer.
- The seed data in `./mockData/authors` and `./mockData/books`. It is not part of this model, so the initial arrays are constructor parameters, with no assumption about their ids.
- Text.ToLower: maps only the ASCII letters A-Z. Full Unicode case mapping of `toLowerCase` is a library routine outside this model.
- Data.Store.DeleteAuthor: returns only the name of the object it answers with. That object has no `id`, and the schema declares `id` non-null. What GraphQL then reports when `id` is selected is schema behaviour and is not modelled.
- Resolvers.BooksByName and Resolvers.AuthorsByName: return the sequence's value. The source returns the live array itself when there is no filter. Aliasing of that array is not modelled.
- Ids are unbounded integers. The limit of JavaScript's number type on `length + 1` is not modelled.
- Interleaving of concurrent mutation requests: the model is sequential.
- A second, filter-free variant of the server is not part of this model.
