/** The two kinds of record held in the server's in-memory arrays. */
module Records {
  datatype Author = Author(id: int, name: string)

  /** `authorId` is meant to be the `id` of an author; nothing checks that it is. */
  datatype Book = Book(id: int, name: string, authorId: int)
}
