/**
 The in-memory catalogue: a `Library` that owns an ordered, mutable list
 of books, and the `LibraryManager` facade that builds books from
 primitive arguments and delegates to it.
 */
module Catalog {
  import opened BookList

  /** The first book of `books` titled exactly `title`, if any: the linear
      scan that removal by title performs before it deletes anything. */
  method FindByTitle(books: seq<Book>, title: string) returns (found: Option<Book>)
    ensures found.Some? <==> HasTitle(books, title)
    ensures found.Some? ==> found.value == books[FirstMatch(books, title)]
  {
    var i := 0;
    while i < |books| && books[i].title != title
      invariant 0 <= i <= |books|
      invariant forall j :: 0 <= j < i ==> books[j].title != title
    {
      i := i + 1;
    }
    if i < |books| {
      found := Some(books[i]);
      assert FirstMatch(books, title) == i;
    } else {
      found := None;
    }
  }

  /** Notices that listing the catalogue emits, in order. A listed book
      stands for its rendered line. */
  datatype Notice = NoBooks | Listed(book: Book)

  class Library {
    /** The catalogue, in insertion order minus removals. */
    var books: seq<Book>

    constructor ()
      ensures books == []
    {
      books := [];
    }

    /** Appends `book` as the new last entry; every earlier entry stays
        where it was. */
    method AddBook(book: Book)
      modifies this
      ensures books == old(books) + [book]
    {
      books := books + [book];
    }

    /** Deletes the first book titled exactly `title`, if there is one;
        otherwise leaves the list alone. `removed` tells which of the two
        happened (the informational or the warning notice). */
    method RemoveBook(title: string) returns (removed: bool)
      modifies this
      ensures removed <==> HasTitle(old(books), title)
      ensures books == RemoveFirst(old(books), title)
    {
      var found := FindByTitle(books, title);
      match found
      case Some(book) =>
        RemoveValueOfFirstMatch(books, title);
        books := RemoveValue(books, book);
        removed := true;
      case None =>
        RemoveFirstAbsent(books, title);
        removed := false;
    }

    /** The current list, unchanged. */
    method GetBooks() returns (result: seq<Book>)
      ensures result == books
    {
      result := books;
    }
  }

  class LibraryManager {
    const library: Library

    constructor (library: Library)
      ensures this.library == library
    {
      this.library := library;
    }

    /** Adds a book whose fields are exactly the arguments, unvalidated. */
    method AddBook(title: string, author: string, year: int)
      modifies library
      ensures library.books == old(library.books) + [Book(title, author, year)]
    {
      var book := Book(title, author, year);
      library.AddBook(book);
    }

    /** Removes the first book titled exactly `title`, if any. */
    method RemoveBook(title: string)
      modifies library
      ensures library.books == RemoveFirst(old(library.books), title)
    {
      var _ := library.RemoveBook(title);
    }

    /** Returns the library's current list without changing it, and the
        notices emitted while listing it: a single `NoBooks` when it is
        empty, otherwise one `Listed` per book in order. */
    method ShowBooks() returns (books: seq<Book>, notices: seq<Notice>)
      ensures books == library.books
      ensures books == [] ==> notices == [NoBooks]
      ensures books != [] ==> |notices| == |books|
      ensures forall i :: 0 <= i < |books| ==> notices[i] == Listed(books[i])
    {
      books := library.GetBooks();
      notices := [];
      if books == [] {
        notices := [NoBooks];
      }
      for i := 0 to |books|
        invariant books != [] ==> |notices| == i
        invariant books == [] ==> notices == [NoBooks]
        invariant forall j :: 0 <= j < i ==> notices[j] == Listed(books[j])
      {
        notices := notices + [Listed(books[i])];
      }
    }
  }

  /** The command loop's dispatch, without its console: each command in
      turn goes to the facade, and the library ends up holding exactly
      what the pure `Run` of those commands gives. */
  method Dispatch(manager: LibraryManager, cs: seq<Command>)
    modifies manager.library
    ensures manager.library.books == Run(old(manager.library.books), cs)
  {
    ghost var start := manager.library.books;
    for n := 0 to |cs|
      invariant Run(start, cs) == Run(manager.library.books, cs[n..])
    {
      assert cs[n..][1..] == cs[n + 1..];
      match cs[n]
      case Add(book) =>
        manager.AddBook(book.title, book.author, book.year);
      case Remove(title) =>
        manager.RemoveBook(title);
    }
  }
}
