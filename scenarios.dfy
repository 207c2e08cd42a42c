/**
 Clients of the catalogue that run fixed call sequences through the
 facade and state what listing shows afterwards, from the contracts of
 `Catalog` alone.
 */
module Scenarios {
  import opened BookList
  import opened Catalog

  /** One book added to a fresh catalogue is listed exactly as given. */
  method AddThenShow() returns (shown: seq<Book>, notices: seq<Notice>)
    ensures shown == [Book("Dune", "Herbert", 1965)]
    ensures notices == [Listed(Book("Dune", "Herbert", 1965))]
  {
    var library := new Library();
    var manager := new LibraryManager(library);
    manager.AddBook("Dune", "Herbert", 1965);
    shown, notices := manager.ShowBooks();
  }

  /** With two books of the same title, one removal deletes only the one
      added first; the later duplicate stays. */
  method RemoveOneOfDuplicates() returns (shown: seq<Book>)
    ensures shown == [Book("Dune", "Frank", 1965)]
  {
    var library := new Library();
    var manager := new LibraryManager(library);
    manager.AddBook("Dune", "Herbert", 1965);
    manager.AddBook("Dune", "Frank", 1965);
    manager.RemoveBook("Dune");
    var notices;
    shown, notices := manager.ShowBooks();
  }

  /** Matching is case-sensitive: "dune" does not remove "Dune". */
  method RemoveWithOtherCase() returns (shown: seq<Book>, removed: bool)
    ensures !removed
    ensures shown == [Book("Dune", "Herbert", 1965)]
  {
    var library := new Library();
    library.AddBook(Book("Dune", "Herbert", 1965));
    removed := library.RemoveBook("dune");
    shown := library.GetBooks();
  }

  /** Removing from an empty catalogue is a quiet no-op, and listing an
      empty catalogue emits the single "no books" notice. */
  method RemoveFromEmptyThenShow() returns (shown: seq<Book>, notices: seq<Notice>)
    ensures shown == []
    ensures notices == [NoBooks]
  {
    var library := new Library();
    var manager := new LibraryManager(library);
    manager.RemoveBook("Nonexistent");
    shown, notices := manager.ShowBooks();
  }
}
