# Book catalogue, modelled in Dafny

This project models the in-memory book catalogue of `task_2.py`. A `Book`
is a record of a title, an author and a year. A `Library` owns an ordered,
mutable list of books. It offers three operations: append a book, remove
the first book with a given title, and return the current list. A
`LibraryManager` facade builds books from primitive arguments, delegates to
the library, and lists what the library holds.

Layout:

- `books.dfy`, module `BookList`: the `Book` datatype and the pure
  functions that the operations are specified against. `HasTitle` and
  `FirstMatch` describe the title search. `RemoveFirst` is the reference
  definition of removal by title. `RemoveValue` is a list's removal of the
  first element equal to a given one, found by `IndexOf`. `Command`,
  `Apply` and `Run` describe a sequence of calls. The lemmas relate these
  functions to each other. `Book` is a plain three-field value (title,
  author, year) with no validation of any field, as the record at
  `task_2.py:9-13` is.
- `library.dfy`, module `Catalog`: `FindByTitle`, the linear scan for the
  first title match; `Dispatch`, which sends a sequence of commands through
  the manager; class `Library`, whose field `books` the methods update
  in place; class `LibraryManager`, which holds its library as a constant
  field.
- `scenarios.dfy`, module `Scenarios`: clients that run fixed call
  sequences through the classes. They prove what the listing shows
  afterwards from the class contracts alone.

Removal works in two steps, as in the source. The scan finds the first
book with the title, and then that book is removed by value from the list.
The source compares books by identity, since `Book` defines no equality;
the model compares them by value. Both pick the same position:
`RemoveValueOfFirstMatch` proves that no earlier element can equal the
found book, because an equal book would carry the same title. Every
`Book` is truthy in the source, so the branch at `task_2.py:44` depends only
on whether the scan found a book. The model matches on `Some`/`None`.

## Model

| member | source | states |
|---|---|---|
| `BookList.FirstMatch` | task_2.py:43 | the scan's result: the index of a book titled exactly `t` with no such book before it; it equals the list length exactly when no book has the title |
| `BookList.RemoveFirst` | task_2.py:42-48 | removal by title shortens the list by exactly one when some book has the title, and by zero otherwise |
| `BookList.IndexOf` | task_2.py:45 | the position a list's removal by value acts on: an index holding `x` with no element equal to `x` before it |
| `BookList.RemoveValue` | task_2.py:45 | removing a present element by value deletes the first element equal to it and keeps the rest in order; the length falls by one and the multiset loses that element once |
| `BookList.RemoveFirstAbsent` | task_2.py:47-48 | when no book has the title, removal leaves the list identical |
| `BookList.RemoveFirstPresent` | task_2.py:43-46 | when some book has the title, removal deletes exactly the book at the first match; the books before and after it stay in order |
| `BookList.RemoveFirstKeepsOtherTitles` | task_2.py:43 | matching is exact: a book whose title differs from `t` in any character or in case occurs as often after removal as before |
| `BookList.RemoveValueOfFirstMatch` | task_2.py:43-45 | removing the found book by value gives the same list as removing the first title match, so the deleted element is the one at the first-match index |
| `BookList.Apply` | task_2.py:38-48 | adding grows the list by one with the old entries first and the new book last; removing shrinks it by one exactly when the title is present |
| `BookList.RunAddsInOrder` | task_2.py:38-39 | any sequence of calls that add given books lists those books after the existing ones, in the order added and with the fields given |
| `BookList.RunAbsentRemovals` | task_2.py:42-48 | removing an absent title any number of times never changes the list |
| `Catalog.FindByTitle` | task_2.py:43 | the scan returns a book exactly when some book has the title, and then it returns the book at the first match |
| `Catalog.Library.constructor` | task_2.py:35-36 | a fresh library holds the empty list |
| `Catalog.Library.AddBook` | task_2.py:38-40 | the new list is the old one with the book appended as the last element |
| `Catalog.Library.RemoveBook` | task_2.py:42-48 | the new list is the old one minus its first book with the title, or unchanged; the returned flag is set exactly when such a book existed (the informational rather than the warning branch) |
| `Catalog.Library.GetBooks` | task_2.py:50-51 | returns the current list and changes nothing |
| `Catalog.LibraryManager.constructor` | task_2.py:55-56 | the manager delegates to the library it was given |
| `Catalog.LibraryManager.AddBook` | task_2.py:58-60 | appends a book whose fields equal the arguments exactly, with no validation |
| `Catalog.LibraryManager.RemoveBook` | task_2.py:62-63 | the library's list becomes its removal-by-title result |
| `Catalog.Dispatch` | task_2.py:78-98 | sending a sequence of add and remove commands through the manager leaves the library holding exactly `Run` of its old list and those commands, so the lemmas about `Run` hold of the classes |
| `Catalog.LibraryManager.ShowBooks` | task_2.py:65-71 | returns exactly the library's list and changes nothing; the notices are a single "no books" notice for an empty list, and otherwise one per book in list order |
| `Scenarios.AddThenShow` | task_2.py:58-71 | one book added to a fresh catalogue is listed exactly as given |
| `Scenarios.RemoveOneOfDuplicates` | task_2.py:42-48 | after adding ("Dune","Herbert",1965) and ("Dune","Frank",1965), one removal of "Dune" leaves exactly [("Dune","Frank",1965)] |
| `Scenarios.RemoveWithOtherCase` | task_2.py:42-48 | removing "dune" leaves a book titled "Dune" in place and takes the not-found branch |
| `Scenarios.RemoveFromEmptyThenShow` | task_2.py:62-71 | removal from an empty catalogue is a no-op, and listing it gives the empty list and the single "no books" notice |

## Left out

- `LibraryInterface` (task_2.py:19-30): an abstract interface with a single implementation. The model has `LibraryManager` hold a `Library` directly, so there is no polymorphic seam.
- Logging (task_2.py:5-6 and every `logger` call): output only. Two exceptions: `Library.RemoveBook` returns which branch was taken, and `LibraryManager.ShowBooks` returns its notices as values.
- `Book.__str__` (task_2.py:15-16): text rendering for log lines only. A `Listed` notice carries the book itself instead of its rendered line.
- `main` (task_2.py:74-108): the interactive loop, console input, command normalisation, the `show` and `exit` commands and the invalid-command warning. `Dispatch` models only the add and remove dispatch, over a given sequence of commands.
- Year parsing with `int()` and its `ValueError` recovery (task_2.py:87-91): a library parser whose accepted syntax is not part of this model. Years are plain integers here.
- Aliasing of the list that `get_books` returns (task_2.py:51): the model returns the current list as a value, so a caller cannot mutate the library through it.
- Book identity: books are values here, while the source compares `Book` objects by identity. `RemoveValueOfFirstMatch` shows that removal picks the same position either way.
