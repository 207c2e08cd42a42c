/**
 The value side of the book catalogue: the `Book` record and the pure
 functions over a list of books that the `Library` operations are
 specified against.
 */
module BookList {

  datatype Option<T> = None | Some(value: T)

  /** One catalogue entry. No field is validated: any title, any author
      and any year are accepted, and titles need not be unique. */
  datatype Book = Book(title: string, author: string, year: int)

  /** Some book of `s` carries exactly the title `t` (case-sensitive). */
  predicate HasTitle(s: seq<Book>, t: string) {
    exists i :: 0 <= i < |s| && s[i].title == t
  }

  /** Index of the first book titled `t`, or `|s|` when there is none. */
  function FirstMatch(s: seq<Book>, t: string): (k: nat)
    ensures k <= |s|
    ensures k < |s| <==> HasTitle(s, t)
    ensures k < |s| ==> s[k].title == t
    ensures forall i :: 0 <= i < k ==> s[i].title != t
  {
    if s == [] then 0
    else if s[0].title == t then 0
    else
      var k := 1 + FirstMatch(s[1..], t);
      assert HasTitle(s[1..], t) ==> HasTitle(s, t) by {
        if HasTitle(s[1..], t) {
          var i :| 0 <= i < |s[1..]| && s[1..][i].title == t;
          assert s[i + 1].title == t;
        }
      }
      k
  }

  /** Reference definition of removal by title: drop the first book
      titled `t` and keep everything else in order; no match, no change. */
  function RemoveFirst(s: seq<Book>, t: string): (r: seq<Book>)
    ensures |r| == if HasTitle(s, t) then |s| - 1 else |s|
  {
    if s == [] then []
    else if s[0].title == t then s[1..]
    else
      assert HasTitle(s[1..], t) <==> HasTitle(s, t) by {
        if HasTitle(s, t) {
          var i :| 0 <= i < |s| && s[i].title == t;
          assert s[1..][i - 1].title == t;
        }
        if HasTitle(s[1..], t) {
          var i :| 0 <= i < |s[1..]| && s[1..][i].title == t;
          assert s[i + 1].title == t;
        }
      }
      [s[0]] + RemoveFirst(s[1..], t)
  }

  /** Index of the first element of `s` equal to `x`. */
  function IndexOf(s: seq<Book>, x: Book): (i: nat)
    requires x in s
    ensures i < |s| && s[i] == x && x !in s[..i]
  {
    if s[0] == x then 0
    else
      var i := 1 + IndexOf(s[1..], x);
      assert s[..i] == [s[0]] + s[1..][..i - 1];
      i
  }

  /** Removal of the first element equal to `x`, as a list's own removal
      does; the element must be present. */
  function RemoveValue(s: seq<Book>, x: Book): (r: seq<Book>)
    requires x in s
    ensures |r| == |s| - 1
    ensures multiset(r) == multiset(s) - multiset{x}
    ensures exists i :: 0 <= i < |s| && s[i] == x && x !in s[..i] && r == s[..i] + s[i + 1..]
  {
    var i := IndexOf(s, x);
    assert s == s[..i] + [x] + s[i + 1..];
    s[..i] + s[i + 1..]
  }

  /** Without a book titled `t`, removal by title changes nothing. */
  lemma {:induction false} RemoveFirstAbsent(s: seq<Book>, t: string)
    requires !HasTitle(s, t)
    ensures RemoveFirst(s, t) == s
  {
    if s != [] {
      assert s[0].title != t;
      forall i | 0 <= i < |s[1..]|
        ensures s[1..][i].title != t
      {
        assert s[1..][i] == s[i + 1];
      }
      RemoveFirstAbsent(s[1..], t);
      assert s == [s[0]] + s[1..];
    }
  }

  /** With a book titled `t`, removal by title deletes exactly the book at
      the first match: what precedes it and what follows it stay in order. */
  lemma {:induction false} RemoveFirstPresent(s: seq<Book>, t: string)
    requires HasTitle(s, t)
    ensures var k := FirstMatch(s, t);
      k < |s| && s[k].title == t && RemoveFirst(s, t) == s[..k] + s[k + 1..]
  {
    if s[0].title != t {
      var k := FirstMatch(s[1..], t);
      RemoveFirstPresent(s[1..], t);
      assert s[1..][..k] + s[1..][k + 1..] == s[1..k + 1] + s[k + 2..];
      assert [s[0]] + s[1..k + 1] == s[..k + 1];
    }
  }

  /** A book whose title is not exactly `t` is never removed by `t`: it
      occurs as often afterwards as before. */
  lemma {:induction false} RemoveFirstKeepsOtherTitles(s: seq<Book>, t: string, b: Book)
    requires b.title != t
    ensures multiset(RemoveFirst(s, t))[b] == multiset(s)[b]
  {
    if s != [] {
      assert s == [s[0]] + s[1..];
      if s[0].title != t {
        RemoveFirstKeepsOtherTitles(s[1..], t, b);
      }
    }
  }

  /** Removing by value the book found at the first title match removes
      exactly that position: no earlier element can equal it, since an
      equal element would carry the same title. */
  lemma {:induction false} RemoveValueOfFirstMatch(s: seq<Book>, t: string)
    requires HasTitle(s, t)
    ensures s[FirstMatch(s, t)] in s
    ensures RemoveValue(s, s[FirstMatch(s, t)]) == RemoveFirst(s, t)
  {
    var k := FirstMatch(s, t);
    var j := IndexOf(s, s[k]);
    assert s[k] !in s[..k];
    assert s[j].title == t;
    RemoveFirstPresent(s, t);
  }

  /** One call on the catalogue, in terms of its primitive arguments. */
  datatype Command = Add(book: Book) | Remove(title: string)

  /** The list after one call. */
  function Apply(s: seq<Book>, c: Command): (r: seq<Book>)
    ensures c.Add? ==> |r| == |s| + 1 && r[..|s|] == s && r[|s|] == c.book
    ensures c.Remove? ==> |r| == (if HasTitle(s, c.title) then |s| - 1 else |s|)
  {
    match c
    case Add(b) => s + [b]
    case Remove(t) => RemoveFirst(s, t)
  }

  /** The list after a sequence of calls, in order. */
  function Run(s: seq<Book>, cs: seq<Command>): seq<Book>
    decreases |cs|
  {
    if cs == [] then s else Run(Apply(s, cs[0]), cs[1..])
  }

  /** Adding books one after another, by calls `cs` that add the books of
      `bs` in turn, lists them after the existing ones, in exactly the
      order and with exactly the fields they were added. */
  lemma {:induction false} RunAddsInOrder(s: seq<Book>, bs: seq<Book>, cs: seq<Command>)
    requires |cs| == |bs|
    requires forall i :: 0 <= i < |cs| ==> cs[i] == Add(bs[i])
    ensures Run(s, cs) == s + bs
    decreases |bs|
  {
    if bs != [] {
      RunAddsInOrder(s + [bs[0]], bs[1..], cs[1..]);
      assert s + [bs[0]] + bs[1..] == s + bs;
    }
  }

  /** Removing a title that no book carries, any number of times, never
      changes the list. */
  lemma {:induction false} RunAbsentRemovals(s: seq<Book>, t: string, cs: seq<Command>)
    requires !HasTitle(s, t)
    requires forall i :: 0 <= i < |cs| ==> cs[i] == Remove(t)
    ensures Run(s, cs) == s
  {
    if cs != [] {
      RemoveFirstAbsent(s, t);
      RunAbsentRemovals(s, t, cs[1..]);
    }
  }
}
