/**
 * The book collection and the two queries the handlers run against it: the
 * genre query (a case-insensitive, anchored pattern on `genre`) and the search
 * query (a case-insensitive pattern on any of the four text fields). The store
 * is a sequence of books whose order is the model's choice, since the database
 * promises none; a query keeps the books that satisfy its filter, in that order.
 */
module Catalog {
  import opened Text

  /** A document of the `books` collection: the four string fields of its schema. */
  datatype Book = Book(title: string, author: string, description: string, genre: string)

  /** `r` can be obtained from `s` by deleting elements, so it keeps their order. */
  predicate IsSubsequence<T(==)>(r: seq<T>, s: seq<T>)
    decreases |s|
  {
    || r == []
    || (s != [] && ((r[0] == s[0] && IsSubsequence(r[1..], s[1..])) || IsSubsequence(r, s[1..])))
  }

  /** The elements of `s` that satisfy `keep`, in the order of `s`. */
  function Filter<T(==,!new)>(s: seq<T>, keep: T -> bool): (r: seq<T>)
    ensures forall x {:trigger x in r} {:trigger x in s} :: x in r <==> x in s && keep(x)
  {
    if s == [] then []
    else if keep(s[0]) then [s[0]] + Filter(s[1..], keep)
    else Filter(s[1..], keep)
  }

  /** Filter keeps a selected element as often as `s` holds it, and drops the others. */
  lemma {:induction false} FilterCount<T(!new)>(s: seq<T>, keep: T -> bool, x: T)
    ensures multiset(Filter(s, keep))[x] == if keep(x) then multiset(s)[x] else 0
  {
    if s != [] {
      FilterCount(s[1..], keep, x);
      assert s == [s[0]] + s[1..];
    }
  }

  /** Filter keeps the order of `s`. */
  lemma {:induction false} FilterKeepsOrder<T(!new)>(s: seq<T>, keep: T -> bool)
    ensures IsSubsequence(Filter(s, keep), s)
  {
    if s != [] {
      FilterKeepsOrder(s[1..], keep);
      if !keep(s[0]) {
        SubsequenceOfTail(Filter(s[1..], keep), s[0], s[1..]);
        assert [s[0]] + s[1..] == s;
      }
    }
  }

  lemma {:induction false} SubsequenceMultiset<T>(r: seq<T>, s: seq<T>)
    requires IsSubsequence(r, s)
    ensures multiset(r) <= multiset(s)
    decreases |s|
  {
    if r != [] {
      assert s == [s[0]] + s[1..];
      if r[0] == s[0] && IsSubsequence(r[1..], s[1..]) {
        SubsequenceMultiset(r[1..], s[1..]);
        assert r == [r[0]] + r[1..];
      } else {
        SubsequenceMultiset(r, s[1..]);
      }
    }
  }

  /**
   * What Filter selects is pinned down by its counts and its order: a
   * subsequence of `s` holding exactly the filtered elements is the filtered
   * sequence.
   */
  lemma {:induction false} FilterUnique<T(!new)>(s: seq<T>, keep: T -> bool, t: seq<T>)
    requires IsSubsequence(t, s)
    requires multiset(t) == multiset(Filter(s, keep))
    ensures t == Filter(s, keep)
    decreases |s|
  {
    if s != [] {
      var x, tail := s[0], s[1..];
      var rest := Filter(tail, keep);
      FilterCount(tail, keep, x);
      if keep(x) {
        assert Filter(s, keep) == [x] + rest;
        assert multiset(t)[x] == multiset(tail)[x] + 1;
        assert t != [] && t[0] == x && IsSubsequence(t[1..], tail) by {
          if t == [] || !(t[0] == x && IsSubsequence(t[1..], tail)) {
            SubsequenceMultiset(t, tail);
          }
        }
        assert t == [x] + t[1..];
        assert multiset(t) == multiset([x]) + multiset(t[1..]);
        assert multiset(Filter(s, keep)) == multiset([x]) + multiset(rest);
        assert multiset(t[1..]) == multiset(t) - multiset([x]);
        assert multiset(rest) == multiset(Filter(s, keep)) - multiset([x]);
        FilterUnique(tail, keep, t[1..]);
      } else {
        assert Filter(s, keep) == rest;
        assert multiset(t)[x] == 0;
        assert IsSubsequence(t, tail) by {
          if t != [] {
            assert t[0] in multiset(t);
          }
        }
        FilterUnique(tail, keep, t);
      }
    }
  }

  /** Two filters that agree on every element of `s` select the same subsequence. */
  lemma {:induction false} FilterCongruent<T(!new)>(s: seq<T>, p: T -> bool, q: T -> bool)
    requires forall x :: x in s ==> p(x) == q(x)
    ensures Filter(s, p) == Filter(s, q)
  {
    if s != [] {
      FilterCongruent(s[1..], p, q);
    }
  }

  lemma {:induction false} SubsequenceOfTail<T>(r: seq<T>, x: T, s: seq<T>)
    requires IsSubsequence(r, s)
    ensures IsSubsequence(r, [x] + s)
  {
    assert ([x] + s)[1..] == s;
  }

  /** A stronger filter selects a subsequence of what a weaker one selects. */
  lemma {:induction false} FilterNarrows<T(!new)>(s: seq<T>, p: T -> bool, q: T -> bool)
    requires forall x :: p(x) ==> q(x)
    ensures IsSubsequence(Filter(s, p), Filter(s, q))
  {
    if s != [] {
      FilterNarrows(s[1..], p, q);
      var fp, fq := Filter(s[1..], p), Filter(s[1..], q);
      if p(s[0]) {
        assert Filter(s, p) == [s[0]] + fp && Filter(s, q) == [s[0]] + fq;
      } else if q(s[0]) {
        SubsequenceOfTail(Filter(s, p), s[0], fq);
      }
    }
  }

  /** The books whose genre lower-cases to `key`: what a cache entry under `key` stands for. */
  function BooksWithKey(store: seq<Book>, key: string): (r: seq<Book>)
    ensures forall b {:trigger b in r} {:trigger b in store} :: b in r <==> b in store && ToLower(b.genre) == key
  {
    Filter(store, (b: Book) => ToLower(b.genre) == key)
  }

  /**
   * The genre handler's store query: the books whose genre equals `genre`
   * ignoring case, the anchored case-insensitive pattern read literally.
   */
  function BooksOfGenre(store: seq<Book>, genre: string): (r: seq<Book>)
    ensures forall b {:trigger b in r} {:trigger b in store} :: b in r <==> b in store && EqualsIgnoreCase(b.genre, genre)
    ensures r == [] <==> forall b {:trigger b in store} :: b in store ==> !EqualsIgnoreCase(b.genre, genre)
  {
    var r := Filter(store, (b: Book) => EqualsIgnoreCase(b.genre, genre));
    assert r != [] ==> r[0] in r;
    r
  }

  /** The genre query returns every matching book as often as the store holds it, in store order. */
  lemma BooksOfGenreInStoreOrder(store: seq<Book>, genre: string)
    ensures IsSubsequence(BooksOfGenre(store, genre), store)
    ensures forall b {:trigger multiset(BooksOfGenre(store, genre))[b]} ::
      multiset(BooksOfGenre(store, genre))[b] == if EqualsIgnoreCase(b.genre, genre) then multiset(store)[b] else 0
  {
    FilterKeepsOrder(store, (b: Book) => EqualsIgnoreCase(b.genre, genre));
    forall b: Book
      ensures multiset(BooksOfGenre(store, genre))[b] == if EqualsIgnoreCase(b.genre, genre) then multiset(store)[b] else 0
    {
      FilterCount(store, (c: Book) => EqualsIgnoreCase(c.genre, genre), b);
    }
  }

  /** The genre query depends on the genre only through its lower-case form. */
  lemma BooksOfGenreByKey(store: seq<Book>, genre: string)
    ensures BooksOfGenre(store, genre) == BooksWithKey(store, ToLower(genre))
  {
    FilterCongruent(store, (b: Book) => EqualsIgnoreCase(b.genre, genre),
                           (b: Book) => ToLower(b.genre) == ToLower(genre));
  }

  /** The search filter: the query occurs, ignoring case, in the title, the author, the description or the genre. */
  predicate MatchesQuery(b: Book, query: string)
  {
    || ContainsIgnoreCase(b.title, query)
    || ContainsIgnoreCase(b.author, query)
    || ContainsIgnoreCase(b.description, query)
    || ContainsIgnoreCase(b.genre, query)
  }

  /** The search handler's store query. */
  function SearchResults(store: seq<Book>, query: string): (r: seq<Book>)
    ensures forall b {:trigger b in r} {:trigger b in store} :: b in r <==> b in store && MatchesQuery(b, query)
  {
    Filter(store, (b: Book) => MatchesQuery(b, query))
  }

  /** The search returns every matching book as often as the store holds it, in store order. */
  lemma SearchResultsInStoreOrder(store: seq<Book>, query: string)
    ensures IsSubsequence(SearchResults(store, query), store)
    ensures forall b {:trigger multiset(SearchResults(store, query))[b]} ::
      multiset(SearchResults(store, query))[b] == if MatchesQuery(b, query) then multiset(store)[b] else 0
  {
    FilterKeepsOrder(store, (b: Book) => MatchesQuery(b, query));
    forall b: Book
      ensures multiset(SearchResults(store, query))[b] == if MatchesQuery(b, query) then multiset(store)[b] else 0
    {
      FilterCount(store, (c: Book) => MatchesQuery(c, query), b);
    }
  }

  /**
   * No other list answers a search: a subsequence of the store that holds
   * every matching book as often as the store does, and nothing else, is the
   * search result.
   */
  lemma SearchResultsUnique(store: seq<Book>, query: string, t: seq<Book>)
    requires IsSubsequence(t, store)
    requires forall b {:trigger multiset(t)[b]} :: multiset(t)[b] == if MatchesQuery(b, query) then multiset(store)[b] else 0
    ensures t == SearchResults(store, query)
  {
    SearchResultsInStoreOrder(store, query);
    assert multiset(t) == multiset(SearchResults(store, query));
    FilterUnique(store, (b: Book) => MatchesQuery(b, query), t);
  }

  /** A genre equal to a book's genre also occurs in it, so a genre lookup's books all turn up, in order, in a search for that genre. */
  lemma GenreResultsWithinSearch(store: seq<Book>, genre: string)
    ensures IsSubsequence(BooksOfGenre(store, genre), SearchResults(store, genre))
  {
    forall b: Book | EqualsIgnoreCase(b.genre, genre)
      ensures MatchesQuery(b, genre)
    {
      assert ToLower(genre) <= ToLower(b.genre)[0..];
    }
    FilterNarrows(store, (b: Book) => EqualsIgnoreCase(b.genre, genre),
                         (b: Book) => MatchesQuery(b, genre));
  }
}
