/**
 * The two book handlers of index.js over an in-memory model of their
 * collaborators. The Redis cache is a map from key to entry: the book list it
 * holds, with JSON serialisation taken as the identity, and the expiry it was
 * written with. The MongoDB books collection is a sequence of books. Whether a
 * call to either collaborator throws is a parameter of the request.
 */
module BookApi {
  import opened Optional
  import opened Text
  import opened Catalog
  import Routing

  /** The expiry, in seconds, that every cache write sets. */
  const CacheTtlSeconds: nat := 3600

  datatype CacheEntry = CacheEntry(books: seq<Book>, ttlSeconds: nat)

  /**
   * Ok is a 200 carrying the book list, NotFound the genre handler's 404
   * (whose body lists no books), BadRequest the search handler's 400 and
   * ServerError the 500 that either handler's catch block sends.
   */
  datatype Response = Ok(books: seq<Book>) | NotFound | BadRequest | ServerError

  /** Which call to an outside collaborator, if any, throws while the request is handled. */
  datatype Fault = NoFault | CacheReadFails | StoreQueryFails | CacheWriteFails

  /** The cache key of a genre lookup: the genre trimmed, then lower-cased. */
  function CacheKey(genre: string): string
  {
    ToLower(Trim(genre))
  }

  /** `a` and `b` differ at most in letter case and in surrounding white space. */
  ghost predicate SameUpToCaseAndPadding(a: string, b: string)
  {
    exists i, j, k, l :: Padded(a, i, j) && Padded(b, k, l) && EqualsIgnoreCase(a[i..j], b[k..l])
  }

  lemma KeyOfPadded(s: string, i: int, j: int)
    requires Padded(s, i, j)
    ensures CacheKey(s) == Trim(ToLower(s[i..j]))
  {
    assert s == s[..i] + s[i..j] + s[j..];
    assert AllWhitespace(s[..i]) && AllWhitespace(s[j..]);
    TrimDropsPadding(s[..i], s[i..j], s[j..]);
    TrimOfLower(s[i..j]);
  }

  /** Two genres read and write the same cache entry exactly when they differ only in letter case and surrounding white space. */
  lemma CacheKeyShared(a: string, b: string)
    ensures CacheKey(a) == CacheKey(b) <==> SameUpToCaseAndPadding(a, b)
  {
    if SameUpToCaseAndPadding(a, b) {
      var i, j, k, l :| Padded(a, i, j) && Padded(b, k, l) && EqualsIgnoreCase(a[i..j], b[k..l]);
      KeyOfPadded(a, i, j);
      KeyOfPadded(b, k, l);
    }
    if CacheKey(a) == CacheKey(b) {
      var i, j :| Padded(a, i, j) && Trim(a) == a[i..j];
      var k, l :| Padded(b, k, l) && Trim(b) == b[k..l];
      assert EqualsIgnoreCase(a[i..j], b[k..l]);
    }
  }

  /** Genres that share a cache key select the same books from the store. */
  lemma SameKeySameBooks(store: seq<Book>, a: string, b: string)
    requires CacheKey(a) == CacheKey(b)
    ensures BooksOfGenre(store, Trim(a)) == BooksOfGenre(store, Trim(b))
  {
    BooksOfGenreByKey(store, Trim(a));
    BooksOfGenreByKey(store, Trim(b));
  }

  /** The answer of the genre handler when it goes to the store and nothing fails: the matching books, or NotFound when there are none. */
  function StoreLookup(store: seq<Book>, genre: string): (r: Response)
    ensures r.Ok? || r.NotFound?
    ensures r.NotFound? <==> forall b {:trigger b in store} :: b in store ==> !EqualsIgnoreCase(b.genre, Trim(genre))
    ensures r.Ok? ==> r.books != [] && forall b {:trigger b in r.books} {:trigger b in store} :: b in r.books <==> b in store && EqualsIgnoreCase(b.genre, Trim(genre))
  {
    var found := BooksOfGenre(store, Trim(genre));
    if found == [] then NotFound else Ok(found)
  }

  /**
   * The search handler: a missing or empty query is a bad request, and the
   * store is not queried; otherwise every book matching the query, in store
   * order. The cache plays no part.
   */
  function Search(store: seq<Book>, query: Option<string>, fault: Fault): (r: Response)
    ensures r == BadRequest <==> query == None || query == Some("")
    ensures r == ServerError <==> query.Some? && query.value != "" && fault == StoreQueryFails
    ensures r.NotFound? == false
    ensures r.Ok? ==> query.Some? && forall b {:trigger b in r.books} {:trigger b in store} :: b in r.books <==> b in store && MatchesQuery(b, query.value)
    ensures r.Ok? ==> query.Some? && r.books == SearchResults(store, query.value)
  {
    if query.None? || query.value == "" then BadRequest
    else if fault == StoreQueryFails then ServerError
    else Ok(SearchResults(store, query.value))
  }

  /**
   * Every entry of `cache` holds the non-empty result of the genre query for
   * its key and was written with the fixed expiry.
   */
  ghost predicate CoherentWith(store: seq<Book>, cache: map<string, CacheEntry>)
  {
    forall key {:trigger key in cache} :: key in cache ==> cache[key] == CacheEntry(BooksWithKey(store, key), CacheTtlSeconds) && cache[key].books != []
  }

  /** What one run of the genre handler produces: its response, the cache after it, and whether it queried the store. */
  datatype Outcome = Outcome(resp: Response, cache: map<string, CacheEntry>, queriedStore: bool)

  /**
   * One run of the genre handler against `store` and `cache`. A failed cache
   * read or store query, and a failed cache write after a non-empty query,
   * end in ServerError with the cache as it was.
   */
  function Lookup(store: seq<Book>, cache: map<string, CacheEntry>, genre: string, fault: Fault): (o: Outcome)
    ensures o.resp.Ok? ==> CacheKey(genre) in o.cache && o.cache[CacheKey(genre)].books == o.resp.books
    ensures o.resp.Ok? || o.cache == cache
    ensures o.resp != BadRequest
  {
    var key := CacheKey(genre);
    if fault == CacheReadFails then Outcome(ServerError, cache, false)
    else if key in cache then Outcome(Ok(cache[key].books), cache, false)
    else if fault == StoreQueryFails then Outcome(ServerError, cache, true)
    else
      var found := BooksOfGenre(store, Trim(genre));
      if found == [] then Outcome(NotFound, cache, true)
      else if fault == CacheWriteFails then Outcome(ServerError, cache, true)
      else Outcome(Ok(found), cache[key := CacheEntry(found, CacheTtlSeconds)], true)
  }

  /** The lookup queries the store exactly on a miss, and answers NotFound exactly when that query finds nothing. */
  lemma LookupNotFound(store: seq<Book>, cache: map<string, CacheEntry>, genre: string, fault: Fault)
    ensures Lookup(store, cache, genre, fault).queriedStore <==> fault != CacheReadFails && CacheKey(genre) !in cache
    ensures Lookup(store, cache, genre, fault).resp == NotFound <==>
      && fault != CacheReadFails && fault != StoreQueryFails
      && CacheKey(genre) !in cache && BooksOfGenre(store, Trim(genre)) == []
  {
  }

  /**
   * The lookup answers ServerError exactly when the cache read fails, or on a
   * miss when the store query fails, or when a non-empty result cannot be
   * written back. There is no fallback to the store when Redis fails.
   */
  lemma LookupServerError(store: seq<Book>, cache: map<string, CacheEntry>, genre: string, fault: Fault)
    ensures Lookup(store, cache, genre, fault).resp == ServerError <==>
      || fault == CacheReadFails
      || (CacheKey(genre) !in cache
          && (fault == StoreQueryFails || (fault == CacheWriteFails && BooksOfGenre(store, Trim(genre)) != [])))
  {
  }

  /**
   * Even over a coherent cache, a failing cache read, or a failing cache write
   * on a miss, answers ServerError where an uncached lookup of a matching genre
   * would have answered with its books.
   */
  lemma FailingCacheHidesBooks(store: seq<Book>, cache: map<string, CacheEntry>, genre: string, fault: Fault)
    requires CoherentWith(store, cache)
    requires fault == CacheReadFails || (fault == CacheWriteFails && CacheKey(genre) !in cache)
    requires BooksOfGenre(store, Trim(genre)) != []
    ensures StoreLookup(store, genre).Ok?
    ensures Lookup(store, cache, genre, fault).resp == ServerError
  {
  }

  /** A hit answers with the cached list, leaves the cache as it was and does not query the store. */
  lemma LookupHit(store: seq<Book>, cache: map<string, CacheEntry>, genre: string, fault: Fault)
    requires CacheKey(genre) in cache && fault != CacheReadFails
    ensures Lookup(store, cache, genre, fault) == Outcome(Ok(cache[CacheKey(genre)].books), cache, false)
  {
  }

  /** A miss that finds no book answers NotFound and writes nothing: empty results are never cached. */
  lemma LookupMissEmpty(store: seq<Book>, cache: map<string, CacheEntry>, genre: string, fault: Fault)
    requires CacheKey(genre) !in cache && fault != CacheReadFails && fault != StoreQueryFails
    requires forall b {:trigger b in store} :: b in store ==> !EqualsIgnoreCase(b.genre, Trim(genre))
    ensures Lookup(store, cache, genre, fault) == Outcome(NotFound, cache, true)
  {
  }

  /**
   * A miss that finds books, with a working cache, answers with them and
   * writes exactly one entry: the key maps to that list with the fixed expiry.
   */
  lemma LookupMissFound(store: seq<Book>, cache: map<string, CacheEntry>, genre: string)
    requires CacheKey(genre) !in cache
    requires exists b {:trigger b in store} :: b in store && EqualsIgnoreCase(b.genre, Trim(genre))
    ensures var o := Lookup(store, cache, genre, NoFault);
      && o.resp == Ok(BooksOfGenre(store, Trim(genre)))
      && o.cache.Keys == cache.Keys + {CacheKey(genre)}
      && o.cache[CacheKey(genre)] == CacheEntry(o.resp.books, CacheTtlSeconds)
      && (forall k :: k in cache ==> o.cache[k] == cache[k])
      && o.queriedStore
  {
    var key, found := CacheKey(genre), BooksOfGenre(store, Trim(genre));
    var b :| b in store && EqualsIgnoreCase(b.genre, Trim(genre));
    assert b in found;
    assert Lookup(store, cache, genre, NoFault) == Outcome(Ok(found), cache[key := CacheEntry(found, CacheTtlSeconds)], true);
  }

  /** Whatever happens, only the genre's own key can change, and only to a non-empty list with the fixed expiry. */
  lemma LookupOnlyTouchesItsKey(store: seq<Book>, cache: map<string, CacheEntry>, genre: string, fault: Fault)
    ensures var o := Lookup(store, cache, genre, fault);
      && (forall k :: k != CacheKey(genre) ==> (k in o.cache <==> k in cache) && (k in cache ==> o.cache[k] == cache[k]))
      && (CacheKey(genre) in o.cache && CacheKey(genre) !in cache ==>
            o.cache[CacheKey(genre)] == CacheEntry(BooksOfGenre(store, Trim(genre)), CacheTtlSeconds)
            && o.cache[CacheKey(genre)].books != [])
  {
    var key, found := CacheKey(genre), BooksOfGenre(store, Trim(genre));
    var o := Lookup(store, cache, genre, fault);
    if o.cache != cache {
      assert found != [] && o.cache == cache[key := CacheEntry(found, CacheTtlSeconds)];
    }
  }

  /** A lookup keeps a coherent cache coherent. */
  lemma LookupKeepsCoherent(store: seq<Book>, cache: map<string, CacheEntry>, genre: string, fault: Fault)
    requires CoherentWith(store, cache)
    ensures CoherentWith(store, Lookup(store, cache, genre, fault).cache)
  {
    var key := CacheKey(genre);
    BooksOfGenreByKey(store, Trim(genre));
    var o := Lookup(store, cache, genre, fault);
    forall k | k in o.cache
      ensures o.cache[k] == CacheEntry(BooksWithKey(store, k), CacheTtlSeconds) && o.cache[k].books != []
    {
      if k != key || key in cache {
        assert k in cache && o.cache[k] == cache[k];
      }
    }
  }

  /**
   * Over a coherent cache, and with nothing failing, the lookup answers what a
   * lookup without a cache would.
   */
  lemma LookupTransparent(store: seq<Book>, cache: map<string, CacheEntry>, genre: string)
    requires CoherentWith(store, cache)
    ensures Lookup(store, cache, genre, NoFault).resp == StoreLookup(store, genre)
  {
    var key, found := CacheKey(genre), BooksOfGenre(store, Trim(genre));
    var o := Lookup(store, cache, genre, NoFault);
    if key in cache {
      BooksOfGenreByKey(store, Trim(genre));
      assert cache[key].books == found && found != [];
      assert o.resp == Ok(found);
    } else {
      assert o.resp == if found == [] then NotFound else Ok(found);
    }
  }

  /**
   * Coherence depends on the store staying as it is: a book inserted from
   * outside under a genre whose key is cached leaves that entry stale, and
   * lookups keep serving it until it expires.
   */
  lemma OutsideInsertBreaksCoherence(store: seq<Book>, cache: map<string, CacheEntry>, b: Book)
    requires CoherentWith(store, cache)
    requires ToLower(b.genre) in cache
    ensures !CoherentWith(store + [b], cache)
  {
    var key := ToLower(b.genre);
    var keep := (x: Book) => ToLower(x.genre) == key;
    FilterCount(store, keep, b);
    FilterCount(store + [b], keep, b);
    assert multiset(store + [b])[b] == multiset(store)[b] + 1;
    assert BooksWithKey(store + [b], key) != BooksWithKey(store, key);
  }

  /**
   * After a lookup that answered with a list, a second lookup of any genre
   * with the same key is a hit: same list, cache untouched, no store query.
   */
  lemma RepeatLookupHits(store: seq<Book>, cache: map<string, CacheEntry>, first: string, second: string, fault: Fault)
    requires CacheKey(first) == CacheKey(second)
    requires Lookup(store, cache, first, NoFault).resp.Ok?
    requires fault != CacheReadFails
    ensures var o1 := Lookup(store, cache, first, NoFault);
      Lookup(store, o1.cache, second, fault) == Outcome(o1.resp, o1.cache, false)
  {
    var o1 := Lookup(store, cache, first, NoFault);
    LookupHit(store, o1.cache, second, fault);
  }

  /**
   * After a lookup that answered NotFound, a second lookup of any genre with
   * the same key queries the store again and again answers NotFound.
   */
  lemma RepeatLookupRequeries(store: seq<Book>, cache: map<string, CacheEntry>, first: string, second: string)
    requires CacheKey(first) == CacheKey(second)
    requires Lookup(store, cache, first, NoFault).resp == NotFound
    ensures var o1 := Lookup(store, cache, first, NoFault);
      Lookup(store, o1.cache, second, NoFault) == Outcome(NotFound, cache, true)
  {
    LookupNotFound(store, cache, first, NoFault);
    SameKeySameBooks(store, first, second);
    LookupNotFound(store, cache, second, NoFault);
  }

  class BookService {
    /** The books collection, in an order the model chooses. */
    var store: seq<Book>
    /** The Redis cache. */
    var cache: map<string, CacheEntry>
    /** How many queries the handlers have sent to the books collection. */
    ghost var storeQueries: nat

    /** A service over the given books with an empty cache. */
    constructor(books: seq<Book>)
      ensures store == books && cache == map[] && storeQueries == 0
      ensures Coherent()
    {
      store := books;
      cache := map[];
      storeQueries := 0;
    }

    /** The cache agrees with the store. */
    ghost predicate Coherent()
      reads this
    {
      CoherentWith(store, cache)
    }

    /** The state after one run of the genre handler is the one Lookup gives for the state before it. */
    twostate predicate LookedUp(genre: string, fault: Fault, resp: Response)
      reads this
    {
      var o := Lookup(old(store), old(cache), genre, fault);
      && store == old(store)
      && resp == o.resp
      && cache == o.cache
      && storeQueries == old(storeQueries) + (if o.queriedStore then 1 else 0)
    }

    /** The handler of GET /api/books/:genre. */
    method GetBooksByGenre(genre: string, fault: Fault) returns (resp: Response)
      modifies this
      ensures LookedUp(genre, fault, resp)
      ensures old(Coherent()) ==> Coherent()
      ensures old(Coherent()) && fault == NoFault ==> resp == StoreLookup(store, genre)
    {
      ghost var o := Lookup(store, cache, genre, fault);
      ghost var wasCoherent := Coherent();
      if wasCoherent {
        LookupKeepsCoherent(store, cache, genre, fault);
        LookupTransparent(store, cache, genre);
      }
      ghost var transparent := wasCoherent && fault == NoFault ==> o.resp == StoreLookup(store, genre);
      assert transparent;
      var trimmed := Trim(genre);
      var key := ToLower(trimmed);
      if fault == CacheReadFails {
        resp := ServerError;
        assert o == Outcome(resp, cache, false);
      } else if key in cache {
        resp := Ok(cache[key].books);
        assert o == Outcome(resp, cache, false);
      } else {
        storeQueries := storeQueries + 1;
        if fault == StoreQueryFails {
          resp := ServerError;
          assert o == Outcome(resp, cache, true);
        } else {
          var books := BooksOfGenre(store, trimmed);
          if |books| == 0 {
            resp := NotFound;
            assert o == Outcome(resp, cache, true);
          } else if fault == CacheWriteFails {
            resp := ServerError;
            assert o == Outcome(resp, cache, true);
          } else {
            cache := cache[key := CacheEntry(books, CacheTtlSeconds)];
            resp := Ok(books);
            assert o == Outcome(resp, cache, true);
          }
        }
      }
      assert resp == o.resp && cache == o.cache;
    }

    /**
     * A request, dispatched through `table`: index.js's own order is
     * `Routing.RegisteredRoutes`, the corrected one `Routing.ServedRoutes`.
     * None stands for every request that neither book handler answers. A HEAD
     * request runs the same handler as a GET; only its body is dropped.
     */
    method Serve(table: seq<Routing.Route>, verb: Routing.Verb, path: seq<string>, query: Option<string>, fault: Fault)
      returns (resp: Option<Response>)
      requires Routing.HandlersMounted(table)
      modifies this
      ensures store == old(store)
      ensures old(Coherent()) ==> Coherent()
      ensures Routing.Dispatch(table, verb, path) == Some(Routing.BooksByGenre) ==>
                |path| == 3 && resp.Some? && LookedUp(path[2], fault, resp.value)
      ensures Routing.Dispatch(table, verb, path) == Some(Routing.SearchBooks) ==>
                && resp == Some(Search(store, query, fault))
                && cache == old(cache)
                && storeQueries == old(storeQueries) + (if query == None || query == Some("") then 0 else 1)
      ensures Routing.Dispatch(table, verb, path) !in {Some(Routing.BooksByGenre), Some(Routing.SearchBooks)} ==>
                resp == None && cache == old(cache) && storeQueries == old(storeQueries)
    {
      var handler := Routing.Dispatch(table, verb, path);
      Routing.MountedDispatch(table, verb, path);
      if handler == Some(Routing.BooksByGenre) {
        var r := GetBooksByGenre(path[2], fault);
        resp := Some(r);
      } else if handler == Some(Routing.SearchBooks) {
        if query.Some? && query.value != "" {
          storeQueries := storeQueries + 1;
        }
        resp := Some(Search(store, query, fault));
      } else {
        resp := None;
      }
    }
  }
}
