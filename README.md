# Book API: cache-aside genre lookup and book search

This project models the two book handlers of a small Express application that serves a MongoDB `books` collection through a Redis cache.

- **`GET /api/books/:genre`** is a cache-aside lookup:
  - The handler trims the genre and lower-cases it to form the cache key.
  - It answers from Redis when the key is present.
  - Otherwise it asks the store for the books whose genre equals the requested one, ignoring case.
  - When nothing matches it answers 404 and caches nothing.
  - When books match it writes them under the key with a 3600-second expiry (`setEx`) and answers with them.
  - Any collaborator that throws turns the answer into a 500.
- **`GET /api/books/search`** answers a missing or empty `query` with 400. Otherwise it answers with every book whose title, author, description or genre contains the query, ignoring case. A failing store query gives 500.
- **Routing:** Express picks the first registered route that accepts a request. A GET route also accepts HEAD requests. Because the genre route is registered first, it captures every search request (see Findings).

The project has five modules:

- `Text` (`text.dfy`) holds the string operations:
  - JavaScript `trim`, with the ECMAScript white-space and line-terminator set. It is built on the counts of leading and trailing white space.
  - `toLowerCase`, restricted to ASCII letters.
  - Case-insensitive equality and substring tests.
- `Catalog` (`catalog.dfy`) holds the `Book` record, the generic order-preserving filter and the two store queries. Results are characterised three ways:
  - by membership;
  - by multiplicity, and by order relative to the model's store sequence;
  - uniquely: no other subsequence of that sequence holds the same books.
- `Routing` (`routing.dfy`) holds Express's first-match dispatch over the five registered routes, both in the order index.js registers them and with the search route moved ahead.
- `BookApi` (`book_api.dfy`) holds the genre handler and the search handler:
  - The genre handler is a pure step function `Lookup` over (store, cache), plus the class `BookService`, whose `cache` field the handler method updates in place. A ghost counter records how often the store is queried.
  - The coherence invariant says every cache entry holds exactly the store's answer for its key: a non-empty list, written with the 3600-second expiry. Every lookup preserves it. Over a coherent cache, and when no call to Redis or MongoDB fails, a cached lookup answers exactly what an uncached one would. A failing cache read, or a failing cache write after a successful query, answers 500 where an uncached lookup would have answered; the handler has no fallback to the store.
  - Coherence holds only while the books collection stays as it is. A book inserted from outside under a cached genre makes that entry stale.
  - `BookService.Serve` dispatches a request through a route table given as a parameter, so both orders are modelled at the request level.
- `Optional` (`optional.dfy`) holds the option type. `None` stands for an absent query string.

Three collaborators become plain data:
- Redis is a map from key to entry. JSON serialisation is taken as the identity.
- MongoDB is a sequence of books. The model's queries return books in that sequence's order, but MongoDB promises no order (see Left out).
- The throwing of either collaborator is a `Fault` parameter of each request.

## Model

| member | source | states |
|---|---|---|
| Text.LeadingWhitespace | index.js:81 | the count of leading characters that `trim` cuts: all of them are white space, and the next character, if any, is not |
| Text.TrailingWhitespace | index.js:81 | the count of trailing characters that `trim` cuts: all of them are white space, and the character before them, if any, is not |
| Text.LeadingUnique | index.js:81 | any white-space run at the start that is followed by a non-white-space character, or by the end, is the leading white space |
| Text.TrailingUnique | index.js:81 | any white-space run at the end that is preceded by a non-white-space character, or by the start, is the trailing white space |
| Text.Trim | index.js:81 | the trimmed genre is a slice of the input with only white space cut from either end, and it neither starts nor ends with white space |
| Text.ToLower | index.js:82 | lower-casing keeps the length and maps each character through the ASCII letter mapping |
| Text.LowerCharKeepsWhitespace | index.js:81-82 | lower-casing a character neither creates nor removes white space |
| Text.LeadingOfLower | index.js:81-82 | lower-casing does not change how much leading white space there is |
| Text.TrailingOfLower | index.js:81-82 | lower-casing does not change how much trailing white space there is |
| Text.TrimStartOfLower | index.js:81-82 | stripping leading white space commutes with lower-casing |
| Text.TrimEndOfLower | index.js:81-82 | stripping trailing white space commutes with lower-casing |
| Text.TrimOfLower | index.js:81-82 | trim and lower-case commute, so the key does not depend on the order the handler applies them in |
| Text.TrimStartSkipsPadding | index.js:81 | leading white space never affects the result of stripping the start |
| Text.TrimEndSkipsPadding | index.js:81 | trailing white space never affects the result of stripping the end |
| Text.TrimStartOfAppend | index.js:81 | when stripping the start leaves something, text appended after it is kept intact |
| Text.TrimStartOfBlank | index.js:81 | a blank prefix disappears entirely under stripping the start |
| Text.TrimDropsPadding | index.js:81 | surrounding white space never reaches the trimmed genre |
| Catalog.Filter | index.js:92-94 | a query result holds exactly the stored documents that satisfy its filter |
| Catalog.FilterCount | index.js:92-94 | a query result holds each matching document as often as the store does, and no other |
| Catalog.FilterKeepsOrder | index.js:92-94 | a query result lists documents in the order of the model's store sequence |
| Catalog.SubsequenceMultiset | index.js:92-94 | a subsequence holds no document more often than the whole sequence |
| Catalog.FilterUnique | index.js:120-127 | a subsequence of the store with the filter's counts is the filter's result, so counts and order fix the answer |
| Catalog.FilterCongruent | index.js:92-94 | filters that agree on every stored document return the same result |
| Catalog.SubsequenceOfTail | index.js:92-94 | prepending an element to a sequence keeps its subsequences subsequences |
| Catalog.FilterNarrows | index.js:92-94 | a stronger filter returns a subsequence of a weaker filter's result |
| Catalog.BooksWithKey | index.js:82-100 | the books a cache entry under a key stands for: those whose lower-cased genre is the key |
| Catalog.BooksOfGenre | index.js:92-94 | the genre query returns exactly the books whose genre equals the requested one ignoring case, and is empty exactly when no book matches |
| Catalog.BooksOfGenreInStoreOrder | index.js:92-94 | the genre query returns each matching book as often as the store holds it, in the model's store order |
| Catalog.BooksOfGenreByKey | index.js:82-94 | the genre query depends on the genre only through its lower-case form, which is the cache key |
| Catalog.SearchResults | index.js:120-127 | the search returns exactly the books whose title, author, description or genre contains the query ignoring case |
| Catalog.SearchResultsInStoreOrder | index.js:120-127 | the search returns each matching book as often as the store holds it, in the model's store order |
| Catalog.SearchResultsUnique | index.js:120-127 | no other list of store books in the model's store order, with the same counts, answers a search |
| Catalog.GenreResultsWithinSearch | index.js:92-127 | every book a genre lookup finds is found, in the same order, by a search for that genre |
| Routing.FirstMatch | index.js:69-148 | dispatch picks the first registered route whose verb and path pattern accept the request |
| Routing.FirstMatchIs | index.js:69-148 | the first accepting route is the one dispatched to |
| Routing.BothOrdersMounted | index.js:80-112 | in both route orders the genre handler sits only on `/api/books/:genre` and the search handler only on `/api/books/search` |
| Routing.MountedDispatch | index.js:80-112 | a request dispatched to the genre handler is a GET or HEAD of three segments with a non-empty last one; one dispatched to the search handler is a GET or HEAD its route accepts |
| Routing.SearchPathFitsGenreRoute | index.js:80-112 | every path the search route accepts, the genre route accepts too |
| Routing.SearchPathGoesToGenreLookup | index.js:80-112 | as registered, a search request of any verb is dispatched to the genre handler |
| Routing.SearchRequestDispatch | index.js:80-112 | `GET /api/books/search` reaches the genre handler as registered, and the search handler once reordered |
| Routing.SearchUnreachableAsRegistered | index.js:80-112 | as registered, no request reaches the search handler |
| Routing.SearchReachableWhenRegisteredFirst | index.js:80-112 | with the search route first, the search handler answers exactly the requests its route accepts |
| Routing.DispatchCons | index.js:69-148 | dispatch tries the first route and then the rest of the table |
| Routing.DispatchSkips | index.js:69-148 | removing a route that does not accept a request leaves its dispatch unchanged |
| Routing.SwapIdleRoute | index.js:69-148 | a route that does not accept a request can swap places with its neighbour without changing its dispatch |
| Routing.ReorderOnlyAffectsSearch | index.js:80-112 | moving the search route ahead changes the dispatch of no other request |
| Routing.GenreDispatchShape | index.js:80-112 | with the search route first, the genre handler gets only GETs or HEADs of three segments whose last one is non-empty and not "search" |
| BookApi.KeyOfPadded | index.js:81-82 | the cache key of a padded genre is the trimmed, lower-cased core |
| BookApi.CacheKeyShared | index.js:81-82 | two genres share a cache entry exactly when they differ only in letter case and surrounding white space |
| BookApi.SameKeySameBooks | index.js:81-94 | genres that share a cache key select the same books from the store |
| BookApi.StoreLookup | index.js:92-101 | with the store reached and nothing failing: NotFound exactly when no book matches the trimmed genre, otherwise the non-empty list of exactly the matching books |
| BookApi.Search | index.js:112-134 | 400 exactly when the query is missing or empty; 500 exactly when a non-empty query meets a failing store; never 404; otherwise the search result |
| BookApi.Lookup | index.js:80-107 | every 200 leaves its list in the cache under the key; every other answer leaves the cache as it was; never 400 |
| BookApi.LookupNotFound | index.js:85-98 | the store is queried exactly on a readable miss, and the answer is NotFound exactly when a miss, with the store query working, finds no book |
| BookApi.LookupServerError | index.js:83-106 | the lookup answers 500 exactly when the cache read fails, or on a miss when the store query fails or a non-empty result cannot be cached |
| BookApi.FailingCacheHidesBooks | index.js:83-106 | over a coherent cache, a failing cache read, or a failing cache write on a miss, answers 500 even for a genre the store would have answered with its books; there is no fallback |
| BookApi.LookupHit | index.js:85-90 | a cache hit answers with the cached list, changes nothing and does not query the store |
| BookApi.LookupMissEmpty | index.js:92-98 | a miss that finds no book answers NotFound, queries the store and writes nothing |
| BookApi.LookupMissFound | index.js:92-101 | a miss that finds books answers with them and adds exactly one entry: the key, with that list and a 3600-second expiry |
| BookApi.LookupOnlyTouchesItsKey | index.js:82-100 | a lookup changes no key but its own, and writes it only with the non-empty store result and the fixed expiry |
| BookApi.LookupKeepsCoherent | index.js:80-107 | a lookup keeps a coherent cache coherent, whatever fails |
| BookApi.LookupTransparent | index.js:80-107 | over a coherent cache and with nothing failing, the answer is the one an uncached lookup would give |
| BookApi.OutsideInsertBreaksCoherence | index.js:85-100 | a book inserted from outside under a cached genre leaves the cache incoherent: hits keep serving the old list until the entry expires |
| BookApi.RepeatLookupHits | index.js:85-101 | after a 200, any genre with the same key is a hit: same list, no store query, cache untouched |
| BookApi.RepeatLookupRequeries | index.js:85-98 | after a 404, any genre with the same key queries the store again and again answers 404 |
| BookApi.BookService.GetBooksByGenre | index.js:80-107 | the handler's response, new cache and store-query count are those of Lookup on the old state; it keeps the cache coherent and, without faults, answers what an uncached lookup would |
| BookApi.BookService.Serve | index.js:69-148 | through a given route table, a request the table sends to the genre handler makes exactly Lookup's state change for its last segment. One it sends to the search handler answers Search and leaves the cache alone. Every other request reaches neither handler. Coherence is kept throughout. With index.js's own table, the search path therefore runs the genre handler for "search" (`Routing.SearchRequestDispatch`) |

## Left out

- Catalog.BooksOfGenre: the genre is matched as literal text. The source splices it unescaped into `^…$`, so regular-expression metacharacters in a genre (`.`, `*`, `(`…) change the match, `$` also matches before a final newline of the stored genre, and a genre that is an invalid pattern (such as `(`) makes `Book.find` throw (a 500).
- Catalog.SearchResults: the query is matched as a literal, case-insensitive substring. The source uses it as an unescaped regular expression, so metacharacters change the match and an invalid pattern throws (a 500).
- Text.ToLower: only the ASCII letters A-Z are lower-cased. JavaScript's `toLowerCase` and MongoDB's case-insensitive regex also fold non-ASCII letters, and the two may fold differently.
- Every document is taken to have all four string fields. Missing or non-string fields, which the schema allows, are not modelled.
- BookApi.Search: the query is either absent or a single string. An Express query string that yields an array or object (`?query=a&query=b`) is not modelled.
- A request path is given as its already-split, already-decoded list of segments. Percent-decoding, trailing-slash and empty-segment handling by Express are not modelled.
- The books collection is fixed while the service runs: no handler of index.js writes books, and writes by other programs are not modelled. After such a write, a cached genre keeps serving its old list for up to 3600 seconds; `BookApi.OutsideInsertBreaksCoherence` shows that coherence no longer holds then.
- Result order is the model's choice. `Book.find` without a sort promises no order, and MongoDB may answer through the `genre` or `genre, author` indexes (index.js:58-60) in index order. The order lemmas `Catalog.FilterKeepsOrder`, `Catalog.BooksOfGenreInStoreOrder`, `Catalog.SearchResultsInStoreOrder` and `Catalog.SearchResultsUnique` speak of the model's store sequence.
- A HEAD request runs the same handler as a GET, with the same cache effect; only dropping its response body is not modelled.
- Key expiry over time is not modelled. The cache records the 3600-second expiry it was written with, but entries never expire.
- A failing `setEx` is taken to have written nothing.
- A cached value that is an empty string would be falsy in the source and read as a miss. The model's cache holds only book lists, and the JSON of a list is never empty.
- A request starts from whatever cache the caller supplies. The service constructor starts from an empty cache: the contents of Redis at start-up are outside the model.
- The rate limiter, CORS, JSON body parsing, the MongoDB and Redis connections (db/redisClient.js), the schema indexes and logging are not modelled. Apart from the answers these middlewares send before a handler runs, none of them changes a handler's answer. Those answers include the rate limiter's 429, and `express.json()`'s 400, 413 and 415 for a malformed, oversized or unsupported body. They can come on any route, GET included, and the model leaves them out.
- The admin insert (`POST /api/admin`), `/api/test` and `/health` handlers are routed but not modelled. `BookService.Serve` answers `None` for them.
- Concurrency is not modelled. Each request runs to completion before the next, so two concurrent misses that both write the same key are not represented.
- HTTP bodies are represented only by their list of books. The response messages ("No books found", "Server error", …) are not modelled.

## Findings

| source | as written | input that shows it | evidently intended | confidence | as-written member | corrected member |
|---|---|---|---|---|---|---|
| index.js:80-112 | the `:genre` route is registered before `/api/books/search`, and a parameter accepts the segment `search` | `GET /api/books/search?query=dragon` runs the genre handler with genre "search" and answers 404 or books of genre "search", never the search results | the search route answers search requests, which needs it registered ahead of the genre route | not executed | Routing.SearchUnreachableAsRegistered | Routing.SearchReachableWhenRegisteredFirst |

`BookApi.BookService.Serve` takes the route table as a parameter:
- With `Routing.RegisteredRoutes` it behaves as index.js does: `Routing.SearchPathGoesToGenreLookup` and `Routing.SearchRequestDispatch` show that a search request runs the genre lookup for "search".
- With `Routing.ServedRoutes` it behaves as intended.
- `Routing.ReorderOnlyAffectsSearch` shows that the correction changes the dispatch of no other request.
