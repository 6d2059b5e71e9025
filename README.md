# Wishlist repository over Masterdata

This project models `WishListRepository`, the data layer of the wishlist app. It stores
each shopper's wishlist as one document in a Masterdata data entity and reaches the
store only through HTTP. The model covers:

- **The schema check** (`VerifySchema`). It runs at construction and at the start of
  every operation, except that `GetWishList` returns before it when the owner id is null
  or empty. It reads the stored schema and, when the read succeeds and the text differs
  from the compiled-in schema, writes the compiled-in schema back.
- **Save** (`SaveWishList`). It upserts one document whose single named list carries the
  given items.
- **Delete** (`DeleteWishList`). It deletes one document by id.
- **Read with repair** (`GetWishList`). It searches by owner e-mail. Element 0 of the
  result is the answer. The later elements are deleted one by one, in order, until the
  first element whose handling throws; that element and everything after it are not
  deleted. The result of each DELETE is discarded. A caught exception, and then a
  non-success status, overwrites the answer's `message`; when element 0 is JSON `null`,
  which deserialises to a null reference, that write raises a null-reference exception.
- **The full scan** (`GetAllLists`, with `FirstScroll` and `SubScroll`). It opens a scroll
  of 200 documents per page, then continues with the saved token until a continuation
  page has fewer than 200 elements. A page that is not a JSON array, or an opening answer
  without a token header, raises out of the scan. It then merges the pages and
  materialises the documents in order, skipping null slots and null documents. The first
  element whose deserialisation throws ends the materialisation; the exception is caught
  and the documents gathered so far are returned.

The store is simulated by `MasterData.Store`. Each endpoint is a method that appends the
request, with its credential, to a call log. The store's state fixes the answers:

- the schema endpoint's readability, text and writability;
- a table of search replies by e-mail;
- the PATCH and DELETE success flags;
- the sequence of scroll pages.

Contracts therefore speak of the exact sequence of requests each operation issues. They
also state the store's resulting schema and the value returned or the exception raised.

Modules:

- `Documents` holds the document records, JSON bodies seen as structure, and the
  exceptions.
- `MasterData` holds the requests and the store.
- `SchemaGuard` holds the schema check as functions.
- `Scroll` holds the scan as functions, with lemmas about pagination and
  materialisation.
- `Lookup` holds the read-with-repair as functions, with lemmas about what it deletes
  and answers.
- `Repository` holds the repository class, whose methods are proved against those
  functions.

A few points where the code is followed rather than a cleaner reading of it:

- **The continuation call after a short first page.** The loop tests the page size only
  on continuation pages. A short first page is therefore still followed by one
  continuation call, which receives an empty page (`Scroll.ShortFirstPageStillContinues`).
- **A null answer.** On `GetWishList`, element 0 can be JSON `null`, which
  deserialises to a null reference. A later catch or status branch then writes into it. The model raises
  `NullReference` there (`Lookup.StatusOverridesMessage`).
- **Schema checks during repair.** Each deletion made while repairing duplicates runs its
  own schema check, because it goes through `DeleteWishList`.

## Model

| member | source | states |
|---|---|---|
| Repository.UpsertBody | dotnet/Data/WishListRepository.cs:65-82 | the upserted document carries the given id and owner and exactly one list, with the given name, visibility and items (an empty item list when none is given) |
| Repository.WishListRepository.constructor | dotnet/Data/WishListRepository.cs:40-58 | construction runs one schema check: its requests are logged and the stored schema is left as that check leaves it |
| Repository.WishListRepository.VerifySchema | dotnet/Data/WishListRepository.cs:196-247 | one GET of the schema, then a PUT of the expected text exactly when the read succeeded with different text; the stored text becomes the expected text only if that PUT succeeds |
| Repository.WishListRepository.SaveWishList | dotnet/Data/WishListRepository.cs:60-106 | the schema check, then one PATCH of the upserted document with the context's auth token; the result is the store's success flag |
| Repository.WishListRepository.DeleteWishList | dotnet/Data/WishListRepository.cs:171-194 | the schema check, then one DELETE of the given id; the result is the store's success flag |
| Repository.WishListRepository.GetWishList | dotnet/Data/WishListRepository.cs:108-169 | a null or empty owner id answers the default wrapper and issues no request; otherwise one schema check, one search, one delete round per duplicate handled before the first exception, and the answer given by the read-with-repair outcome |
| Repository.WishListRepository.RepairDuplicates | dotnet/Data/WishListRepository.cs:140-161 | the try-block loop stops at the first element whose handling raises; the answer is element 0 (default before it is handled); exactly the handled later elements are deleted, in order |
| Repository.WishListRepository.FirstScroll | dotnet/Data/WishListRepository.cs:249-273 | one opening scroll call of size 200; the token header is saved and the first page returned, or the missing header raises |
| Repository.WishListRepository.SubScroll | dotnet/Data/WishListRepository.cs:275-298 | one continuation call with the saved token; it returns the next page and leaves the token unchanged |
| Repository.WishListRepository.GetAllLists | dotnet/Data/WishListRepository.cs:299-352 | the schema check, then exactly the scan's scroll calls; the result is the scan's exception or the listing of the merged pages; the token is the store's header |
| Repository.Materialize | dotnet/Data/WishListRepository.cs:331-349 | the documents of the merged array in order, skipping null slots and null documents, up to the first element whose deserialisation throws |
| Scroll.LastPage | dotnet/Data/WishListRepository.cs:306-325 | the first continuation page that ends the scan: every continuation page before it is a full array |
| Scroll.ScanStopsAtFirstShortPage | dotnet/Data/WishListRepository.cs:306-325 | a scan that returns has read every page up to the first short continuation page and nothing after it |
| Scroll.ScanRaisesOnMalformedPage | dotnet/Data/WishListRepository.cs:267-325 | the scan raises exactly when the opening answer has no token header or a page it reads is not a JSON array; a missing header raises `MissingScrollToken` on the first call, and otherwise the fault is the parse error `MalformedJson`, raised on the page that failed to parse |
| Scroll.ScanReadsAllPages | dotnet/Data/WishListRepository.cs:306-325 | with full middle pages, the scan returns all pages concatenated in order; it makes one call per page, plus one more unless the last continuation page is short |
| Scroll.ThreePageScan | dotnet/Data/WishListRepository.cs:306-325 | pages of 200, 200 and 150 elements give three calls and 550 elements in page order |
| Scroll.EmptyLastPageEndsScan | dotnet/Data/WishListRepository.cs:306-325 | pages of 200, 200, 200 and 0 elements give four calls and 600 elements |
| Scroll.ShortFirstPageStillContinues | dotnet/Data/WishListRepository.cs:308-322 | a short first page is still followed by one continuation call |
| Scroll.ScrollCallsShape | dotnet/Data/WishListRepository.cs:306-325 | the scan's requests are one opening call followed by continuation calls that all carry the saved token |
| Scroll.FirstThrow | dotnet/Data/WishListRepository.cs:331-349 | the position of the first element whose deserialisation throws; none before it throws |
| Scroll.ListingOfCleanArray | dotnet/Data/WishListRepository.cs:331-349 | when every element is a document, the listing holds all of them, in order |
| Scroll.ListingIgnoresTail | dotnet/Data/WishListRepository.cs:331-349 | elements after the first one that throws do not affect the listing |
| Lookup.RepairStop | dotnet/Data/WishListRepository.cs:140-155 | the position of the first element whose handling raises: every element before it is handled without an exception |
| Lookup.DuplicatesAreLaterIds | dotnet/Data/WishListRepository.cs:143-155 | the ids deleted are those of elements 1 up to the stop, in order, one each |
| Lookup.DeleteLogDeletes | dotnet/Data/WishListRepository.cs:153 | the delete rounds issue exactly one DELETE per id, in order, and no other DELETE |
| Lookup.SearchRepairsDuplicates | dotnet/Data/WishListRepository.cs:140-155 | for a successful search whose elements are all documents, the answer is element 0 (the default wrapper when empty) and every later element's id is deleted, in order |
| Lookup.DeletionsStopAtFault | dotnet/Data/WishListRepository.cs:140-161 | no element at or after the first one whose handling raises is deleted |
| Lookup.StatusOverridesMessage | dotnet/Data/WishListRepository.cs:157-166 | a non-success status always ends with the status message, overriding any earlier message; it raises the null reference instead exactly when the answer left by the try block is null |
| Lookup.MalformedSearchDeletesNothing | dotnet/Data/WishListRepository.cs:140-166 | a body that is not an array deletes nothing and answers the default wrapper with the parse error, or with the status message on a failed call |
| SchemaGuard.VerifyPutsOnDriftOnly | dotnet/Data/WishListRepository.cs:218-245 | the check's first request is the GET; it PUTs the expected text exactly when the stored schema was readable and different |
| SchemaGuard.VerifyIdempotent | dotnet/Data/WishListRepository.cs:218-245 | a second check leaves the store as the first one left it |
| SchemaGuard.SecondVerifyDoesNotPut | dotnet/Data/WishListRepository.cs:218-245 | against a writable store a second check issues no PUT, so two checks PUT the expected text at most once |
| SchemaGuard.UnreadableSchemaIsLeftAlone | dotnet/Data/WishListRepository.cs:218 | when the schema cannot be read, the check issues only the GET and changes nothing |

## Left out

- HTTP itself is not modelled: URIs (including the account name taken from the inbound header into the host), URL encoding and `Cache-Control`. Each request is recorded only as its kind, its payload and the credential attached to it.
- Which credential a request sends is modelled: the context auth token for save, get, delete and the schema check, and the inbound credential header for the scroll calls. The three header names the credential is copied into are not.
- JSON text is not modelled. Parsing, `ToString` and `JsonConvert` deserialisation are structure: a body is an array of elements or something else. An element is a document, JSON `null`, a missing slot, or a value whose deserialisation throws.
- Exception messages are not modelled. The `message` field records which exception was caught, or which status was returned, together with the body. The display string is not built.
- `async`/`await`, the constructor's `.Wait()` and concurrency are not modelled. In particular, the static scroll token is shared between repository instances and can race between concurrent scans. The model keeps it as a field of one repository instance.
- Logging and the commented-out console output are left out; they have no effect on results.
- The constructor's `ArgumentNullException` checks for its injected services are left out, because those services become the store and the credential parameters.
- The compiled-in schema text lives in `WishListConstants.SCHEMA_JSON`. That class is not part of this model, so the text is a constructor parameter.
- SchemaGuard.SecondVerifyDoesNotPut: holds because the simulated store returns a PUT schema byte for byte on the next GET. A real store that re-formats the stored JSON would make the text differ on every read, and every check would then PUT again.
- The store answers from a fixed script, and a search does not see a document saved earlier. A save-then-fetch round trip is therefore not stated.
- `cypress/support/selectors.js` is test-harness context with no behaviour of the repository, so it is left out.
