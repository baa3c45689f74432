# Book-list client state layer, in Dafny

This project models the reactive state layer of a small book-list client:

- `BooksStore` holds the list of books, an `isLoading` flag and an `error` message.
  Its two asynchronous actions are `loadBooks` and `addBook`.
- `BooksController` holds the add-book form draft (`newBookName`, `newBookAuthor`).
  It validates the draft with a trim-based check, submits it through the store and clears it.
  It also exposes the store's fields read-through.
- `UIStore` holds the books filter string and a private-books count, with two derived selection flags.

Each asynchronous action is split into the synchronous start step and a finish step.
The finish step takes what the awaited repository call yielded as a parameter: an `Outcome`, either `Returned(value)` or `Threw(message)`.
A whole action is the finish applied to the start.
Store actions also return the repository calls they made, so "no re-fetch happened" is a statement about that list.
The repository's normalisation of the add-book response is modelled over a small JSON value type.
That rule is `result && result.status === "ok"`.

Files:

- `outcomes.dfy` — `Option` (JavaScript `null`) and `Outcome`.
- `text.dfy` — `String.prototype.trim` of ECMAScript (ECMA-262) over the fixed WhiteSpace and LineTerminator code points.
- `books_repository.dfy` — the add-book response normalisation.
- `books_store.dfy` — `BooksStore`, plus runs of completed actions.
- `books_controller.dfy` — `BooksController`.
- `ui_store.dfy` — `UIStore`, plus runs of setter calls.
- `runs.dfy` — a run of completed actions as a left fold, shared by both stores.

Notes on the code's behaviour:

- `setBooksFilter` stores any string. A value other than "all" or "private" lowers both selection flags.
- The store keeps `isLoading` and `error` as two separate fields.
- `BooksStore` holds no reference to `UIStore` and never calls `setPrivateBooksCount`.
- The store never reads a book's fields, so the model keeps only `name` and `author`. Books keep whatever fields the server sends.
- On a successful fetch, `loadBooks` does not clear `error` in its finish step. The error is already null because the start step cleared it.

## Model

| member | source | states |
|---|---|---|
| Text.SkipLeading | src/Books/Books.controller.js:43 | the leading-whitespace scan of `trim`: it returns the first non-whitespace index at or after the start (or the length), and everything skipped is whitespace |
| Text.SkipTrailing | src/Books/Books.controller.js:43 | the trailing-whitespace scan of `trim`, bounded below: it returns the end of the last non-whitespace character (or the bound), and everything skipped is whitespace |
| Text.Trim | src/Books/Books.controller.js:43 | `trim()` returns the contiguous slice of the input that starts after its leading whitespace. Every character outside the slice is whitespace, and the slice is empty or starts and ends with a non-whitespace character, which fixes it uniquely |
| Text.TrimEmptyIff | src/Books/Books.controller.js:43 | `trim()` yields "" exactly when the string holds no non-whitespace character |
| Text.TrimIdempotent | src/Books/Books.controller.js:43 | trimming a trimmed string changes nothing |
| BooksRepository.Accepted | test-simple.js:25-28 | a resolved add response counts as accepted exactly when it is an object whose `status` is the string "ok"; null, other statuses, a missing status and non-objects are refused |
| BooksRepository.AddBook | test-simple.js:25-28 | the repository's `addBook` rethrows a rejected POST with its message, and otherwise returns true exactly for an object response with `status` "ok" |
| BooksRepository.AddBookExamples | src/Books/__tests__/Books.repository.test.js:45-88 | `{status: "ok"}` gives true; `{status: "error"}` and `null` give false; a network error is passed through |
| BooksStore.SetError | src/Books/Books.store.js:64-66 | `setError` overwrites the error, null included, and leaves the books and the loading flag alone |
| BooksStore.ClearError | src/Books/Books.store.js:68-70 | `clearError` makes the error null and leaves the rest alone |
| BooksStore.BeginRequest | src/Books/Books.store.js:24-25 | the start of `loadBooks`, which `addBook` repeats at lines 42-43: loading is raised and the error is null whatever it was before, so errors are not sticky; the books are kept |
| BooksStore.FinishLoad | src/Books/Books.store.js:27-38 | the finish of `loadBooks`: a resolved fetch installs the fetched list as-is; a rejection records its message and keeps the old list; loading ends either way |
| BooksStore.FinishAdd | src/Books/Books.store.js:45-61 | the finish of `addBook`: true runs a whole `loadBooks` with the re-fetch outcome; false records "Failed to add book" and a thrown error records its message, both keeping the list and calling nothing; loading ends in every case |
| BooksStore.LoadBooks | src/Books/Books.store.js:23-39 | a whole `loadBooks` makes exactly one fetch. It ends idle with the fetched list and a null error, or idle with the old list and the failure message |
| BooksStore.AddBook | src/Books/Books.store.js:41-62 | a whole `addBook` first asks the repository to add exactly `{name, author}`. True: the final state is the one a plain `loadBooks` from the prior state reaches, after one re-fetch. False: error "Failed to add book", list kept, no fetch. Thrown: the message is recorded, list kept, no fetch. Always idle afterwards |
| BooksStore.RefetchIffAccepted | src/Books/Books.store.js:46-49 | composed with the repository rule, an add re-fetches the list exactly when the POST resolved to an object with `status` "ok" |
| BooksStore.InitialState | src/Books/Books.store.js:5-7 | a new store has no books, is not loading, has a null error, and `booksCount` is 0 |
| BooksStore.BooksCount | src/Books/Books.store.js:72-74 | `booksCount` is the length of the list, and it is zero exactly when the list is empty |
| BooksStore.BooksCountFollowsLoads | src/Books/Books.store.js:72-74 | `booksCount` becomes the fetched length after a successful load, and no failed load or add changes it |
| BooksStore.BooksAreLatestFetch | src/Books/Books.store.js:28-32 | over any run of completed actions, the list is the one installed by the latest successful fetch (direct or as an add's re-fetch), or the starting list if there was none; it is never appended to |
| BooksStore.RunStaysIdle | src/Books/Books.store.js:23-62 | from an idle store, every run of completed actions ends with `isLoading` false |
| BooksController.New | src/Books/Books.controller.js:6-10 | a new controller has an empty name and author draft and holds the given store |
| BooksController.SetNewBookName | src/Books/Books.controller.js:22-24 | the name is stored verbatim, untrimmed; the author and the store stay |
| BooksController.SetNewBookAuthor | src/Books/Books.controller.js:26-28 | the author is stored verbatim, untrimmed; the name and the store stay |
| BooksController.SettersIndependent | src/Books/Books.controller.js:22-28 | the name and author setters commute and together produce exactly the typed draft; a second write to the same field replaces the first |
| BooksController.ResetForm | src/Books/Books.controller.js:37-40 | both fields become "" and the store is untouched |
| BooksController.ResetFormIdempotent | src/Books/Books.controller.js:37-40 | resetting twice equals resetting once, and a reset controller equals a new one over the same store |
| BooksController.IsFormValid | src/Books/Books.controller.js:42-44 | `isFormValid` holds exactly when each field contains a non-whitespace character; an empty or whitespace-only field makes it false |
| BooksController.HandleAddBook | src/Books/Books.controller.js:30-35 | the store is called exactly when both fields contain a non-whitespace character. Invalid: nothing changes and no call is made. Valid: the untrimmed draft is forwarded, the form is cleared whatever the add's outcome, and the store ends as its `addBook` leaves it |
| BooksController.AccessorsReadThrough | src/Books/Books.controller.js:46-60 | taken together, `books`, `isLoading`, `error` and `booksCount` show the store's fields, and the count is the length of the shown list |
| BooksController.Books | src/Books/Books.controller.js:46-48 | `books` is the store's list, whose length is the store's `booksCount` |
| BooksController.IsLoading | src/Books/Books.controller.js:50-52 | `isLoading` reads through to the store's loading flag |
| BooksController.Error | src/Books/Books.controller.js:54-56 | `error` reads through to the store's error message |
| BooksController.BooksCount | src/Books/Books.controller.js:58-60 | `booksCount` is the store's count, which equals the length of the list the controller shows |
| BooksController.SubmitAcceptedShowsRefetch | src/Books/Books.controller.js:30-35 | a valid submission that is accepted and re-fetched clears the form. The controller then shows the fetched list and its count, is idle, and shows no error |
| BooksController.SubmitRefusedStillClears | src/Books/Books.controller.js:30-35 | a valid submission that is refused or throws still clears the form. The list is unchanged, the controller is idle, and it shows "Failed to add book" or the thrown message |
| BooksController.ForwardsUntrimmed | src/Books/Books.controller.js:33 | example, a special case of `HandleAddBook`: a draft with surrounding spaces is accepted and forwarded with the spaces intact |
| UIStore.SetBooksFilter | src/Shared/UI.store.js:18-20 | the filter becomes the argument and the count is unchanged |
| UIStore.SetPrivateBooksCount | src/Shared/UI.store.js:22-24 | the count becomes the argument and the filter is unchanged |
| UIStore.IsAllBooksSelected | src/Shared/UI.store.js:26-28 | `isAllBooksSelected` is raised exactly for the filter "all", that is the known filter that is not "private" |
| UIStore.IsPrivateBooksSelected | src/Shared/UI.store.js:30-32 | `isPrivateBooksSelected` is raised only for "private", never together with `isAllBooksSelected`, and for a known filter it is raised exactly when the other flag is not |
| UIStore.InitialState | src/Shared/UI.store.js:4-5 | the defaults are filter "all" and count 0, so "all" is selected and "private" is not |
| UIStore.SelectionFlags | src/Shared/UI.store.js:26-32 | the two flags are never both true, and one of them is true exactly when the filter is "all" or "private" |
| UIStore.CountIsLastWrite | src/Shared/UI.store.js:22-24 | over any run of setter calls, the count is the argument of the latest count write, or the starting count if there was none; filter writes never change it |
| UIStore.KnownFiltersKeepOneSelected | src/Shared/UI.store.js:26-32 | starting from "all" or "private" and setting only those two values, exactly one flag is true after every run |

## Left out

- The rendering components and application bootstrap are not part of this model. `switchToAllBooks` and similar members they call are not defined by `BooksController` either.
- The HTTP gateway (`fetch`, status checks, JSON parsing) is I/O. Its results are parameters: the fetch outcome is the list or a message, and the add outcome is a JSON value or a message.
- `LoadBooks` and `FinishLoad` assume the GET resolves to an array of books. The repository's `getBooks` passes the parsed response through, and the store installs it unchecked. A non-array response such as `null` or `{}` would be installed as-is, and `booksCount` would then throw or give `undefined`. That case is not modelled.
- The controller and the application bootstrap share one store object: the controller's `store` is the same instance the app creates and loads through. Here the controller holds its store by value, so sharing is modelled as ownership. A store change made outside the controller is not reflected in it.
- MobX observability, actions and re-rendering are replaced by plain immutable state records.
- Overlapping or interleaved `loadBooks`/`addBook` calls are left out, because they involve concurrency. Each action is modelled as its start step followed directly by its finish step.
- The same goes for edits to the form while `handleAddBook` awaits the store: under the atomic model, the form is cleared right after the store's action.
- A `setError` issued while a request is in flight is also left out. In a run of completed actions, `setError` acts only on idle states.
- A rejection value without a `message` property (so `error.message` is `undefined`) is not modelled. Every failure carries a message string.
- JSON numbers are modelled as integers. Fractional numbers do not affect the add-book rule, because only truthiness and the `status` member matter.
- Strings are sequences of Unicode scalar values, so lone UTF-16 surrogates cannot be represented. No whitespace code point is a surrogate.
- `setPrivateBooksCount` takes any integer here; JavaScript would accept any value.
