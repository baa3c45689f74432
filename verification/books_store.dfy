/** `BooksStore`: the canonical book list plus the loading flag and the error
    message of the last request. Each asynchronous action is a start step
    followed by a finish step driven by what the repository call yielded. */
module BooksStore {
  import opened Outcomes
  import BooksRepository
  import Runs

  /** A book as the server lists it; the store never looks inside one. */
  datatype Book = Book(name: string, author: string)

  /** The observable fields `books`, `isLoading` and `error` (`None` = null). */
  datatype State = State(books: seq<Book>, isLoading: bool, error: Option<string>)

  /** A freshly constructed store. */
  const Initial: State := State([], false, None)

  /** The message recorded when the repository answers `false` to an add. */
  const FailedToAdd: string := "Failed to add book"

  /** A call the store makes on its repository. */
  datatype RepositoryCall = GetBooks | AddBookCall(name: string, author: string)

  /** The state after an action together with the repository calls it made,
      in order. */
  datatype Step = Step(state: State, calls: seq<RepositoryCall>)

  /** The `booksCount` getter: the length of the list, zero exactly when
      the list is empty. */
  function BooksCount(s: State): (n: nat)
    ensures n == |s.books|
    ensures n == 0 <==> s.books == []
  {
    |s.books|
  }

  /** `setError`: overwrite the error (possibly with null); nothing else moves. */
  function SetError(s: State, error: Option<string>): (r: State)
    ensures r.error == error
    ensures r.books == s.books && r.isLoading == s.isLoading
  {
    s.(error := error)
  }

  /** `clearError`: the error becomes null; nothing else moves. */
  function ClearError(s: State): (r: State)
    ensures r.error.None?
    ensures r.books == s.books && r.isLoading == s.isLoading
  {
    SetError(s, None)
  }

  /** The synchronous start shared by `loadBooks` and `addBook`: raise the
      loading flag, then clear whatever error was there. The books stay. */
  function BeginRequest(s: State): (r: State)
    ensures r.isLoading && r.error.None?
    ensures r.books == s.books
  {
    ClearError(s.(isLoading := true))
  }

  /** The finish of `loadBooks`: a resolved fetch installs the list as
      fetched; a rejected one records its message and keeps the old list.
      Either way loading ends. */
  function FinishLoad(s: State, fetched: Outcome<seq<Book>>): (r: State)
    ensures !r.isLoading
    ensures fetched.Returned? ==> r.books == fetched.value && r.error == s.error
    ensures fetched.Threw? ==> r.books == s.books && r.error == Some(fetched.message)
  {
    match fetched
    case Returned(books) => s.(books := books, isLoading := false)
    case Threw(message) => s.(error := Some(message), isLoading := false)
  }

  /** `loadBooks`, start to finish: exactly one fetch; afterwards the store
      is idle, and it holds the fetched list with no error, or the old list
      with the failure message. A previous error never survives a success. */
  function LoadBooks(s: State, fetched: Outcome<seq<Book>>): (r: Step)
    ensures r.calls == [GetBooks]
    ensures !r.state.isLoading
    ensures fetched.Returned? ==> r.state == State(fetched.value, false, None)
    ensures fetched.Threw? ==> r.state == State(s.books, false, Some(fetched.message))
  {
    Step(FinishLoad(BeginRequest(s), fetched), [GetBooks])
  }

  /** The finish of `addBook`, given the repository's answer: `true` runs a
      whole `loadBooks` with the re-fetch outcome; `false` records
      `FailedToAdd`; a rejection records its message. */
  function FinishAdd(s: State, added: Outcome<bool>, refetched: Outcome<seq<Book>>): (r: Step)
    ensures !r.state.isLoading
    ensures added == Returned(true) ==> r == LoadBooks(s, refetched)
    ensures added == Returned(false) ==> r == Step(State(s.books, false, Some(FailedToAdd)), [])
    ensures added.Threw? ==> r == Step(State(s.books, false, Some(added.message)), [])
  {
    match added
    case Returned(true) => LoadBooks(s, refetched)
    case Returned(false) => Step(s.(error := Some(FailedToAdd), isLoading := false), [])
    case Threw(message) => Step(s.(error := Some(message), isLoading := false), [])
  }

  /** `addBook(name, author)`, start to finish. The repository is asked to
      add exactly `{name, author}`; an accepted add ends in the very state a
      plain `loadBooks` from the prior state would reach, with one re-fetch;
      a refused or failed add fetches nothing, keeps the list and records
      the reason. The store is idle afterwards in every case. */
  function AddBook(s: State, name: string, author: string,
                   added: Outcome<bool>, refetched: Outcome<seq<Book>>): (r: Step)
    ensures |r.calls| >= 1 && r.calls[0] == AddBookCall(name, author)
    ensures !r.state.isLoading
    ensures added == Returned(true) ==>
      r.state == LoadBooks(s, refetched).state && r.calls == [AddBookCall(name, author), GetBooks]
    ensures added == Returned(false) ==>
      r.state == State(s.books, false, Some(FailedToAdd)) && GetBooks !in r.calls
    ensures added.Threw? ==>
      r.state == State(s.books, false, Some(added.message)) && GetBooks !in r.calls
  {
    var finish := FinishAdd(BeginRequest(s), added, refetched);
    Step(finish.state, [AddBookCall(name, author)] + finish.calls)
  }

  /** Composed with the repository's normalisation: an add re-fetches the
      list exactly when the POST resolved with a `status` of "ok". */
  lemma RefetchIffAccepted(s: State, name: string, author: string,
                           posted: Outcome<BooksRepository.Json>, refetched: Outcome<seq<Book>>)
    ensures var r := AddBook(s, name, author, BooksRepository.AddBook(posted), refetched);
            GetBooks in r.calls <==> posted.Returned? && BooksRepository.Accepted(posted.value)
  {
    var added := BooksRepository.AddBook(posted);
    var r := AddBook(s, name, author, added, refetched);
    if added == Returned(true) {
      assert r.calls[1] == GetBooks;
    }
  }

  /** A fresh store is idle, error-free and empty. */
  lemma InitialState()
    ensures Initial.books == [] && !Initial.isLoading && Initial.error.None?
    ensures BooksCount(Initial) == 0
  {
  }

  /** `booksCount` follows the list: it becomes the fetched length after a
      successful load, and no failed load or add changes it. */
  lemma BooksCountFollowsLoads(s: State, books: seq<Book>, message: string,
                               name: string, author: string, refetched: Outcome<seq<Book>>)
    ensures BooksCount(LoadBooks(s, Returned(books)).state) == |books|
    ensures BooksCount(LoadBooks(s, Threw(message)).state) == BooksCount(s)
    ensures BooksCount(AddBook(s, name, author, Returned(false), refetched).state) == BooksCount(s)
    ensures BooksCount(AddBook(s, name, author, Threw(message), refetched).state) == BooksCount(s)
  {
  }

  /** One completed store action, with the outcomes of its repository calls. */
  datatype Action =
    | Load(fetched: Outcome<seq<Book>>)
    | Add(name: string, author: string, added: Outcome<bool>, refetched: Outcome<seq<Book>>)
    | SetErrorTo(error: Option<string>)
    | Clear

  function Apply(s: State, a: Action): State {
    match a
    case Load(fetched) => LoadBooks(s, fetched).state
    case Add(name, author, added, refetched) => AddBook(s, name, author, added, refetched).state
    case SetErrorTo(error) => SetError(s, error)
    case Clear => ClearError(s)
  }

  /** The actions applied one after another, first to last. */
  function Run(s: State, actions: seq<Action>): State {
    Runs.Fold(Apply, s, actions)
  }

  /** The list an action installs, if any: a successful load, or an
      accepted add whose re-fetch succeeded. */
  ghost function Installs(a: Action): Option<seq<Book>> {
    match a
    case Load(Returned(books)) => Some(books)
    case Add(_, _, Returned(true), Returned(books)) => Some(books)
    case _ => None
  }

  /** Reference reading of the list: the one installed by the most recent
      action that installed any, or the starting list if none did. */
  ghost function LatestBooks(start: seq<Book>, actions: seq<Action>): seq<Book>
    decreases |actions|
  {
    if actions == [] then start
    else match Installs(actions[|actions| - 1])
      case Some(books) => books
      case None => LatestBooks(start, actions[..|actions| - 1])
  }

  lemma ApplyBooks(s: State, a: Action)
    ensures Apply(s, a).books == (match Installs(a) case Some(books) => books case None => s.books)
  {
  }

  /** The store's list only ever changes by wholesale replacement with a
      fetched list: after any run it is the most recently fetched one. */
  lemma {:induction false} BooksAreLatestFetch(s: State, actions: seq<Action>)
    ensures Run(s, actions).books == LatestBooks(s.books, actions)
    decreases |actions|
  {
    if actions != [] {
      var init := actions[..|actions| - 1];
      var last := actions[|actions| - 1];
      assert actions == init + [last];
      Runs.FoldSnoc(Apply, s, init, last);
      BooksAreLatestFetch(s, init);
      ApplyBooks(Run(s, init), last);
    }
  }

  /** Every completed action leaves the store idle, so from an idle store
      any run of completed actions ends idle (loading never leaks). */
  lemma {:induction false} RunStaysIdle(s: State, actions: seq<Action>)
    requires !s.isLoading
    ensures !Run(s, actions).isLoading
    decreases |actions|
  {
    if actions != [] {
      RunStaysIdle(Apply(s, actions[0]), actions[1..]);
    }
  }
}
