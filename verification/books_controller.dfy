/** `BooksController`: the draft of the add-book form and the submit action,
    composed over a `BooksStore` whose fields it also exposes read-through. */
module BooksController {
  import opened Outcomes
  import opened Text
  import BooksStore

  /** The form draft `(newBookName, newBookAuthor)`. */
  datatype Form = Form(newBookName: string, newBookAuthor: string)

  /** The draft a new controller starts with and `resetForm` restores. */
  const EmptyForm: Form := Form("", "")

  /** A controller: its own draft plus the store it was constructed with. */
  datatype Controller = Controller(form: Form, store: BooksStore.State)

  /** `new BooksController(store)`. */
  function New(store: BooksStore.State): (c: Controller)
    ensures c.form.newBookName == "" && c.form.newBookAuthor == ""
    ensures c.store == store
  {
    Controller(EmptyForm, store)
  }

  /** `setNewBookName`: store the argument as typed, untrimmed. */
  function SetNewBookName(c: Controller, name: string): (r: Controller)
    ensures r.form.newBookName == name
    ensures r.form.newBookAuthor == c.form.newBookAuthor && r.store == c.store
  {
    c.(form := c.form.(newBookName := name))
  }

  /** `setNewBookAuthor`: store the argument as typed, untrimmed. */
  function SetNewBookAuthor(c: Controller, author: string): (r: Controller)
    ensures r.form.newBookAuthor == author
    ensures r.form.newBookName == c.form.newBookName && r.store == c.store
  {
    c.(form := c.form.(newBookAuthor := author))
  }

  /** The two setters touch disjoint fields, so their order does not matter,
      and a second write to the same field replaces the first. */
  lemma SettersIndependent(c: Controller, name: string, name2: string, author: string)
    ensures SetNewBookAuthor(SetNewBookName(c, name), author)
         == SetNewBookName(SetNewBookAuthor(c, author), name)
         == Controller(Form(name, author), c.store)
    ensures SetNewBookName(SetNewBookName(c, name), name2) == SetNewBookName(c, name2)
  {
  }

  /** `resetForm`: both fields become empty; the store is not touched. */
  function ResetForm(c: Controller): (r: Controller)
    ensures r.form.newBookName == "" && r.form.newBookAuthor == ""
    ensures r.store == c.store
  {
    c.(form := EmptyForm)
  }

  /** Resetting twice is resetting once, and a reset form is what a new
      controller over the same store holds. */
  lemma ResetFormIdempotent(c: Controller)
    ensures ResetForm(ResetForm(c)) == ResetForm(c)
    ensures ResetForm(c) == New(c.store)
  {
  }

  /** The `isFormValid` getter: both fields are non-empty once trimmed.
      That holds exactly when each field contains a character that is not
      whitespace, so an empty or whitespace-only field makes it false. */
  predicate IsFormValid(f: Form)
    ensures IsFormValid(f) <==>
      HasNonWhitespace(f.newBookName) && HasNonWhitespace(f.newBookAuthor)
  {
    TrimEmptyIff(f.newBookName);
    TrimEmptyIff(f.newBookAuthor);
    Trim(f.newBookName) != "" && Trim(f.newBookAuthor) != ""
  }

  /** What `handleAddBook` did: the controller afterwards, and the
      `(name, author)` it passed to `store.addBook`, if it called it. */
  datatype Submission = Submission(controller: Controller, forwarded: Option<Form>)

  /** `handleAddBook`, with the store's repository outcomes as parameters.
      An invalid draft is ignored outright: no store call and nothing
      changes. A valid one is handed to the store exactly as typed and the
      form is cleared afterwards whatever the add's outcome; the store ends
      as its `addBook` leaves it. */
  function HandleAddBook(c: Controller, added: Outcome<bool>, refetched: Outcome<seq<BooksStore.Book>>)
    : (r: Submission)
    ensures r.forwarded.Some? <==>
      HasNonWhitespace(c.form.newBookName) && HasNonWhitespace(c.form.newBookAuthor)
    ensures r.forwarded.None? ==> r.controller == c
    ensures r.forwarded.Some? ==>
      && r.forwarded.value == c.form
      && r.controller.form == EmptyForm
      && r.controller.store ==
         BooksStore.AddBook(c.store, c.form.newBookName, c.form.newBookAuthor, added, refetched).state
  {
    if !IsFormValid(c.form) then
      Submission(c, None)
    else
      var after := BooksStore.AddBook(c.store, c.form.newBookName, c.form.newBookAuthor, added, refetched);
      Submission(ResetForm(c.(store := after.state)), Some(c.form))
  }

  /** The read-through getter `books`: the store's list, whose length is
      the store's `booksCount`. */
  function Books(c: Controller): (books: seq<BooksStore.Book>)
    ensures books == c.store.books
    ensures |books| == BooksStore.BooksCount(c.store)
  {
    c.store.books
  }

  /** The read-through getter `isLoading`. */
  function IsLoading(c: Controller): (loading: bool)
    ensures loading == c.store.isLoading
  {
    c.store.isLoading
  }

  /** The read-through getter `error`. */
  function Error(c: Controller): (error: Option<string>)
    ensures error == c.store.error
  {
    c.store.error
  }

  /** The read-through getter `booksCount`: the store's count, which is the
      length of the list the controller shows. */
  function BooksCount(c: Controller): (n: nat)
    ensures n == BooksStore.BooksCount(c.store)
    ensures n == |Books(c)|
  {
    BooksStore.BooksCount(c.store)
  }

  /** The getters show the store's own fields, and the count is the length
      of the list the controller shows. */
  lemma AccessorsReadThrough(c: Controller)
    ensures Books(c) == c.store.books && IsLoading(c) == c.store.isLoading
    ensures Error(c) == c.store.error && BooksCount(c) == BooksStore.BooksCount(c.store)
    ensures BooksCount(c) == |Books(c)|
  {
  }

  /** Submitting a valid draft that the server accepts, with a re-fetch that
      succeeds: the form is empty, the controller shows the fetched list,
      is idle and reports no error, whatever error was showing before. */
  lemma SubmitAcceptedShowsRefetch(c: Controller, books: seq<BooksStore.Book>)
    requires HasNonWhitespace(c.form.newBookName) && HasNonWhitespace(c.form.newBookAuthor)
    ensures var r := HandleAddBook(c, Returned(true), Returned(books)).controller;
            && r.form == EmptyForm && Books(r) == books && BooksCount(r) == |books|
            && !IsLoading(r) && Error(r).None?
  {
  }

  /** A valid draft whose add is refused or fails still clears the form;
      the controller then shows the unchanged list and the reason. */
  lemma SubmitRefusedStillClears(c: Controller, message: string, refetched: Outcome<seq<BooksStore.Book>>)
    requires HasNonWhitespace(c.form.newBookName) && HasNonWhitespace(c.form.newBookAuthor)
    ensures var r := HandleAddBook(c, Returned(false), refetched).controller;
            && r.form == EmptyForm && Books(r) == Books(c) && !IsLoading(r)
            && Error(r) == Some(BooksStore.FailedToAdd)
    ensures var r := HandleAddBook(c, Threw(message), refetched).controller;
            && r.form == EmptyForm && Books(r) == Books(c) && !IsLoading(r)
            && Error(r) == Some(message)
  {
  }

  /** Example, a special case of `HandleAddBook`'s contract: surrounding
      spaces are not a reason to refuse a draft, and they are passed to the
      store as typed rather than trimmed away. */
  lemma ForwardsUntrimmed(s: BooksStore.State, added: Outcome<bool>, refetched: Outcome<seq<BooksStore.Book>>)
    ensures var c := Controller(Form(" Dune ", "Frank Herbert"), s);
            HandleAddBook(c, added, refetched).forwarded == Some(Form(" Dune ", "Frank Herbert"))
  {
    var c := Controller(Form(" Dune ", "Frank Herbert"), s);
    assert !IsWhitespace(c.form.newBookName[1]);
    assert !IsWhitespace(c.form.newBookAuthor[0]);
  }
}
