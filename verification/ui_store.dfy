/** `UIStore`: the active books filter (a free-form string, "all" or
    "private" in practice) and the private-books count. */
module UIStore {
  import Runs

  /** The observable fields `booksFilter` and `privateBooksCount`. */
  datatype State = State(booksFilter: string, privateBooksCount: int)

  const AllFilter: string := "all"
  const PrivateFilter: string := "private"

  /** A freshly constructed store. */
  const Initial: State := State(AllFilter, 0)

  /** `setBooksFilter`: any string is stored as given; the count stays. */
  function SetBooksFilter(u: State, filter: string): (r: State)
    ensures r.booksFilter == filter
    ensures r.privateBooksCount == u.privateBooksCount
  {
    u.(booksFilter := filter)
  }

  /** `setPrivateBooksCount`: the count is overwritten; the filter stays. */
  function SetPrivateBooksCount(u: State, count: int): (r: State)
    ensures r.privateBooksCount == count
    ensures r.booksFilter == u.booksFilter
  {
    u.(privateBooksCount := count)
  }

  /** One of the two filters the views know how to select. */
  predicate KnownFilter(filter: string) {
    filter == AllFilter || filter == PrivateFilter
  }

  /** The `isAllBooksSelected` flag: raised exactly for the known filter
      that is not "private", so never together with a "private" filter. */
  predicate IsAllBooksSelected(u: State)
    ensures IsAllBooksSelected(u) <==> KnownFilter(u.booksFilter) && u.booksFilter != PrivateFilter
  {
    u.booksFilter == AllFilter
  }

  /** The `isPrivateBooksSelected` flag: raised only by the filter
      "private", and never together with `isAllBooksSelected`. */
  predicate IsPrivateBooksSelected(u: State)
    ensures IsPrivateBooksSelected(u) ==> KnownFilter(u.booksFilter) && !IsAllBooksSelected(u)
    ensures !IsAllBooksSelected(u) && KnownFilter(u.booksFilter) ==> IsPrivateBooksSelected(u)
  {
    u.booksFilter == PrivateFilter
  }

  /** The defaults: filter "all", count 0, so "all" is the selected flag. */
  lemma InitialState()
    ensures Initial.booksFilter == "all" && Initial.privateBooksCount == 0
    ensures IsAllBooksSelected(Initial) && !IsPrivateBooksSelected(Initial)
  {
  }

  /** The two flags are never both raised, and exactly one of them is
      raised precisely when the filter is "all" or "private"; any other
      string lowers both. */
  lemma SelectionFlags(u: State)
    ensures !(IsAllBooksSelected(u) && IsPrivateBooksSelected(u))
    ensures (IsAllBooksSelected(u) || IsPrivateBooksSelected(u)) <==> KnownFilter(u.booksFilter)
  {
  }

  /** One setter call. */
  datatype Action = SetFilter(filter: string) | SetCount(count: int)

  function Apply(u: State, a: Action): State {
    match a
    case SetFilter(filter) => SetBooksFilter(u, filter)
    case SetCount(count) => SetPrivateBooksCount(u, count)
  }

  /** The setter calls applied one after another, first to last. */
  function Run(u: State, actions: seq<Action>): State {
    Runs.Fold(Apply, u, actions)
  }

  /** Reference reading of the count: the argument of the most recent
      `SetCount`, or the starting count if there was none. */
  ghost function LastCount(start: int, actions: seq<Action>): int
    decreases |actions|
  {
    if actions == [] then start
    else match actions[|actions| - 1]
      case SetCount(count) => count
      case SetFilter(_) => LastCount(start, actions[..|actions| - 1])
  }

  /** Last write wins for the count, and filter changes never disturb it. */
  lemma {:induction false} CountIsLastWrite(u: State, actions: seq<Action>)
    ensures Run(u, actions).privateBooksCount == LastCount(u.privateBooksCount, actions)
    decreases |actions|
  {
    if actions != [] {
      var init := actions[..|actions| - 1];
      var last := actions[|actions| - 1];
      assert actions == init + [last];
      Runs.FoldSnoc(Apply, u, init, last);
      CountIsLastWrite(u, init);
    }
  }

  /** Starting from a known filter (the default, say) and only ever setting
      "all" or "private", exactly one flag is raised after every run. */
  lemma {:induction false} KnownFiltersKeepOneSelected(u: State, actions: seq<Action>)
    requires KnownFilter(u.booksFilter)
    requires forall i :: 0 <= i < |actions| && actions[i].SetFilter? ==> KnownFilter(actions[i].filter)
    ensures IsAllBooksSelected(Run(u, actions)) != IsPrivateBooksSelected(Run(u, actions))
    decreases |actions|
  {
    if actions != [] {
      var tail := actions[1..];
      assert forall i :: 0 <= i < |tail| ==> tail[i] == actions[i + 1];
      KnownFiltersKeepOneSelected(Apply(u, actions[0]), tail);
    }
  }
}
