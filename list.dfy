/**
 * The `list` command (cmd/list.go): filter by category, then show the
 * secrets ten to a page and let the user page through them.
 *
 * When standard input ends, `scanner.Scan()` keeps failing, no branch of the
 * navigation switch runs and the loop redraws the same page forever.
 * `Navigate` models the step as written and `NavigateFixed` the step that
 * quits at end of input.
 */
module ListCmd {
  import opened Base
  import opened Vault

  const SecretsPerPage := 10
  const MaxNameLen := 20
  const MaxCategoryLen := 20
  const Ellipsis := Lit("...")

  /** `truncateString(s, maxLen)`; a `maxLen` below 3 would make the slice panic. */
  function TruncateString(s: GoString, maxLen: int): (r: GoString)
    requires maxLen >= 3
    ensures |s| <= maxLen ==> r == s
    ensures |s| > maxLen ==> |r| == maxLen && r[..maxLen - 3] == s[..maxLen - 3] && r[maxLen - 3..] == Ellipsis
    ensures |r| <= maxLen
  {
    if |s| > maxLen then
      var r := s[..maxLen - 3] + Ellipsis;
      assert r[..maxLen - 3] == s[..maxLen - 3];
      r
    else s
  }

  /** The secrets the filter keeps, in order: all of them for the empty category. */
  function InCategory(secrets: seq<Secret>, category: GoString): (r: seq<Secret>)
    ensures |r| <= |secrets|
    ensures category != [] ==> forall i :: 0 <= i < |r| ==> r[i].category == category
  {
    if |secrets| == 0 then []
    else
      var kept := InCategory(secrets[..|secrets| - 1], category);
      var last := secrets[|secrets| - 1];
      if category == [] || last.category == category then kept + [last] else kept
  }

  /** The filter loop at list.go:72-77. */
  method FilterByCategory(secrets: seq<Secret>, category: GoString) returns (filtered: seq<Secret>)
    ensures filtered == InCategory(secrets, category)
  {
    filtered := [];
    for i := 0 to |secrets|
      invariant filtered == InCategory(secrets[..i], category)
    {
      assert secrets[..i + 1][..i] == secrets[..i];
      if category == [] || secrets[i].category == category {
        filtered := filtered + [secrets[i]];
      }
    }
    assert secrets[..|secrets|] == secrets;
  }

  /** The empty category keeps every secret. */
  lemma {:induction false} EmptyCategoryKeepsAll(secrets: seq<Secret>)
    ensures InCategory(secrets, []) == secrets
  {
    if |secrets| > 0 {
      EmptyCategoryKeepsAll(secrets[..|secrets| - 1]);
      assert secrets[..|secrets| - 1] + [secrets[|secrets| - 1]] == secrets;
    }
  }

  /** A secret is listed exactly when it is in the store and in the category. */
  lemma {:induction false} InCategoryMembers(secrets: seq<Secret>, category: GoString, x: Secret)
    ensures x in InCategory(secrets, category) <==> x in secrets && (category == [] || x.category == category)
  {
    if |secrets| > 0 {
      var init := secrets[..|secrets| - 1];
      InCategoryMembers(init, category, x);
      assert secrets == init + [secrets[|secrets| - 1]];
    }
  }

  /** The filter keeps every copy of every secret in the category. */
  lemma {:induction false} InCategoryCounts(secrets: seq<Secret>, category: GoString, x: Secret)
    requires category == [] || x.category == category
    ensures multiset(InCategory(secrets, category))[x] == multiset(secrets)[x]
  {
    if |secrets| > 0 {
      var init := secrets[..|secrets| - 1];
      InCategoryCounts(init, category, x);
      assert secrets == init + [secrets[|secrets| - 1]];
    }
  }

  /** `(n + SecretsPerPage - 1) / SecretsPerPage`: the least number of pages that hold n rows. */
  function TotalPages(n: nat): (pages: nat)
    ensures pages * SecretsPerPage >= n
    ensures pages > 0 ==> (pages - 1) * SecretsPerPage < n
    ensures pages == 0 <==> n == 0
  {
    (n + SecretsPerPage - 1) / SecretsPerPage
  }

  /** A row of the table: the 1-based index, and the truncated name and category. */
  datatype Row = Row(number: nat, name: GoString, category: GoString)

  function RowOf(secrets: seq<Secret>, k: nat): (r: Row)
    requires k < |secrets|
    ensures r.number == k + 1
    ensures |r.name| <= MaxNameLen && |r.category| <= MaxCategoryLen
    ensures |secrets[k].name| <= MaxNameLen ==> r.name == secrets[k].name
    ensures |secrets[k].category| <= MaxCategoryLen ==> r.category == secrets[k].category
  {
    Row(k + 1, TruncateString(secrets[k].name, MaxNameLen), TruncateString(secrets[k].category, MaxCategoryLen))
  }

  /** The rows `displaySecretsPage` prints for `page`. */
  function PageRows(secrets: seq<Secret>, page: nat): (rows: seq<Row>)
    requires page < TotalPages(|secrets|)
    ensures var start := page * SecretsPerPage;
            var end := if start + SecretsPerPage > |secrets| then |secrets| else start + SecretsPerPage;
            |rows| == end - start && forall i :: 0 <= i < |rows| ==> rows[i] == RowOf(secrets, start + i)
  {
    var start := page * SecretsPerPage;
    var end := if start + SecretsPerPage > |secrets| then |secrets| else start + SecretsPerPage;
    seq(end - start, i requires 0 <= i < end - start => RowOf(secrets, start + i))
  }

  /** Every listed secret appears once, on page k / 10 at row k % 10, numbered k + 1. */
  lemma PagesCoverAll(secrets: seq<Secret>, k: nat)
    requires k < |secrets|
    ensures k / SecretsPerPage < TotalPages(|secrets|)
    ensures var rows := PageRows(secrets, k / SecretsPerPage);
            k % SecretsPerPage < |rows| && rows[k % SecretsPerPage] == RowOf(secrets, k)
            && rows[k % SecretsPerPage].number == k + 1
    ensures forall page: nat, i ::
              (page < TotalPages(|secrets|) && 0 <= i < |PageRows(secrets, page)| && PageRows(secrets, page)[i].number == k + 1)
              ==> page == k / SecretsPerPage && i == k % SecretsPerPage
  {
    var page := k / SecretsPerPage;
    assert page * SecretsPerPage + k % SecretsPerPage == k;
    forall p: nat, i | p < TotalPages(|secrets|) && 0 <= i < |PageRows(secrets, p)| && PageRows(secrets, p)[i].number == k + 1
      ensures p == page && i == k % SecretsPerPage
    {
      assert p * SecretsPerPage + i == k;
    }
  }

  /** A line read by the navigation prompt, after `strings.ToLower(strings.TrimSpace(...))`. */
  datatype Line = Typed(text: GoString) | EndOfInput

  datatype NavStep = Stay(page: nat) | Quit

  /** One round of the navigation loop, as written: at end of input nothing happens. */
  function Navigate(page: nat, totalPages: nat, line: Line): (r: NavStep)
    requires page < totalPages
    ensures r.Stay? ==> r.page < totalPages
    ensures r == Quit <==> line == Typed(Lit("q"))
    ensures line == EndOfInput ==> r == Stay(page)
  {
    assert Lit("n")[0] != Lit("q")[0] && Lit("p")[0] != Lit("q")[0];
    match line
    case EndOfInput => Stay(page)
    case Typed(input) =>
      if input == Lit("n") then Stay(if page < totalPages - 1 then page + 1 else page)
      else if input == Lit("p") then Stay(if page > 0 then page - 1 else page)
      else if input == Lit("q") then Quit
      else Stay(page)
  }

  /** The pages displayed, and whether the loop ended (quit, or one page only). */
  datatype Trace = Trace(shown: seq<nat>, finished: bool)

  /** The navigation loop from `page`, consuming `lines` one per redisplay. */
  function Session(page: nat, totalPages: nat, lines: seq<Line>): (t: Trace)
    requires page < totalPages
    ensures |t.shown| > 0 && t.shown[0] == page
    ensures forall i :: 0 <= i < |t.shown| ==> t.shown[i] < totalPages
    decreases |lines|
  {
    if totalPages <= 1 then Trace([page], true)
    else if |lines| == 0 then Trace([page], false)
    else match Navigate(page, totalPages, lines[0])
      case Quit => Trace([page], true)
      case Stay(next) =>
        var rest := Session(next, totalPages, lines[1..]);
        Trace([page] + rest.shown, rest.finished)
  }

  /** One round of Session that stays: the page is shown, then the session goes on from the next page. */
  lemma SessionStays(page: nat, totalPages: nat, lines: seq<Line>)
    requires page < totalPages && totalPages > 1 && |lines| > 0
    requires Navigate(page, totalPages, lines[0]).Stay?
    ensures var rest := Session(Navigate(page, totalPages, lines[0]).page, totalPages, lines[1..]);
            Session(page, totalPages, lines) == Trace([page] + rest.shown, rest.finished)
  {
  }

  /** The `for` loop at list.go:94-121, for the filtered list. */
  method Browse(totalPages: nat, lines: seq<Line>) returns (shown: seq<nat>, finished: bool)
    requires totalPages > 0
    ensures Trace(shown, finished) == Session(0, totalPages, lines)
  {
    var currentPage: nat := 0;
    var k := 0;
    shown := [];
    while true
      invariant 0 <= k <= |lines| && currentPage < totalPages
      invariant Session(0, totalPages, lines) ==
                Trace(shown + Session(currentPage, totalPages, lines[k..]).shown,
                      Session(currentPage, totalPages, lines[k..]).finished)
      decreases |lines| - k
    {
      if totalPages <= 1 {
        return shown + [currentPage], true;
      }
      if k == |lines| {
        return shown + [currentPage], false;
      }
      var step := Navigate(currentPage, totalPages, lines[k]);
      if step == Quit {
        return shown + [currentPage], true;
      }
      SessionStays(currentPage, totalPages, lines[k..]);
      assert lines[k..][1..] == lines[k + 1..];
      var rest := Session(step.page, totalPages, lines[k + 1..]);
      assert shown + ([currentPage] + rest.shown) == (shown + [currentPage]) + rest.shown;
      shown := shown + [currentPage];
      currentPage := step.page;
      k := k + 1;
    }
  }

  /** As written, end of input never ends the session: the same page is redrawn again and again. */
  lemma {:induction false} EndOfInputSpins(page: nat, totalPages: nat, lines: seq<Line>)
    requires page < totalPages && totalPages > 1
    requires forall i :: 0 <= i < |lines| ==> lines[i] == EndOfInput
    ensures Session(page, totalPages, lines) == Trace(seq(|lines| + 1, _ => page), false)
  {
    if |lines| > 0 {
      EndOfInputSpins(page, totalPages, lines[1..]);
    }
  }

  /** The navigation step with end of input treated as quit. */
  function NavigateFixed(page: nat, totalPages: nat, line: Line): (r: NavStep)
    requires page < totalPages
    ensures r.Stay? ==> r.page < totalPages
    ensures r == Quit <==> line == Typed(Lit("q")) || line == EndOfInput
    ensures line != EndOfInput ==> r == Navigate(page, totalPages, line)
  {
    if line == EndOfInput then Quit else Navigate(page, totalPages, line)
  }

  /** What `listCmd.Run` does after LoadStore: nothing to list, or the pages of the filtered secrets. */
  datatype ListOutcome = ListLoadAborted(error: LoadError) | NoSecretsFound | Pages(filtered: seq<Secret>, totalPages: nat)

  method ListRun(loaded: Result<Store, LoadError>, category: GoString) returns (o: ListOutcome)
    ensures loaded.Err? ==> o == ListLoadAborted(loaded.error)
    ensures loaded.Ok? ==>
              var filtered := InCategory(loaded.value.secrets, category);
              o == if |filtered| == 0 then NoSecretsFound else Pages(filtered, TotalPages(|filtered|))
    ensures o.Pages? ==> o.totalPages > 0
  {
    if loaded.Err? {
      return ListLoadAborted(loaded.error);
    }
    var filtered := FilterByCategory(loaded.value.secrets, category);
    if |filtered| == 0 {
      return NoSecretsFound;
    }
    return Pages(filtered, TotalPages(|filtered|));
  }
}
