/** The browser client (app/static/js/app.js): the in-memory issue store and the
    updates it receives after successful API calls, the rendered view, the summary
    counts, the filter/search derivation and the forms' required-field check. */
module Client {
  import opened Wrappers
  import opened Seqs
  import opened Text
  import opened Format
  import opened IssueModel

  // ---------------------------------------------------------------- rendering

  /** issue.id.substring(0, 8): the first eight characters, or the whole id if shorter. */
  function ShortId(id: string): (r: string)
  {
    if |id| <= 8 then id else id[..8]
  }

  /** One rendered issue row: the visible texts and the id its edit/delete buttons carry. */
  datatype Row = Row(
    shortId: string,
    titleHtml: string,
    descriptionHtml: string,
    statusClass: string,
    statusLabel: string,
    priorityClass: string,
    priorityLabel: string,
    actionId: string)

  /** What renderIssues puts in the list container. */
  datatype View = NoIssuesFound | IssueRows(rows: seq<Row>)

  function RenderRow(issue: Issue): Row
  {
    Row(ShortId(issue.id), EscapeHtml(issue.title), EscapeHtml(issue.description),
        issue.status, FormatLabel(issue.status), issue.priority, FormatLabel(issue.priority), issue.id)
  }

  /** renderIssues: the empty-state placeholder, or one row per issue in order. */
  function Render(issues: seq<Issue>): View
  {
    if issues == [] then NoIssuesFound
    else IssueRows(seq(|issues|, k requires 0 <= k < |issues| => RenderRow(issues[k])))
  }

  /** The placeholder is shown exactly for an empty list; otherwise row `k` shows
      issue `k`: an id prefix of at most eight characters, title and description
      escaped so that they carry no markup and decode back to the original text,
      the status and priority badges, and the id the buttons act on. */
  lemma RenderSpec(issues: seq<Issue>, k: int)
    requires 0 <= k < |issues|
    ensures Render(issues).IssueRows? && |Render(issues).rows| == |issues|
    ensures Render([]) == NoIssuesFound
    ensures var row := Render(issues).rows[k];
      && |row.shortId| == (if |issues[k].id| < 8 then |issues[k].id| else 8)
      && row.shortId <= issues[k].id
      && row.actionId == issues[k].id
      && row.statusClass == issues[k].status && row.statusLabel == FormatLabel(issues[k].status)
      && row.priorityClass == issues[k].priority && row.priorityLabel == FormatLabel(issues[k].priority)
      && row.titleHtml == EscapeHtml(issues[k].title)
      && row.descriptionHtml == EscapeHtml(issues[k].description)
      && FreeOfMarkup(row.titleHtml) && NoBareAmpersand(row.titleHtml)
      && UnescapeHtml(row.titleHtml) == issues[k].title
      && FreeOfMarkup(row.descriptionHtml) && NoBareAmpersand(row.descriptionHtml)
      && UnescapeHtml(row.descriptionHtml) == issues[k].description
  {
    UnescapeEscape(issues[k].title);
    UnescapeEscape(issues[k].description);
    EscapeHtmlNoBareAmpersand(issues[k].title);
    EscapeHtmlNoBareAmpersand(issues[k].description);
  }

  // ---------------------------------------------------------------- statistics

  /** The three statuses the summary counts. */
  predicate IsCountedStatus(status: string)
  {
    status == "open" || status == "in_progress" || status == "closed"
  }

  function HasStatus(status: string): Issue -> bool
  {
    (i: Issue) => i.status == status
  }

  /** The status of every issue, in store order. */
  function Statuses(s: seq<Issue>): seq<string>
  {
    seq(|s|, k requires 0 <= k < |s| => s[k].status)
  }

  /** allIssues.filter(i => i.status === status).length: the number of issues whose
      status is `status`. */
  function StatusCount(s: seq<Issue>, status: string): (n: nat)
    ensures n == multiset(Statuses(s))[status]
  {
    FilterCountsStatus(s, status);
    |Filter(s, HasStatus(status))|
  }

  lemma {:induction false} FilterCountsStatus(s: seq<Issue>, status: string)
    ensures |Filter(s, HasStatus(status))| == multiset(Statuses(s))[status]
    decreases |s|
  {
    if s != [] {
      FilterCountsStatus(s[1..], status);
      assert Statuses(s) == [s[0].status] + Statuses(s[1..]);
    }
  }

  datatype Stats = Stats(open: nat, inProgress: nat, closed: nat, total: nat)

  /** updateStats: each count is the number of issues with that status; the three
      counts never exceed the total, and add up to it exactly when every issue has
      one of the three counted statuses. */
  function ComputeStats(s: seq<Issue>): (st: Stats)
    ensures st.total == |s|
    ensures st.open == multiset(Statuses(s))["open"]
    ensures st.inProgress == multiset(Statuses(s))["in_progress"]
    ensures st.closed == multiset(Statuses(s))["closed"]
    ensures st.open + st.inProgress + st.closed <= st.total
    ensures st.open + st.inProgress + st.closed == st.total <==> AllCounted(s)
  {
    StatusCountsSum(s);
    Stats(StatusCount(s, "open"), StatusCount(s, "in_progress"), StatusCount(s, "closed"), |s|)
  }

  lemma StatusCountStep(s: seq<Issue>, status: string)
    requires s != []
    ensures StatusCount(s, status) == (if s[0].status == status then 1 else 0) + StatusCount(s[1..], status)
  {
  }

  lemma {:induction false} StatusCountsSum(s: seq<Issue>)
    ensures var sum := StatusCount(s, "open") + StatusCount(s, "in_progress") + StatusCount(s, "closed");
      && sum <= |s|
      && (sum == |s| <==> AllCounted(s))
    decreases |s|
  {
    if s != [] {
      StatusCountsSum(s[1..]);
      StatusCountStep(s, "open");
      StatusCountStep(s, "in_progress");
      StatusCountStep(s, "closed");
      AllCountedCons(s);
    }
  }

  /** Every issue has one of the three counted statuses. */
  ghost predicate AllCounted(s: seq<Issue>)
  {
    forall k :: 0 <= k < |s| ==> IsCountedStatus(s[k].status)
  }

  lemma AllCountedCons(s: seq<Issue>)
    requires s != []
    ensures AllCounted(s) <==> IsCountedStatus(s[0].status) && AllCounted(s[1..])
  {
    assert forall k :: 1 <= k < |s| ==> s[k] == s[1..][k - 1];
  }

  // ---------------------------------------------------------------- lookup and store updates

  /** allIssues.find(i => i.id === issueId), as openEditModal uses it: the element
      at the index findIndex would give. */
  function Find(s: seq<Issue>, id: string): (r: Option<Issue>)
    ensures r.None? <==> !HasId(s, id)
    ensures r.Some? ==> exists k :: IsFirstMatch(s, id, k) && r.value == s[k]
  {
    match FirstIndexOf(s, id)
    case None => None
    case Some(k) => Some(s[k])
  }

  /** The store after a successful update: the first issue with the id is replaced. */
  function ReplaceFirst(s: seq<Issue>, id: string, updated: Issue): seq<Issue>
  {
    match FirstIndexOf(s, id)
    case None => s
    case Some(k) => s[k := updated]
  }

  /** Only the element at the first matching index changes; nothing changes when no id matches. */
  lemma ReplaceFirstSpec(s: seq<Issue>, id: string, updated: Issue)
    ensures |ReplaceFirst(s, id, updated)| == |s|
    ensures !HasId(s, id) ==> ReplaceFirst(s, id, updated) == s
    ensures forall k :: IsFirstMatch(s, id, k) ==>
      && ReplaceFirst(s, id, updated)[k] == updated
      && forall j :: 0 <= j < |s| && j != k ==> ReplaceFirst(s, id, updated)[j] == s[j]
  {
  }

  /** Replacing an issue by the server's copy with the same id keeps ids unique. */
  lemma ReplaceFirstKeepsUniqueIds(s: seq<Issue>, id: string, updated: Issue)
    requires UniqueIds(s) && updated.id == id
    ensures UniqueIds(ReplaceFirst(s, id, updated))
  {
  }

  function IdDiffers(id: string): Issue -> bool
  {
    (i: Issue) => i.id != id
  }

  /** allIssues.filter(i => i.id !== issueId) */
  function WithoutId(s: seq<Issue>, id: string): seq<Issue>
  {
    Filter(s, IdDiffers(id))
  }

  /** After delete no issue with the id is left, every other issue is kept as often
      as it occurred, and the survivors keep their relative order. */
  lemma WithoutIdSpec(s: seq<Issue>, id: string)
    ensures !HasId(WithoutId(s, id), id)
    ensures forall x: Issue :: multiset(WithoutId(s, id))[x] == if x.id != id then multiset(s)[x] else 0
    ensures IsSubsequence(WithoutId(s, id), s)
  {
    FilterIsSubsequence(s, IdDiffers(id));
    forall x: Issue ensures multiset(WithoutId(s, id))[x] == if x.id != id then multiset(s)[x] else 0 {
      FilterMultiplicity(s, IdDiffers(id), x);
    }
  }

  /** With unique ids the client's delete removes exactly the element the server pops. */
  lemma WithoutIdRemovesFirstMatch(s: seq<Issue>, id: string, k: int)
    requires UniqueIds(s) && IsFirstMatch(s, id, k)
    ensures WithoutId(s, id) == s[..k] + s[k + 1..]
  {
    assert forall j :: 0 <= j < |s| && j != k ==> s[j].id != s[k].id;
    FilterDropsOnly(s, IdDiffers(id), k);
  }

  /** The page-lifetime store `allIssues`. Each method is the store update that
      follows a successful response, followed by updateStats() and renderIssues(allIssues). */
  class IssueStore {
    var allIssues: seq<Issue>

    constructor ()
      ensures allIssues == []
    {
      allIssues := [];
    }

    /** fetchIssues: the fetched list replaces the store. */
    method Loaded(fetched: seq<Issue>) returns (stats: Stats, view: View)
      modifies this
      ensures allIssues == fetched
      ensures stats == ComputeStats(allIssues) && view == Render(allIssues)
    {
      allIssues := fetched;
      stats := ComputeStats(allIssues);
      view := Render(allIssues);
    }

    /** createIssue: the server's record is pushed on the end. */
    method Created(newIssue: Issue) returns (stats: Stats, view: View)
      modifies this
      ensures allIssues == old(allIssues) + [newIssue]
      ensures stats == ComputeStats(allIssues) && view == Render(allIssues)
    {
      allIssues := allIssues + [newIssue];
      stats := ComputeStats(allIssues);
      view := Render(allIssues);
    }

    /** updateIssue: the first issue with the id is replaced by the server's record. */
    method Updated(issueId: string, updatedIssue: Issue) returns (stats: Stats, view: View)
      modifies this
      ensures allIssues == ReplaceFirst(old(allIssues), issueId, updatedIssue)
      ensures stats == ComputeStats(allIssues) && view == Render(allIssues)
    {
      var index := FirstIndexOf(allIssues, issueId);
      if index.Some? {
        allIssues := allIssues[index.value := updatedIssue];
      }
      stats := ComputeStats(allIssues);
      view := Render(allIssues);
    }

    /** deleteIssue: every issue with the id is dropped. */
    method Deleted(issueId: string) returns (stats: Stats, view: View)
      modifies this
      ensures allIssues == WithoutId(old(allIssues), issueId)
      ensures stats == ComputeStats(allIssues) && view == Render(allIssues)
    {
      allIssues := Filter(allIssues, (i: Issue) => i.id != issueId);
      assert allIssues == WithoutId(old(allIssues), issueId) by {
        FilterCongruent(old(allIssues), (i: Issue) => i.id != issueId, IdDiffers(issueId));
      }
      stats := ComputeStats(allIssues);
      view := Render(allIssues);
    }
  }

  // ---------------------------------------------------------------- filtering

  /** The status select filters only when it holds a value other than "all". */
  predicate StatusPasses(i: Issue, statusFilter: string)
  {
    statusFilter == "" || statusFilter == "all" || i.status == statusFilter
  }

  predicate PriorityPasses(i: Issue, priorityFilter: string)
  {
    priorityFilter == "" || priorityFilter == "all" || i.priority == priorityFilter
  }

  /** The search box's value, lower-cased and then trimmed. */
  function SearchTerm(searchInput: string): string
  {
    Trim(ToLower(searchInput))
  }

  /** The search step is skipped exactly when the box holds only white space. */
  lemma SearchTermEmpty(searchInput: string)
    ensures SearchTerm(searchInput) == [] <==> AllSpace(searchInput)
  {
    ToLowerSpec(searchInput);
    assert AllSpace(ToLower(searchInput)) <==> AllSpace(searchInput);
  }

  /** The term occurs, ignoring ASCII case, in the title or the description. */
  predicate MatchesSearch(i: Issue, term: string)
  {
    Contains(ToLower(i.title), term) || Contains(ToLower(i.description), term)
  }

  predicate SearchPasses(i: Issue, term: string)
  {
    term == "" || MatchesSearch(i, term)
  }

  /** An issue the view shows under the given filter values and search term. */
  predicate Selected(i: Issue, statusFilter: string, priorityFilter: string, term: string)
  {
    StatusPasses(i, statusFilter) && PriorityPasses(i, priorityFilter) && SearchPasses(i, term)
  }

  function SelectedBy(statusFilter: string, priorityFilter: string, term: string): Issue -> bool
  {
    (i: Issue) => Selected(i, statusFilter, priorityFilter, term)
  }

  /** The filtered view, specified in one pass over the store. */
  function Selection(s: seq<Issue>, statusFilter: string, priorityFilter: string, term: string): seq<Issue>
  {
    Filter(s, SelectedBy(statusFilter, priorityFilter, term))
  }

  /** applyFilters: status, then priority, then search, each narrowing `filtered`;
      the result is the one-pass selection over the store. */
  method ApplyFilters(allIssues: seq<Issue>, statusFilter: string, priorityFilter: string, searchInput: string)
    returns (filtered: seq<Issue>)
    ensures filtered == Selection(allIssues, statusFilter, priorityFilter, SearchTerm(searchInput))
  {
    filtered := allIssues;
    var searchTerm := Trim(ToLower(searchInput));

    ghost var byStatus := (i: Issue) => StatusPasses(i, statusFilter);
    ghost var byStatusPriority := (i: Issue) => StatusPasses(i, statusFilter) && PriorityPasses(i, priorityFilter);
    ghost var all := SelectedBy(statusFilter, priorityFilter, searchTerm);

    if statusFilter != "" && statusFilter != "all" {
      filtered := Filter(filtered, (i: Issue) => i.status == statusFilter);
      FilterCongruent(allIssues, (i: Issue) => i.status == statusFilter, byStatus);
    } else {
      FilterKeepsAll(allIssues, byStatus);
    }
    assert filtered == Filter(allIssues, byStatus);

    if priorityFilter != "" && priorityFilter != "all" {
      filtered := Filter(filtered, (i: Issue) => i.priority == priorityFilter);
      FilterFusion(allIssues, byStatus, (i: Issue) => i.priority == priorityFilter, byStatusPriority);
    } else {
      FilterCongruent(allIssues, byStatus, byStatusPriority);
    }
    assert filtered == Filter(allIssues, byStatusPriority);

    if searchTerm != "" {
      filtered := Filter(filtered, (i: Issue) =>
        Contains(ToLower(i.title), searchTerm) || Contains(ToLower(i.description), searchTerm));
      FilterFusion(allIssues, byStatusPriority, (i: Issue) =>
        Contains(ToLower(i.title), searchTerm) || Contains(ToLower(i.description), searchTerm), all);
    } else {
      FilterCongruent(allIssues, byStatusPriority, all);
    }
  }

  /** The view is an order-preserving subsequence of the store, holding exactly the
      store's issues that pass every active filter, each as often as in the store. */
  lemma SelectionSpec(s: seq<Issue>, statusFilter: string, priorityFilter: string, term: string)
    ensures IsSubsequence(Selection(s, statusFilter, priorityFilter, term), s)
    ensures forall x ::
      (x in Selection(s, statusFilter, priorityFilter, term) <==> x in s && Selected(x, statusFilter, priorityFilter, term))
    ensures forall x ::
      multiset(Selection(s, statusFilter, priorityFilter, term))[x]
      == (if Selected(x, statusFilter, priorityFilter, term) then multiset(s)[x] else 0)
  {
    var p := SelectedBy(statusFilter, priorityFilter, term);
    FilterIsSubsequence(s, p);
    FilterMembers(s, p);
    forall x ensures multiset(Filter(s, p))[x] == if p(x) then multiset(s)[x] else 0 {
      FilterMultiplicity(s, p, x);
    }
  }

  /** Every issue shown has the selected status and priority (when those filters are
      active) and, for a non-empty term, the term inside its lower-cased title or description. */
  lemma SelectionElements(s: seq<Issue>, statusFilter: string, priorityFilter: string, term: string, k: int)
    requires 0 <= k < |Selection(s, statusFilter, priorityFilter, term)|
    ensures var x := Selection(s, statusFilter, priorityFilter, term)[k];
      && x in s
      && (statusFilter != "" && statusFilter != "all" ==> x.status == statusFilter)
      && (priorityFilter != "" && priorityFilter != "all" ==> x.priority == priorityFilter)
      && (term != "" ==>
            (exists j :: OccursAt(term, ToLower(x.title), j)) || (exists j :: OccursAt(term, ToLower(x.description), j)))
  {
    FilterMembers(s, SelectedBy(statusFilter, priorityFilter, term));
  }

  /** With both selects on "all" and a blank search box the view is the whole store. */
  lemma {:induction false} SelectionNoFilters(s: seq<Issue>, searchInput: string)
    requires AllSpace(searchInput)
    ensures Selection(s, "all", "all", SearchTerm(searchInput)) == s
  {
    assert AllSpace(ToLower(searchInput));
    FilterKeepsAll(s, SelectedBy("all", "all", SearchTerm(searchInput)));
  }

  /** A non-blank term that no lower-cased title or description contains shows nothing. */
  lemma {:induction false} SelectionSearchMiss(s: seq<Issue>, statusFilter: string, priorityFilter: string, term: string)
    requires term != []
    requires forall x :: x in s ==> !MatchesSearch(x, term)
    ensures Selection(s, statusFilter, priorityFilter, term) == []
  {
    FilterKeepsNone(s, SelectedBy(statusFilter, priorityFilter, term));
  }

  /** After a create, update or delete the code renders the whole store, so an active
      filter that hides some stored issue is not reflected in what is shown. */
  lemma {:induction false} MutationViewIgnoresFilters(s: seq<Issue>, statusFilter: string, priorityFilter: string, term: string, x: Issue)
    requires x in s && !Selected(x, statusFilter, priorityFilter, term)
    ensures Render(s) != Render(Selection(s, statusFilter, priorityFilter, term))
  {
    var sel := Selection(s, statusFilter, priorityFilter, term);
    FilterDropsSome(s, SelectedBy(statusFilter, priorityFilter, term), x);
    if sel != [] {
      assert |Render(sel).rows| == |sel| < |s| == |Render(s).rows|;
    }
  }

  // ---------------------------------------------------------------- forms

  const RequiredFieldsMessage := "Please fill in all required fields."

  /** The body createIssue sends. */
  datatype CreatePayload = CreatePayload(title: string, description: string, priority: string)

  /** The body updateIssue sends, with the id it is sent to. */
  datatype UpdateSubmission = UpdateSubmission(issueId: string, title: string, description: string, priority: string, status: string)

  /** A value the form accepts: non-empty, the input with surrounding white space removed. */
  ghost predicate IsTrimmedValue(value: string, input: string)
  {
    && value != []
    && !IsSpace(value[0]) && !IsSpace(value[|value| - 1])
    && exists i :: IsTrimmedSlice(value, input, i)
  }

  /** The create form's submit handler: refused with the required-fields message when
      the title or the description is blank, otherwise the trimmed payload. */
  function SubmitCreateForm(titleInput: string, descriptionInput: string, priority: string): (r: Result<CreatePayload, string>)
    ensures r.Err? <==> AllSpace(titleInput) || AllSpace(descriptionInput)
    ensures r.Err? ==> r.error == RequiredFieldsMessage
    ensures r.Ok? ==> && IsTrimmedValue(r.value.title, titleInput)
                      && IsTrimmedValue(r.value.description, descriptionInput)
                      && r.value.priority == priority
  {
    var title := Trim(titleInput);
    var description := Trim(descriptionInput);
    if title == [] || description == [] then Err(RequiredFieldsMessage)
    else Ok(CreatePayload(title, description, priority))
  }

  /** The edit form's submit handler, with the same required-field check. */
  function SubmitEditForm(issueId: string, titleInput: string, descriptionInput: string, priority: string, status: string)
    : (r: Result<UpdateSubmission, string>)
    ensures r.Err? <==> AllSpace(titleInput) || AllSpace(descriptionInput)
    ensures r.Err? ==> r.error == RequiredFieldsMessage
    ensures r.Ok? ==> && IsTrimmedValue(r.value.title, titleInput)
                      && IsTrimmedValue(r.value.description, descriptionInput)
                      && r.value.issueId == issueId && r.value.priority == priority && r.value.status == status
  {
    var title := Trim(titleInput);
    var description := Trim(descriptionInput);
    if title == [] || description == [] then Err(RequiredFieldsMessage)
    else Ok(UpdateSubmission(issueId, title, description, priority, status))
  }
}
