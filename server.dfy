/** The issue routes (app/routes/issues.py). The list that load_data() returns and
    save_data() writes back is the repository's `stored` field; each handler works on
    a loaded copy and saves it only on success. */
module Server {
  import opened Wrappers
  import opened IssueModel

  /** The create body: title, description and the priority's value. */
  datatype IssueCreate = IssueCreate(title: string, description: string, priority: string)

  /** The update body: every field optional. */
  datatype IssueUpdate = IssueUpdate(
    title: Option<string>,
    description: Option<string>,
    priority: Option<string>,
    status: Option<string>)

  datatype HttpError = HttpError(statusCode: nat, detail: string)

  /** The error every handler raises for an unknown id. */
  const NotFound := HttpError(404, "Issue not found")

  /** The record create_issue builds: a new id and status "open". */
  function NewIssue(id: string, payload: IssueCreate): (r: Issue)
    ensures r.id == id && r.status == "open"
    ensures r.title == payload.title && r.description == payload.description && r.priority == payload.priority
  {
    Issue(id, payload.title, payload.description, payload.priority, "open")
  }

  /** Overwrite one field when the payload carries a value for it. */
  function Override(current: string, given: Option<string>): string
  {
    match given
    case Some(v) => v
    case None => current
  }

  /** update_issue's effect on the matching record: each field the payload
      carries is overwritten, the others and the id are kept. */
  function Patch(issue: Issue, payload: IssueUpdate): (r: Issue)
    ensures r.id == issue.id
    ensures r.title == (if payload.title.Some? then payload.title.value else issue.title)
    ensures r.description == (if payload.description.Some? then payload.description.value else issue.description)
    ensures r.priority == (if payload.priority.Some? then payload.priority.value else issue.priority)
    ensures r.status == (if payload.status.Some? then payload.status.value else issue.status)
  {
    Issue(issue.id,
          Override(issue.title, payload.title),
          Override(issue.description, payload.description),
          Override(issue.priority, payload.priority),
          Override(issue.status, payload.status))
  }

  /** An empty payload changes nothing; applying the same payload twice is applying it once;
      the client's edit form, which sends every field, replaces all but the id. */
  lemma PatchSpec(issue: Issue, payload: IssueUpdate)
    ensures Patch(issue, IssueUpdate(None, None, None, None)) == issue
    ensures Patch(Patch(issue, payload), payload) == Patch(issue, payload)
    ensures payload.title.Some? && payload.description.Some? && payload.priority.Some? && payload.status.Some? ==>
      Patch(issue, payload)
        == Issue(issue.id, payload.title.value, payload.description.value, payload.priority.value, payload.status.value)
  {
  }

  /** issues.pop(k) */
  function RemoveAt(s: seq<Issue>, k: nat): seq<Issue>
    requires k < |s|
  {
    s[..k] + s[k + 1..]
  }

  /** Popping drops exactly one element and keeps the others in order. */
  lemma RemoveAtSpec(s: seq<Issue>, k: nat)
    requires k < |s|
    ensures |RemoveAt(s, k)| == |s| - 1
    ensures forall j :: 0 <= j < k ==> RemoveAt(s, k)[j] == s[j]
    ensures forall j :: k <= j < |s| - 1 ==> RemoveAt(s, k)[j] == s[j + 1]
    ensures multiset(RemoveAt(s, k)) == multiset(s) - multiset{s[k]}
  {
    assert s == s[..k] + [s[k]] + s[k + 1..];
  }

  /** With unique ids, deleting the first match leaves no issue with that id. */
  lemma RemoveFirstMatchClearsId(s: seq<Issue>, id: string, k: nat)
    requires UniqueIds(s) && IsFirstMatch(s, id, k)
    ensures !HasId(RemoveAt(s, k), id)
    ensures UniqueIds(RemoveAt(s, k))
  {
  }

  class IssueRepository {
    /** The issue list as the storage layer holds it. */
    var stored: seq<Issue>

    constructor (initial: seq<Issue>)
      ensures stored == initial
    {
      stored := initial;
    }

    /** get_issues: the whole stored list. */
    method GetIssues() returns (issues: seq<Issue>)
      ensures issues == stored
    {
      issues := stored;
    }

    /** get_issue: the first issue with the id, or 404 "Issue not found". */
    method GetIssue(issueId: string) returns (r: Result<Issue, HttpError>)
      ensures r.Ok? <==> HasId(stored, issueId)
      ensures r.Ok? ==> exists k :: IsFirstMatch(stored, issueId, k) && r.value == stored[k]
      ensures r.Err? ==> r.error == NotFound
    {
      var issues := stored;
      var i := 0;
      while i < |issues|
        invariant 0 <= i <= |issues|
        invariant forall j :: 0 <= j < i ==> issues[j].id != issueId
      {
        if issues[i].id == issueId {
          assert IsFirstMatch(stored, issueId, i);
          return Ok(issues[i]);
        }
        i := i + 1;
      }
      r := Err(NotFound);
    }

    /** create_issue with the id that uuid4() would supply: one "open" record is
        appended and saved, and returned. */
    method CreateIssue(newId: string, payload: IssueCreate) returns (created: Issue)
      modifies this
      ensures created == NewIssue(newId, payload)
      ensures stored == old(stored) + [created]
      ensures UniqueIds(old(stored)) && !HasId(old(stored), newId) ==> UniqueIds(stored)
    {
      var issues := stored;
      var issue := Issue(newId, payload.title, payload.description, payload.priority, "open");
      issues := issues + [issue];
      stored := issues;
      created := issue;
    }

    /** update_issue: the first issue with the id gets the payload's non-None fields
        and the list is saved; an unknown id raises 404 and saves nothing. */
    method UpdateIssue(issueId: string, payload: IssueUpdate) returns (r: Result<Issue, HttpError>)
      modifies this
      ensures r.Ok? <==> HasId(old(stored), issueId)
      ensures r.Ok? ==> exists k :: && IsFirstMatch(old(stored), issueId, k)
                                  && r.value == Patch(old(stored)[k], payload)
                                  && stored == old(stored)[k := r.value]
      ensures r.Err? ==> r.error == NotFound && stored == old(stored)
    {
      var issues := stored;
      var i := 0;
      while i < |issues|
        invariant 0 <= i <= |issues|
        invariant issues == stored == old(stored)
        invariant forall j :: 0 <= j < i ==> issues[j].id != issueId
      {
        if issues[i].id == issueId {
          var issue := issues[i];
          if payload.title.Some? {
            issue := issue.(title := payload.title.value);
          }
          if payload.description.Some? {
            issue := issue.(description := payload.description.value);
          }
          if payload.priority.Some? {
            issue := issue.(priority := payload.priority.value);
          }
          if payload.status.Some? {
            issue := issue.(status := payload.status.value);
          }
          issues := issues[i := issue];
          stored := issues;
          assert IsFirstMatch(old(stored), issueId, i);
          return Ok(issue);
        }
        i := i + 1;
      }
      r := Err(NotFound);
    }

    /** delete_issue: the first issue with the id is popped and the list saved;
        an unknown id raises 404 and leaves the list as it was. */
    method DeleteIssue(issueId: string) returns (r: Result<(), HttpError>)
      modifies this
      ensures r.Ok? <==> HasId(old(stored), issueId)
      ensures r.Ok? ==> exists k: nat :: IsFirstMatch(old(stored), issueId, k) && stored == RemoveAt(old(stored), k)
      ensures r.Err? ==> r.error == NotFound && stored == old(stored)
    {
      var issues := stored;
      var i := 0;
      while i < |issues|
        invariant 0 <= i <= |issues|
        invariant issues == stored == old(stored)
        invariant forall j :: 0 <= j < i ==> issues[j].id != issueId
      {
        if issues[i].id == issueId {
          issues := issues[..i] + issues[i + 1..];
          stored := issues;
          assert IsFirstMatch(old(stored), issueId, i);
          return Ok(());
        }
        i := i + 1;
      }
      r := Err(NotFound);
    }
  }
}
