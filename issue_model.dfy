/** The issue record shared by the client store and the server's list, and
    first-match lookup by id (Array.prototype.findIndex, and the handlers' loops). */
module IssueModel {
  import opened Wrappers

  /** An issue as both sides hold it: every field is a string. */
  datatype Issue = Issue(id: string, title: string, description: string, priority: string, status: string)

  ghost predicate HasId(s: seq<Issue>, id: string)
  {
    exists k :: 0 <= k < |s| && s[k].id == id
  }

  /** `k` is the first position of `s` whose issue has id `id`. */
  ghost predicate IsFirstMatch(s: seq<Issue>, id: string, k: int)
  {
    0 <= k < |s| && s[k].id == id && forall j :: 0 <= j < k ==> s[j].id != id
  }

  /** No two positions hold issues with the same id. */
  ghost predicate UniqueIds(s: seq<Issue>)
  {
    forall i, j :: 0 <= i < j < |s| ==> s[i].id != s[j].id
  }

  /** The position of the first issue with id `id`, or None when there is none. */
  function FirstIndexOf(s: seq<Issue>, id: string): (r: Option<nat>)
    ensures r.Some? ==> IsFirstMatch(s, id, r.value)
    ensures r.None? <==> !HasId(s, id)
    decreases |s|
  {
    if s == [] then None
    else if s[0].id == id then Some(0)
    else
      match FirstIndexOf(s[1..], id)
      case None =>
        assert forall k :: 1 <= k < |s| ==> s[k] == s[1..][k - 1];
        None
      case Some(k) =>
        assert s[k + 1] == s[1..][k];
        Some(k + 1)
  }

  /** The first match is unique, so FirstIndexOf is the only index with that property. */
  lemma FirstMatchUnique(s: seq<Issue>, id: string, k: int)
    requires IsFirstMatch(s, id, k)
    ensures FirstIndexOf(s, id) == Some(k)
  {
  }
}
