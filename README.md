# Issue tracker: client store, view derivation and server list handlers

This project models the two pieces of in-memory logic of a small issue tracker
(a FastAPI backend with a single-page JavaScript client) and proves properties of them.

- **The browser client** (`app/static/js/app.js`). The page keeps every issue in a global
  array `allIssues` of records `{id, title, description, priority, status}`. After a
  successful API response the array is changed: loading replaces it, creating pushes the
  server's record, updating replaces the first record with the id, and deleting drops every
  record with the id. Then the summary counts are recomputed and the list is rendered.
  From this store the client derives the rendered rows, the summary counts, the
  status/priority/search filter view and the record the edit dialog is filled from. It also
  checks that the two form fields are filled in. `escapeHtml` and `formatLabel` prepare
  text for display.
- **The server routes** (`app/routes/issues.py`). Each handler loads the stored list.
  `get_issues` returns it. `create_issue` appends a new record and saves. `get_issue`,
  `update_issue` and `delete_issue` loop to the first issue with the id and answer 404
  `"Issue not found"` when there is none. `update_issue` and `delete_issue` change that
  issue and save; `get_issue` only returns it.

Modules:

| module | file | contents |
|---|---|---|
| `Wrappers` | `wrappers.dfy` | `Option`, `Result` |
| `Seqs` | `seqs.dfy` | `Filter` (the model of `Array.prototype.filter`), the subsequence relation, lemmas about filtering |
| `Text` | `text.dfy` | `trim`, ASCII `toLowerCase`, `includes` |
| `Format` | `format.dfy` | `escapeHtml` with its decoding inverse, `formatLabel` |
| `IssueModel` | `issue_model.dfy` | the issue record, first match by id (`findIndex`), unique ids |
| `Client` | `client.dfy` | the `IssueStore` class, rendering, counts, lookup, `applyFilters`, form checks |
| `Server` | `server.dfy` | the `IssueRepository` class holding the stored list, one method per route |

The client store is a class whose `allIssues` field the update methods reassign. Each
method states its new store as a function of the old one (`ReplaceFirst`, `WithoutId`),
and the lemmas about those functions state what the source promises. `applyFilters`
narrows `filtered` in three steps. It is a method proved equal to a one-pass
specification (`Selection`). The server handlers are methods of a repository class.
`GetIssue`, `UpdateIssue` and `DeleteIssue` use `while` loops to the first match, as the
handlers do; `GetIssues` and `CreateIssue` have no loop. Every postcondition gives the
whole new stored list.

In three places the code behaves differently from what one would expect of an issue
tracker. The model follows the code:

- After a create, update or delete the code calls `renderIssues(allIssues)` (lines 53, 83
  and 111). It does not re-apply the active filters, so the shown list can go stale with
  respect to them. The store methods return `Render(allIssues)`, and
  `MutationViewIgnoresFilters` shows the difference whenever a filter hides some issue.
- One might expect the three counts always to add up to the total. The code counts only
  `open`, `in_progress` and `closed`, so the sum equals the total exactly when every status
  is one of those three (`ComputeStats`).
- Ids are meant to be unique (the server draws them from `uuid.uuid4()`), but nothing in
  the code checks it. The client deletes every
  record with the id, while the server pops the first one only.
  `WithoutIdRemovesFirstMatch` proves that the two agree when ids are unique.

## Model

| member | source | states |
|---|---|---|
| `Client.IssueStore.constructor` | app/static/js/app.js:18 | the store starts empty |
| `Client.IssueStore.Loaded` | app/static/js/app.js:26-28 | a successful fetch replaces the store; the counts and the rendered list are taken from the new store |
| `Client.IssueStore.Created` | app/static/js/app.js:50-53 | exactly one record, the server's, is appended at the end; the rendered view is the whole store, not the filtered view |
| `Client.IssueStore.Updated` | app/static/js/app.js:77-83 | the store becomes `ReplaceFirst` of the old store: only the first issue with the id is replaced by the server's record |
| `Client.IssueStore.Deleted` | app/static/js/app.js:109-111 | the store becomes `WithoutId` of the old store: every issue with the id is dropped |
| `Client.ReplaceFirst` | app/static/js/app.js:78-81 | `findIndex` then index assignment; no contract of its own, `ReplaceFirstSpec` and `ReplaceFirstKeepsUniqueIds` state it |
| `Client.WithoutId` | app/static/js/app.js:109 | the delete filter; no contract of its own, `WithoutIdSpec` and `WithoutIdRemovesFirstMatch` state it |
| `Client.ReplaceFirstSpec` | app/static/js/app.js:78-81 | the update keeps the length; only the first matching index gets the new record and every other index is unchanged; with no match the store is unchanged |
| `Client.ReplaceFirstKeepsUniqueIds` | app/static/js/app.js:77-81 | when the server's record keeps the id, an update keeps store ids unique |
| `Client.WithoutIdSpec` | app/static/js/app.js:109 | after delete no issue has the id; every other issue stays, as often as before, in the same relative order |
| `Client.WithoutIdRemovesFirstMatch` | app/static/js/app.js:109 | when ids are unique, the client's delete removes exactly the one element the server's `pop` removes |
| `Client.Find` | app/static/js/app.js:179-180 | the edit dialog's lookup finds nothing exactly when no issue has the id, and otherwise the first issue with that id |
| `Client.ShortId` | app/static/js/app.js:138 | `substring(0, 8)`; no contract of its own, `RenderSpec` states its length and that it is a prefix of the id |
| `Client.RenderRow` | app/static/js/app.js:134-152 | one issue's row; no contract of its own, `RenderSpec` states what each field shows |
| `Client.Render` | app/static/js/app.js:122-153 | `renderIssues`; no contract of its own, `RenderSpec` states placeholder and rows |
| `Client.RenderSpec` | app/static/js/app.js:122-152 | the empty placeholder is shown exactly for an empty list; row `k` shows issue `k` with an id prefix of `min(8, len)` characters, its title and description passed through `escapeHtml`, so they contain no markup, every `&` starts one of the five entities, and they decode back to the originals, the status and priority as badge classes and as `formatLabel` labels, and the id on its buttons |
| `Client.ComputeStats` | app/static/js/app.js:155-164 | total is the store's length; each of open, in-progress and closed is the number of issues with that status; their sum is at most the total, with equality exactly when every status is `open`, `in_progress` or `closed` |
| `Client.Statuses` | app/static/js/app.js:156-158 | the statuses of the store in order; no contract of its own, `StatusCount` and `ComputeStats` count in it |
| `Client.StatusCount` | app/static/js/app.js:156-158 | `filter(...).length` for one status is the number of occurrences of that status among the store's statuses |
| `Client.FilterCountsStatus` | app/static/js/app.js:156-158 | by induction: the length of the status filter equals that status's multiplicity in the store's statuses |
| `Client.StatusCountsSum` | app/static/js/app.js:156-158 | the three status counts of a store sum to at most its length, with equality if and only if every status is one of the three |
| `Client.StatusPasses` | app/static/js/app.js:235-241 | an issue passes the status step when the select is empty or "all", or the status equals it; `SelectionElements` states it of the view |
| `Client.PriorityPasses` | app/static/js/app.js:236-245 | the same for the priority select; `SelectionElements` states it of the view |
| `Client.SearchTerm` | app/static/js/app.js:237 | the search box lower-cased and then trimmed; `Text.ToLowerSpec` and `Text.Trim` state what each step does, `SearchTermEmpty` that the term is empty exactly when the box is blank |
| `Client.SearchTermEmpty` | app/static/js/app.js:237-247 | the search term is empty, so the search step is skipped, exactly when the box holds only white space |
| `Client.MatchesSearch` | app/static/js/app.js:247-251 | the term occurs in the lower-cased title or description; `SelectionElements` and `SelectionSearchMiss` state it of the view |
| `Client.Selection` | app/static/js/app.js:239-252 | the one-pass specification of the filtered view; `SelectionSpec` states its members, order and multiplicities |
| `Client.ApplyFilters` | app/static/js/app.js:232-254 | the status, priority and search steps in sequence produce the one-pass `Selection` of the store under the lower-cased, trimmed search term |
| `Client.SelectionSpec` | app/static/js/app.js:239-252 | the filtered view is an order-preserving subsequence of the store; it contains exactly the store's issues that pass every active filter, each as often as in the store |
| `Client.SelectionElements` | app/static/js/app.js:237-252 | every shown issue has the selected status and priority when those filters are active and not "all"; with a non-empty term, the term occurs in its lower-cased title or lower-cased description |
| `Client.SelectionNoFilters` | app/static/js/app.js:233-252 | with status "all", priority "all" and a blank search box the view is exactly the store |
| `Client.SelectionSearchMiss` | app/static/js/app.js:247-252 | a non-empty term that no lower-cased title or description contains yields an empty view |
| `Client.MutationViewIgnoresFilters` | app/static/js/app.js:51-53 | when an active filter hides some stored issue, the list rendered after a store change differs from the filtered view |
| `Client.SubmitCreateForm` | app/static/js/app.js:201-210 | the create form is refused with "Please fill in all required fields." exactly when the title or the description is all white space; otherwise the payload carries the trimmed, non-empty values and the priority |
| `Client.SubmitEditForm` | app/static/js/app.js:216-227 | the same required-field check for the edit form; an accepted submission carries the id, trimmed title and description, priority and status |
| `Format.EscapeChar` | app/static/js/app.js:328-334 | the replacement map; no contract of its own, `UnescapeEscapedChar` states that each replacement decodes back |
| `Format.EscapeHtml` | app/static/js/app.js:327-336 | the escaped text is at least as long as the input and contains no `<`, `>`, `"` or `'` |
| `Format.UnescapeEscape` | app/static/js/app.js:327-336 | decoding the five entities inverts escaping: `&` `<` `>` `"` `'` map to `&amp;` `&lt;` `&gt;` `&quot;` `&#039;` and nothing is lost |
| `Format.UnescapeEscapedChar` | app/static/js/app.js:328-334 | each character's replacement decodes back to that character |
| `Format.EscapeHtmlNoBareAmpersand` | app/static/js/app.js:327-336 | every `&` in the escaped text starts `&amp;`, `&lt;`, `&gt;`, `&quot;` or `&#039;`, so an HTML parser reads no other character reference in it |
| `Format.EscapePlainText` | app/static/js/app.js:335 | text without any of the five special characters is copied unchanged |
| `Format.EscapeConcat` | app/static/js/app.js:335 | escaping is applied character by character: it distributes over concatenation |
| `Format.UnderscoresToSpaces` | app/static/js/app.js:339 | `replace(/_/g, ' ')`; no contract of its own, `FormatLabelSpec` states it |
| `Format.CapitalizeWords` | app/static/js/app.js:339 | `replace(/\b\w/g, l => l.toUpperCase())`; no contract of its own, `FormatLabelSpec` states it |
| `Format.FormatLabel` | app/static/js/app.js:338-340 | `formatLabel`; no contract of its own, `FormatLabelSpec` and `FormatLabelExamples` state it |
| `Format.FormatLabelSpec` | app/static/js/app.js:338-340 | the label keeps the length and contains no underscore; each underscore becomes a space, each word-initial character is upper-cased, and every other character is kept unchanged |
| `Format.FormatLabelExamples` | app/static/js/app.js:338-340 | "in_progress" becomes "In Progress"; "open", "closed", "high" are capitalised |
| `Text.Trim` | app/static/js/app.js:237 | the result neither starts nor ends with white space, is a slice of the input surrounded only by white space, and is empty exactly when the input is all white space |
| `Text.TrimIdempotent` | app/static/js/app.js:237 | trimming twice is trimming once |
| `Text.TrimUnchanged` | app/static/js/app.js:201 | a value without surrounding white space is its own trim |
| `Text.LowerChar` | app/static/js/app.js:237 | an ASCII capital becomes the letter 32 code points above it; any other character is kept |
| `Text.UpperChar` | app/static/js/app.js:339 | an ASCII lower-case letter becomes the capital 32 code points below it, which lower-cases back; any other character is kept |
| `Text.ToLower` | app/static/js/app.js:237 | `toLowerCase`; no contract of its own, `ToLowerSpec` states it |
| `Text.ToLowerSpec` | app/static/js/app.js:237 | lower-casing keeps the length, turns each ASCII capital into its lower-case letter and keeps every other character, so it is idempotent |
| `Text.Contains` | app/static/js/app.js:249-250 | `includes` is true exactly when the term occurs at some offset of the text |
| `IssueModel.FirstIndexOf` | app/static/js/app.js:78 | `findIndex` gives the first index whose id matches, or none exactly when no issue has the id |
| `IssueModel.FirstMatchUnique` | app/static/js/app.js:78 | an index that is a first match is the one `findIndex` returns |
| `Seqs.Filter` | app/static/js/app.js:240 | `filter` never lengthens its input; `FilterMembers`, `FilterIsSubsequence` and `FilterMultiplicity` state the rest |
| `Seqs.FilterMembers` | app/static/js/app.js:240 | `filter` keeps exactly the elements satisfying the predicate |
| `Seqs.FilterIsSubsequence` | app/static/js/app.js:240 | `filter` keeps the original order |
| `Seqs.FilterMultiplicity` | app/static/js/app.js:244 | `filter` keeps every occurrence of a selected element and none of the others |
| `Seqs.FilterFusion` | app/static/js/app.js:240-244 | filtering twice equals filtering once by the conjunction |
| `Seqs.FilterDropsOnly` | app/static/js/app.js:109 | a predicate failing at one position only removes exactly that element |
| `Server.IssueRepository.constructor` | app/routes/issues.py:15 | the repository holds the list the storage layer returns |
| `Server.IssueRepository.GetIssues` | app/routes/issues.py:13-16 | the whole stored list is returned |
| `Server.IssueRepository.GetIssue` | app/routes/issues.py:20-27 | returns the first issue whose id matches; raises 404 "Issue not found" exactly when none does |
| `Server.NewIssue` | app/routes/issues.py:36-42 | the created record has the given id, the payload's title, description and priority, and status "open" |
| `Server.IssueRepository.CreateIssue` | app/routes/issues.py:32-46 | exactly one record is appended and saved, and earlier records are unchanged; a fresh id keeps ids unique |
| `Server.Patch` | app/routes/issues.py:56-63 | patching never changes the id; each of title, description, priority and status takes the payload's value when the payload carries one and otherwise keeps its old value |
| `Server.Override` | app/routes/issues.py:56-63 | one `if payload.x is not None` assignment; no contract of its own, `Patch` states the per-field rule it gives |
| `Server.PatchSpec` | app/routes/issues.py:56-63 | an all-None payload changes nothing; patching is idempotent; a payload with every field set replaces all fields but the id (the per-field rule for partial payloads is `Patch`'s contract) |
| `Server.IssueRepository.UpdateIssue` | app/routes/issues.py:50-70 | the first matching issue becomes its `Patch`, so it gets exactly the payload's non-None fields and keeps the others, and it is the only change saved; an unknown id raises 404 "Issue not found" and saves nothing |
| `Server.RemoveAt` | app/routes/issues.py:80 | `issues.pop(i)`; no contract of its own, `RemoveAtSpec` states it |
| `Server.RemoveAtSpec` | app/routes/issues.py:80 | `pop` drops one element; the others keep their order |
| `Server.RemoveFirstMatchClearsId` | app/routes/issues.py:78-80 | with unique ids, popping the first match leaves no issue with that id and keeps ids unique |
| `Server.IssueRepository.DeleteIssue` | app/routes/issues.py:74-86 | the first matching issue is popped and the list saved, so the length drops by one and the others keep their order; an unknown id raises 404 "Issue not found" and leaves the list unchanged |

## Left out

- Network I/O: `fetch`, JSON encoding and decoding, HTTP status checks and the error-message text of the client's API functions. The store methods model only the update that follows a successful response. A failed request leaves the store untouched, because no method is called.
- DOM work: templating into `innerHTML`, class toggles, focus, `confirm`, event listeners, keyboard shortcuts and the modal open/close state. `Render` models the content of the list, not its HTML text.
- Alerts and the loading indicator. They use timers, `Date.now()` and DOM insertion.
- `load_data`/`save_data`: the storage module is not part of this model. The repository's `stored` field stands for the saved list.
- `uuid.uuid4()`: `CreateIssue` takes the new id as a parameter.
- Pydantic validation of request bodies and FastAPI routing. The payload datatypes hold values that are already validated, and enum fields hold their `.value` strings.
- `main.py`: application construction, CORS, static files and templates.
- `Text.ToLower`: only ASCII letters are lower-cased. JavaScript's `toLowerCase` also maps non-ASCII letters, with context rules. For text outside ASCII the model's search therefore differs from the browser's in both directions. A title "É" is not found by the search "é" in the model but is in the browser. A title "ΑΣ" is found by the search "Σ" in the model but not in the browser, which lower-cases the title to "ας" (final sigma) and the term to "σ".
- Concurrency: the handlers are plain `def` functions, which FastAPI runs on a thread pool, and `load_data`/`save_data` take no lock. Two overlapping create, update or delete requests can interleave and lose a write. Each `IssueRepository` method models one handler as a single atomic step on `stored`, so the model does not capture such lost updates.
- Strings are sequences of Unicode scalar values. JavaScript measures strings in UTF-16 code units, so `ShortId` differs from `substring(0, 8)` on ids containing characters outside the Basic Multilingual Plane.
- A filter control or search box missing from the page (`?.value` undefined) is modelled as an empty string, which JavaScript treats the same way (falsy).
