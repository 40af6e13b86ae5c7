# Active-user scan and workflow rules — a Dafny model

This project models the logic of a small tool for a hosted analytics platform.
The tool finds the accounts that ran at least one job within a trailing time
window. It reads the user roster and a paginated job-history feed, gathers the
user names seen on recent jobs, and returns the roster entries that are active
(or, in inverse mode, inactive). The model also covers the decision rules of
the workflow client: workflow and session lookup, the failure check, and the
way a run request's `_id` / `names` arguments are resolved.

Modules, one per component:

- `Wrappers` (`wrappers.dfy`): `Option` and `Result`.
- `PageAnalyzer` (`page_analyzer.dfy`): `analyze_jobs`. It keeps the jobs created at or after the window start. A job without `created_at` gets `now`, the clock reading taken once when the module is loaded. It returns the number kept and the set of their non-missing user names.
- `Pagination` (`pagination.dfy`): `fetch_active_users`.
  - The request list is built up front by `range(0, limit, pagesize)`.
  - The batch loop is a `method` with a `while` loop and `break`, as in the source.
  - The method is proved against the function `Batches`. `Batches` says which batches the scan fetches, and its properties are proved as lemmas.
  - The loop as written is also modelled for any `concurrency` (see Findings).
- `Roster` (`roster.dfy`): the active / inactive roster filter at the end of `fetch`.
- `Scanner` (`scanner.dfy`): the tail of `fetch`, which runs the scan and then filters the roster.
- `Workflow` (`workflow.dfy`): `_get_session_info`, `_get_wfid_by_name`, `check_failed` and the argument resolution of `run_workflow`. The decoded workflow and session lists are passed in as values.

Abstractions:

- Timestamps are integers in seconds.
- `Window(past, now)` holds the window start and the time substituted for a missing `created_at`. The source reads the clock for `now` once, at module load, before any configuration or scan runs (bin/td_active_users.py:23), and it renders `now` to whole seconds before parsing it back. So when the interval is zero days, `now` can fall just before `past`, and a job without `created_at` is then *not* counted. For this reason the model keeps `now` separate, and the lemma about missing timestamps assumes `past <= now`.
- The remote job-history feed is a total function from a request to the jobs of that page. A batch is awaited as a whole before its results are folded in, so fetching a batch is an in-order map of the feed over the batch's requests.

Behaviour of the code worth noting:

- The scan stops after a batch in which some page's in-window count is *not equal* to `pagesize`. So a page with more in-window jobs than `pagesize` also stops it, and not only a short page.
- The window has no upper bound: a job stamped after `now` is counted.
- A zero `pagesize` raises from `range` before any page request is made (the roster request and the client session come earlier). A negative one makes `range` count downwards.

## Model

| member | source | states |
|---|---|---|
| `PageAnalyzer.InWindowJobs` | bin/td_active_users.py:60 | the kept jobs are exactly the page's jobs whose timestamp (or `now` when missing) is at or after `past`; never more than the page |
| `PageAnalyzer.Analyze` | bin/td_active_users.py:54-63 | the count is at most the page length, and the user set is never larger than the count |
| `PageAnalyzer.AnalyzeUsers` | bin/td_active_users.py:61-63 | a name is in the page's user set iff some in-window job of the page carries it; jobs without `user_name` add nothing |
| `PageAnalyzer.CountIsInWindowJobs` | bin/td_active_users.py:56-63 | the reported count equals the number of positions of the page holding an in-window job |
| `PageAnalyzer.AppendJob` | bin/td_active_users.py:56-63 | one more job adds one to the count exactly when it is in the window, and then adds its user name, if any |
| `PageAnalyzer.MissingTimestampCounted` | bin/td_active_users.py:56-58 | a job without `created_at` is always counted when `past <= now` |
| `PageAnalyzer.MissingUserCountedButUnnamed` | bin/td_active_users.py:61-63 | an in-window job without `user_name` raises the count but leaves the user set unchanged |
| `Pagination.RangeElements` | bin/td_active_users.py:78 | `range(start, stop, step)` yields start + k*step for k = 0, 1, ... while strictly before `stop` in the step's direction, and stops at the first value that is not |
| `Pagination.Requests` | bin/td_active_users.py:78 | building the request list fails exactly when `pagesize` is 0 |
| `Pagination.RequestsShape` | bin/td_active_users.py:78 | for `pagesize > 0` request k is `{from: k*pagesize, to: k*pagesize + pagesize - 1}`, every `from < limit`, none when `limit <= 0`, and otherwise n requests with (n-1)*pagesize < limit <= n*pagesize, i.e. ceil(limit/pagesize) |
| `Pagination.RequestsNegativePageSize` | bin/td_active_users.py:78 | for `pagesize < 0` the offsets run 0, pagesize, 2*pagesize, ... above `limit`, so there are none when `limit >= 0`, and it stops at the first offset not above `limit`: n requests with (n-1)*pagesize > limit >= n*pagesize |
| `Pagination.NextBatch` | bin/td_active_users.py:82 | a batch is a prefix of the remaining requests of length min(concurrency, remaining) |
| `Pagination.Batches` | bin/td_active_users.py:81-93 | the scan fetches no batch exactly when the request list is empty |
| `Pagination.FetchActiveUsers` | bin/td_active_users.py:76-95 | the loop fails exactly when `pagesize` is 0 and otherwise returns the union of the user sets of exactly the pages in `Batches` of the request list |
| `Pagination.FetchedInOrder` | bin/td_active_users.py:81-86 | the fetched requests are a prefix of the request list, taken in batches of 1 to `concurrency` requests |
| `Pagination.StoppingRule` | bin/td_active_users.py:81-93 | every batch but the last has `concurrency` requests whose pages all have in-window count equal to `pagesize`; the last batch exhausts the list or has a page whose in-window count differs from `pagesize` |
| `Pagination.BatchCount` | bin/td_active_users.py:81-86 | the scan runs at most ceil(n/concurrency) batches for n requests: batches*concurrency < n + concurrency |
| `Pagination.NoEarlyStop` | bin/td_active_users.py:92-93 | when every page's in-window count equals `pagesize`, every request is fetched |
| `Pagination.UnionUsersMembers` | bin/td_active_users.py:89 | a name is in the union of a batch's user sets iff it is in one of them |
| `Pagination.ActiveUsersMembers` | bin/td_active_users.py:88-95 | a name is returned iff some fetched page holds an in-window job carrying it |
| `Pagination.UsersGrow` | bin/td_active_users.py:88-90 | after each batch the gathered set is the previous set plus that batch's users, so it never shrinks, and after the last batch it is the result |
| `Pagination.StepAsWritten` | bin/td_active_users.py:81-93 | one iteration of the loop as written, for any `concurrency` (Python slicing, negative bounds included): the batch taken and the requests left make up the list before it, and the gathered users never shrink |
| `Pagination.RunAsWritten` | bin/td_active_users.py:81-93 | the loop as written, for any `concurrency`, run until it breaks out, runs out of requests or the iteration bound is spent: the requests left are a suffix of the list, and the gathered users never shrink |
| `Pagination.StepAsWrittenTakesNextBatch` | bin/td_active_users.py:81-93 | with `concurrency >= 1` one iteration of the loop as written drops exactly the next batch, adds its users and breaks iff it is not all full |
| `Pagination.NonPositiveConcurrencySpins` | bin/td_active_users.py:81-93 | with `concurrency <= 0`, unless the first batch breaks out, the loop condition still holds and no break happens after any number of iterations |
| `Pagination.ZeroConcurrencyNeverExits` | bin/td_active_users.py:81-86 | with `concurrency` 0 and one request the loop state never changes |
| `Pagination.ShortPageStopsScan` | bin/td_active_users.py:76-95 | page size 2, limit 6, one page per batch: requests 0-1, 2-3, 4-5; the short second page stops the scan before the third; result {a, b, c} |
| `Roster.FilterRoster` | bin/td_active_users.py:143-149 | an entry is kept iff it is in the roster and its activity differs from `inverse` (entries without a name are never active); the result keeps roster order |
| `Roster.RosterPartition` | bin/td_active_users.py:143-149 | the active and inactive lists together hold each roster entry exactly as often as the roster, share no entry, and both keep roster order |
| `Scanner.Fetch` | bin/td_active_users.py:140-149 | the returned list is the roster filtered by the scan's result, and the scan's error passes through |
| `Workflow.FirstMatch` | lib/workflow_util.py:80-85 | the position returned is the first element satisfying the filter; none iff no element satisfies it |
| `Workflow.GetSessionInfo` | lib/workflow_util.py:76-85 | returns the first session whose id equals the text of `session_id`, and None iff there is none |
| `Workflow.GetWfidByName` | lib/workflow_util.py:88-97 | returns the id of the first workflow whose name and project name both match, and None iff there is none |
| `Workflow.CheckFailed` | lib/workflow_util.py:100-103 | fails on a missing session; raises the workflow failure, carrying the session, iff the found session's `success` is not exactly true; passes iff the found session's `success` is exactly true; raises no other error |
| `Workflow.SplitJoin` | lib/workflow_util.py:128 | joining the parts of `split('.')` gives back the text, no part contains a dot, and there are two or more parts iff the text contains a dot |
| `Workflow.ResolveWorkflowId` | lib/workflow_util.py:121-134 | neither argument given: error; `names` given without a dot: error; `names` given with a dot: the lookup of parts 0 and 1; only `_id` given: `_id` |
| `Workflow.NamesOverrideId` | lib/workflow_util.py:124-134 | when `names` is given the result does not depend on `_id`, even when the lookup finds nothing |
| `Workflow.NameParts` | lib/workflow_util.py:128-133 | the project name is the text before the first dot and the workflow name the text up to the next dot or the end; the rest is ignored |

## Left out

- HTTP and transport: the roster and job-history requests, the workflow REST calls, status checks and timeouts, including the per-request `DEFAULT_TIMEOUT_SEC` (bin/td_active_users.py:44-51, 66-73; lib/workflow_util.py:8-66). The roster, the job-history pages and the workflow and session lists are inputs, and transport errors are not modelled.
- Concurrency: `asyncio.gather` and the event loop. A batch is an in-order map, since its results are folded only after the whole batch resolves.
- Date parsing: `strptime` of the `'%Y-%m-%d %H:%M:%S UTC'` format and `datetime.now()`. Timestamps are integers, so a malformed `created_at`, which raises in the source, is not modelled.
- Configuration and plumbing: credential loading, request headers, `prepare_variables` (whose `raise` of a string fails with a different error), logging, argument parsing and JSON output.
- Missing JSON keys: a page without `jobs` and a roster without `users` fail in the source; a session without `id`, or a workflow without `name` (or, once its `name` matches, without `project`), fails when the first-match lookup reaches it, and is never read when an earlier entry matches. The model takes the lists and records as already decoded, with every field present.
- `Pagination.FetchActiveUsers`, `Pagination.NextBatch`, `Pagination.Batches`, `Pagination.Fetched`, `Pagination.ActiveUsers` and `Pagination.UsersAfter`: require `concurrency >= 1`, although `payloads[:concurrency]` accepts any integer. With a smaller value the source loops forever unless the request list is empty or the first batch breaks out (see Findings); a verified loop must terminate, so only `Pagination.RunAsWritten` models those cases.
- `Scanner.Fetch`: requires `concurrency >= 1`, for the same reason.
- `Pagination.RunAsWritten`: runs at most `fuel` iterations, since a function must terminate. Non-termination is stated as "for every bound, still running" (`Pagination.NonPositiveConcurrencySpins`).
- The unused module constants `DEFAULT_PAGESIZE`, `DEFAULT_CONCURRENCY` and `DEFAULT_LIMIT`, and the default arguments of `fetch_active_users` and the command line. All parameters are explicit in the model.
- `run_workflow` after resolution: the attempt request, the returned session id, and the `sleep` polling loop while `done` is false (lib/workflow_util.py:136-145). These are I/O and unbounded waiting.
- Idempotence of the page analyzer is not stated separately: `Analyze` is a function, so equal inputs give equal results.

## Findings

| source | as written | input that shows it | evidently intended | confidence | as-written member | corrected member |
|---|---|---|---|---|---|---|
| bin/td_active_users.py:81-93 | the batch is `payloads[:concurrency]` and the rest `payloads[concurrency:]`. With `concurrency <= 0` the batch is (soon) empty, an empty batch passes the all-full test, and the list stays non-empty. | `concurrency` 0 (command line `-c 0`) with any positive `limit` and `pagesize` | the scan takes batches of at least one page and finishes after at most ceil(n/concurrency) batches | medium, not executed | `Pagination.NonPositiveConcurrencySpins` | `Pagination.BatchCount` |
