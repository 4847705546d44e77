# github-log-forwarder, modelled in Dafny

The forwarder copies the audit log of a GitHub Enterprise account to a log
collector. One pass goes like this:

1. It reads a pagination cursor from a file.
2. If there is no cursor yet, it asks the audit-log API for a first page and
   stores that page's forward cursor.
3. It fetches the page after the stored cursor, in ascending order.
4. While the last page it fetched has a forward cursor, it stores that
   cursor, fetches the page after it and posts that page to the collector.

The forward and backward cursors come from the API's `Link` response header
(RFC 8288, section 3). The code extracts them with plain substring and split
rules, not the RFC grammar.

The model has five modules:

- `Wrappers` holds `Option` and `Result`.
- `Text` holds the string operations the code relies on:
  - `strings.Split` on a one-character separator, as `Split`;
  - `strings.Contains`, as `Contains`;
  - first-occurrence search, as `IndexOf`, `TakeUntil` and `AfterFirst`.
- `LinkHeader` covers `extract_url`, `get_param_from_link` and
  `get_before_after`:
  - `extract_url` is the function `ExtractUrl`. The lemma `ExtractUrlSpec`
    states what it returns.
  - `get_param_from_link` is the function `ParamFromLink`, built from
    `RawQuery`, `QueryPairs` and `Lookup`. The lemmas `ParamFromLinkSpec`
    and `ParamWithoutUrlFails` state what it returns.
  - `get_before_after` is the method `GetBeforeAfter`, with its loop. It is
    proved equal to the fold `ParseLinkHeader`.
  - The properties are stated as lemmas about that fold.
  - A panic of `get_param_from_link` on a missing query parameter is the
    error `MissingParam`.
- `Pass` describes one pass as a value: the sequence of `Effect`s it has on
  the world. The effects are fetches, writes of the cursor file and posts.
  The sequence is computed from the audit-log API and the cursor stored when
  the pass starts. Its lemmas state what a pass guarantees.
- `Forwarder` holds the class `LogForwarder`, with the cursor file as its
  field and a ghost `trace` of effects. Its methods are:
  - `persist_cursor` as `PersistCursor`, and `get_last_cursor` as
    `GetLastCursor`;
  - the API call as `GetEnterpriseLogs`, and the post as `PostLogs`;
  - `process_recent_logs` as `ProcessRecentLogs`. It is proved to append
    exactly `Pass.PassTrace` to the trace and to leave
    `Pass.FinalCursor` in the file.
  - `ForwardPages`, the `for after != ""` loop of `process_recent_logs`. It
    is a separate method so that each proof stays small.

The audit-log API is a parameter `api: (Order, string) -> Page`. It maps the
`order` query parameter ("" or "asc") and the `after` cursor to a page: its
events and the `after` cursor of its `Link` header, which is "" when there
is none. A cursor file holding "" is the same as no file, as it is for
`get_last_cursor`.

The bootstrap step of `process_recent_logs` re-enters the function. The
model turns it into a loop that runs at most once.

Termination of the forward loop relies on a ghost `chain`: the forward
cursors the pass will meet, ending in "". The predicate `Pass.CanRun` gathers
the conditions under which the code neither panics nor runs forever:

- the start cursor is non-empty, because otherwise bootstrap repeats
  forever;
- the first page and every posted page are non-empty, because the code
  reads their first and last events;
- those events carry a `@timestamp`, because `get_log_time` panics on one
  that lacks it. The code reads the last event of the first page
  (main.go:154-155), and the first and last events of each later page
  (main.go:160). An event's timestamp is an `Option` in the model, and
  `Pass.Readable` says a page can be read this way;
- the chain reaches "".

The code and the project's stated intentions differ in several places. The
model follows `main.go` in each:

- The cursor of a page is written **before** that page is fetched and
  posted. It is not written after a successful post.
- A tagged header entry whose URL lacks the query parameter is an error
  (`MissingParam`; the code panics). It is not skipped as an empty cursor.
- A pass that finds no new events does not go idle. Indexing the empty first
  page panics (main.go:154), so `CanRun` requires that page to be non-empty.
- A missing bootstrap token does not fail. The code re-enters itself forever
  (main.go:150-151), so `CanRun` requires a non-empty start cursor.
- The collector's reply is never checked. A post is recorded as made,
  whatever the collector answered.

There is no rate-limit gate: the rate-limit headers are parsed and then
discarded by every caller.

## Model

| member | source | states |
|---|---|---|
| Text.SplitPiecesFree | main.go:23 | no piece `strings.Split` returns contains the separator |
| Text.JoinSplit | main.go:38 | joining the pieces of a split with the separator gives back the original header |
| Text.SplitJoin | main.go:38 | splitting a join of separator-free pieces gives back those pieces, so a split loses no entry |
| LinkHeader.ExtractUrlSpec | main.go:22-28 | `extract_url` is "" when the entry has no `<`, and "" when the text after its first `<` (up to any next `<`) lacks "://"; otherwise it is the longest prefix of that text without `>` |
| LinkHeader.LookupFirst | main.go:33-34 | the query lookup is empty exactly when no `&`-segment names the key; otherwise its first value is that of the first segment naming the key |
| LinkHeader.ParamFromLinkSpec | main.go:30-35 | `get_param_from_link` fails with `MissingParam(key)` exactly when no segment of the URL's query names the key; otherwise it yields the value of the first segment that does |
| LinkHeader.ParamWithoutUrlFails | main.go:30-35 | an entry without a usable URL has no parameters, so looking one up fails rather than giving "" |
| LinkHeader.GetBeforeAfter | main.go:37-48 | the loop over the comma-separated entries, overwriting `before` and `after`, returns exactly what the fold over the entries returns, including its failure |
| LinkHeader.LastWith | main.go:39-46 | the index of the last entry mentioning a tag, or none when no entry mentions it |
| LinkHeader.ScanFails | main.go:39-46 | the loop fails exactly when some entry carries a tag but lacks that tag's parameter, whatever the cursors so far |
| LinkHeader.ScanLastWins | main.go:39-46 | `after` comes from the last entry tagged `rel="next"`, `before` from the last tagged `rel="prev"` (one entry with both tags sets both), and an untagged relation keeps its previous value |
| LinkHeader.ParseLinkHeaderCursors | main.go:37-48 | for a whole header: failure exactly when an entry fails; otherwise `after` is "" when no entry has `rel="next"` and comes from the last such entry when one does, and the same for `before` and `rel="prev"` |
| Pass.DrainsAt | main.go:157-162 | each forward cursor of the chain but the last is non-empty; it is the `after` of the page fetched from the cursor before it, and the page fetched from it is non-empty; the last cursor is "" |
| Pass.ChainDistinct | main.go:157-159 | for an API that answers each cursor the same way and a chain that reaches "", no forward cursor repeats and none equals the start cursor; the code itself has no such guard, and would re-persist a repeated cursor and loop forever |
| Pass.RoundsAt | main.go:158-161 | in the loop, round j writes its cursor, then fetches from it, then posts that page, at positions 3j, 3j+1 and 3j+2 |
| Pass.RoundsPost | main.go:159-161 | the loop posts the pages fetched from its cursors, in the order of those cursors |
| Pass.RoundsFetch | main.go:159 | the loop fetches in ascending order from its cursors, in order |
| Pass.RoundsStore | main.go:158 | after the loop, the cursor file holds the last cursor it wrote, or what it held before when the loop wrote none |
| Pass.BootstrapEffects | main.go:147-151 | bootstrap posts nothing and fetches nothing in ascending order; it leaves the start cursor stored |
| Pass.PassBegins | main.go:146-153 | from an empty cursor file, a pass first fetches with no order and no cursor, then stores that page's `after`, then fetches in ascending order from it; from a stored cursor, it first fetches in ascending order from that cursor |
| Pass.PassPostAt | main.go:153-161 | a post at any position of a pass comes right after the write of a cursor and the fetch from that cursor; it posts that fetch's page, which is readable (non-empty, first and last events stamped), and the cursor is never the one the pass started from |
| Pass.PostAfterPersist | main.go:153-161 | every post of a pass follows the persisting of its page's cursor; the page fetched from the stored cursor is never posted |
| Pass.PassPosts | main.go:157-162 | a pass posts, in fetch order, exactly the readable pages fetched from the forward cursors before the empty one; the last page posted is the one whose `after` is "" |
| Pass.PassFetches | main.go:153-162 | stop rule: ascending fetches go from the start cursor, then from each forward cursor in turn; each fetch but the last returns the non-empty cursor fetched from next, and the last returns "" |
| Pass.PassStores | main.go:157-162 | at the end of a pass the file holds the last non-empty `after` observed (the start cursor if none was), and fetching from it returns `after == ""` |
| Forwarder.LogForwarder.PersistCursor | main.go:121-128 | the cursor file afterwards holds exactly the given cursor, and one write is recorded |
| Forwarder.LogForwarder.GetLastCursor | main.go:130-138 | returns the content of the cursor file, which is "" when there is none |
| Forwarder.LogForwarder.CursorRoundTrip | main.go:121-138 | reading after writing `c` gives back `c` |
| Forwarder.LogForwarder.GetEnterpriseLogs | main.go:50-77 | returns the page the API gives for the order and the `after` cursor, and that page's forward cursor; it records one fetch and leaves the cursor file alone |
| Forwarder.LogForwarder.PostLogs | main.go:105-113 | records one post of the given page and leaves the cursor file alone |
| Forwarder.LogForwarder.ForwardPages | main.go:157-162 | the loop performs exactly one round per forward cursor before the empty one: write the cursor, fetch after it, post that page; it leaves the last cursor written in the file |
| Forwarder.LogForwarder.ProcessRecentLogs | main.go:145-164 | a whole pass performs exactly the effects of `PassTrace`, in order, and leaves `FinalCursor` in the cursor file; the `Pass` lemmas above are what that trace guarantees |

## Left out

- HTTP clients, authentication and configuration from environment variables (main.go:16-20, 79-103) are not modelled. They are plumbing over an HTTP library and the process environment.
- The network request and JSON decoding in `get_enterprise_logs` are not modelled. The API is the abstract parameter `api`, which gives the events and the forward cursor directly. The link-header parse it performs is modelled separately, in `LinkHeader`. The `before` cursor the source always sends empty is not a parameter.
- Request errors and the ignored `err` and `Unmarshal` results are not modelled. A failed request is indistinguishable from a page in this model.
- Rate-limit header parsing (main.go:70-72) is not modelled. Its values are discarded by every caller.
- The body of `postLogs` is not modelled. It is an HTTP call whose response is ignored, so it is only recorded as a `Posted` effect.
- Logging is not modelled, and neither is the time value `get_log_time` computes. The reads it depends on are kept: the index of the first and last events (a panic on an empty page) and their `@timestamp` (a panic when it is missing or not a number). Both are excluded by `Pass.CanRun`. The cast of the timestamp from `float64` to `int64` is not modelled: a timestamp is an integer number of milliseconds.
- Panics are preconditions of the methods (`Pass.CanRun`) or the `MissingParam` error. This applies to `check` on file-system errors, indexing an empty page, and the missing query parameter. Directory creation and file permissions are not modelled.
- Crash safety is not modelled: the cursor file is written atomically here and the process never stops half-way through a pass.
- RawQuery (LinkHeader.RawQuery): percent-decoding, `#` fragments, the `;` rule and the parse errors of `url.Parse` and `url.ParseQuery` are not modelled. The query is the text after the first `?`; segments split on `&`, and a segment's key is the text before its first `=`.
- ProcessRecentLogs (Forwarder.LogForwarder.ProcessRecentLogs): does not model a pass that never ends. When bootstrap yields an empty cursor the source re-enters itself forever, and the model requires a non-empty one.
- ProcessRecentLogs (Forwarder.LogForwarder.ProcessRecentLogs): does not model an API whose forward cursors never reach "". The model requires a finite chain that ends in "".
