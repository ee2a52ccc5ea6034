# Greedy comment harvest of the pullpush user archive

This project models `greedyComments` in `api/index.js`, the handler behind the
`/latest-greedy` routes of the pullpush user archive, and proves properties of
the model. For one Reddit username the handler pages backwards through the
pullpush.io comment search until a time budget runs out. Each request asks for
a random page size of 50 to 59 comments written before the current cursor.

After each page the cursor moves to the smallest truthy `created_utc` on the
page, folded from the sentinel `max_date`. The loop stops on an empty or
absent page, on an upstream error, or when the fold gives back the sentinel
or a falsy value. The handler answers in one of two modes:

- **Structured mode.** The answer is the cursor, the sparse projections of
  all harvested records, the username and the number of records. A sparse
  projection drops every field whose value is falsy.
- **Report mode.** The answer is a report with one rendered entry per record,
  the count of rendered records, and the final cursor.

Any exception becomes an HTTP 500 response carrying the exception's text.

The project has five modules:

- `Wrappers` (`wrappers.dfy`): Option and Result.
- `Records` (`records.dfy`): JavaScript values and their truthiness, records
  as ordered field lists, and the sparse projection.
- `Cursor` (`cursor.dfy`): the `reduce` that computes the next cursor, and
  the loop's stall test.
- `Query` (`query.dfy`): the `SEARCH_PARAMS` names and `urlParams`.
  - The application/x-www-form-urlencoded serializer (WHATWG URL Standard,
    section 5.2), with UTF-8 percent-encoding.
  - How numbers are printed, and a reader for the query string and for
    decimals, so that requests can be read back.
  - The loop's request.
- `Harvest` (`harvest.dfy`): the handler, in three layers.
  - The imperative `while` loop, as methods `Iteration`, `HarvestLoop` and
    `GreedyComments`.
  - Functions that describe, iteration by iteration, what the loop computes:
    `Advance`, `Run`, `Iterations`, `RequestsOf` and `Conclude`.
  - Rendering of the report entries.
- `HarvestProperties` (`harvest_properties.dfy`): what that description
  promises. This covers when the loop stops, what each kind of page does to
  the state, the outcome in each mode, and what each request says.

The environment is a list of `Step`s, one per loop iteration. Each step gives:

- the elapsed time and the `req.closed` flag read by the loop test;
- the random page size;
- the decoded response;
- `Date.now() + 1`, which is taken as `max_date`.

`parseInt` and `Date.now()` at the start of the call become the inputs of a
`Request`. The methods are proved to return exactly what these functions give,
and the lemmas state the properties of the functions.

## Model

| member | source | states |
|---|---|---|
| Records.Sparse | api/index.js:111 | The projection has only truthy fields. A field is in it exactly when it is in the record with a truthy value. It is never longer than the record. |
| Records.MapSparse | api/index.js:111 | One projected record per record of the page, in page order. |
| Records.SparseAppend | api/index.js:48 | Projecting a concatenation concatenates the projections, so fields keep their relative order. |
| Records.SparseOfTruthy | api/index.js:48 | A record whose fields are all truthy is its own projection. |
| Records.SparseIdempotent | api/index.js:48 | Projecting twice is the same as projecting once. |
| Records.SparseKeepsDistinct | api/index.js:111 | The projection of a record with distinct keys still has distinct keys, as `Object.fromEntries` needs. |
| Records.SparseGet | api/index.js:111 | Reading a key from the projection gives the original value when it is truthy, and `undefined` otherwise. |
| Cursor.FoldBounds | api/index.js:95 | The `reduce` never exceeds its accumulator or any truthy timestamp. Its result is the accumulator, the sentinel or one of the timestamps. |
| Cursor.MinCursorIsMinimum | api/index.js:94-95 | The new cursor is at most `max_date` and at most every truthy `created_utc`. It is either `max_date` or one of those timestamps. |
| Cursor.NoStampIsSentinel | api/index.js:94-96 | A page with no truthy timestamp yields the sentinel `max_date`, which the stall test stops on. |
| Cursor.MinCursorIsSmallestStamp | api/index.js:94-95 | If some truthy timestamp is below `max_date`, the cursor is the smallest truthy timestamp on the page. |
| Cursor.UnstampedRecordIsNeutral | api/index.js:95 | A record without a truthy `created_utc` has no effect on the cursor. |
| Query.NamesDistinct | api/index.js:8-16 | Two search parameters have the same upstream name only if they are the same parameter. |
| Query.EncodeChar | api/index.js:19-20 | A code point is left as it is exactly when it is unreserved. The output has only unreserved characters, `%` and `+`. |
| Query.FormEncodeIdentity | api/index.js:19-20 | The serializer leaves a string unchanged exactly when every character is unreserved. |
| Query.DecodeFormEncode | api/index.js:19-20 | Decoding undoes the serializer on ASCII text. |
| Query.ParseSerialize | api/index.js:18-21 | Parsing the serialization of an ASCII parameter list gives back the same names and values, in the same order. |
| Query.SerializeLiteral | api/index.js:18-21 | Each pair whose name and value are unreserved is written literally as `name=value`. |
| Query.DecimalRoundTrip | api/index.js:74-78 | The decimal text of an integer cursor or page size reads back as that integer. |
| Query.DecimalUnreserved | api/index.js:74-78 | Decimal text needs no escaping. |
| Query.LoopRequestLiteral | api/index.js:74-78 | For an unreserved username, a loop request is exactly the endpoint, then `size=`, `&author=` and `&before=` with their values. |
| Query.LoopRequestParams | api/index.js:74-78 | For an ASCII username, a loop request starts with the comments endpoint. Its query reads back as exactly `size` (the page size), `author` (the username) and `before` (the cursor), in that order. |
| Harvest.TimeoutSeconds | api/index.js:72 | The budget is the parsed `timeoutsec` when it is a non-zero number, and 25 otherwise. It is never 0. |
| Harvest.NowCursor | api/index.js:63 | The default cursor is `Date.now() + 1` in seconds, rounded to the nearest second with halves rounded up. |
| Harvest.StartCursor | api/index.js:63 | The start cursor is the parsed `before_sec` when it is a non-zero number, and the now-derived second otherwise. |
| Harvest.RenderEntry | api/index.js:104-108 | A truthy `parent_id` throws a ReferenceError. Otherwise an entry is rendered exactly when `created_utc`, coerced to a number as `* 1000` does, is a number of a valid date; a NaN or out-of-range time throws a RangeError. The entry carries the coerced timestamp and the record's own `subreddit` and `body`, and the record's score exactly when that score is truthy. |
| Harvest.DecimalTextCoerces | api/index.js:106 | A timestamp sent as decimal text renders at the same time as the integer itself. |
| Harvest.FalsyTimeRendersAtEpoch | api/index.js:106 | A missing `created_utc` throws a RangeError, while a present but falsy one (null, 0, false, the empty string) renders at time 0. |
| Harvest.RenderPage | api/index.js:103-109 | Rendering a page succeeds exactly when every record renders. The result is one entry per record in page order. A failure carries the error of the first record that throws. |
| Harvest.RenderRecords | api/index.js:103-109 | The `forEach` loop returns what RenderPage gives. |
| Harvest.RenderFailureStops | api/index.js:103-109 | Once a prefix of the page throws, the whole page fails with that error. |
| Harvest.Iteration | api/index.js:79-112 | One iteration throws exactly when the fetch threw or a projected report record throws, and returns that message. It continues exactly when the page has records, the cursor is not stalled, and nothing throws. Otherwise the new cursor and accumulators are those Advance gives. |
| Harvest.HarvestLoop | api/index.js:73-113 | The number of iterations it runs is what Iterations gives. The requests it sends are those RequestsOf gives. It crashes exactly when the last iteration threw, and otherwise returns the state Run gives after those iterations. |
| Harvest.GreedyComments | api/index.js:58-123 | An empty username gives the 500 response "No user ID!!!" and sends no request. Otherwise the number of requests is what Harvested gives, each one as RequestsOf builds it, and the answer is what Conclude gives. |
| Harvest.RequestAt | api/index.js:74-78 | The j-th request carries the j-th page size, the username, and the cursor reached after j iterations. |
| HarvestProperties.IterationsStop | api/index.js:73-99 | The iterations that run pass the loop test. All but the last proceed without throwing. The loop ends only after a stop or throw, at the budget or closed flag, or when no steps are left. |
| HarvestProperties.IterationsIsFirstStop | api/index.js:73-99 | A number of iterations matches that description exactly when it is the number Iterations gives. |
| HarvestProperties.EarlierStepsDoNotThrow | api/index.js:81-112 | Every iteration before the last proceeds to the projection and does not throw. |
| HarvestProperties.StallStep | api/index.js:94-98 | A page with no truthy timestamp stops the loop without projecting anything. The cursor becomes `max_date`. |
| HarvestProperties.ProceedingCursor | api/index.js:94-98 | A page that proceeds moves the cursor to its smallest truthy timestamp, which is non-zero and below `max_date`. |
| HarvestProperties.EmptyOrErrorStep | api/index.js:81-91 | An empty or absent page stops the loop and leaves the state unchanged. An upstream error adds exactly one `{error}` entry to `data` in structured mode, or one error marker to the report in report mode. The count never changes. |
| HarvestProperties.ProjectStep | api/index.js:103-111 | A projected page sets the cursor to the page minimum. In structured mode `data` gains the page's sparse records in order. In report mode the report gains one rendered entry per record in order, and the count grows by the number of records. |
| HarvestProperties.ModesSeparate | api/index.js:103-111 | Structured mode never touches the report or its count. Report mode never touches `data`. |
| HarvestProperties.StructuredDataClean | api/index.js:111 | In structured mode, every record in `data` is an `{error}` entry or has only truthy fields. |
| HarvestProperties.ReportCountsEntries | api/index.js:104-108 | When no iteration throws, `body_count` equals the number of rendered comments in the report. |
| HarvestProperties.StructuredOutcome | api/index.js:115-121 | A structured answer is sent exactly when there is a username, the start cursor makes a valid date, and the last iteration did not throw. Its `count` equals the length of `data`, its cursor is the loop's cursor, and only error entries may have falsy fields. |
| HarvestProperties.ReportOutcome | api/index.js:115-121 | A report is sent exactly when there is a username, both cursors make valid dates, and nothing threw. Its count is the number of rendered comments, and it starts from the start cursor. |
| HarvestProperties.BudgetExit | api/index.js:73-119 | When the loop ends at its test after iterations that all proceeded, the answer is the state built up so far. |
| HarvestProperties.FirstPageEmpty | api/index.js:81-91 | A first page with no records and no error, whether `data` is an empty array or absent, costs one request and answers with the start cursor and nothing harvested. |
| HarvestProperties.FirstPageError | api/index.js:81-91 | An upstream error on the first page is the single harvested item. It counts as one record in structured mode and none in report mode. |
| HarvestProperties.CursorBeforeIteration | api/index.js:74-95 | The first request carries the start cursor. Each later request carries the smallest timestamp of the page before it. |
| HarvestProperties.RequestShape | api/index.js:74-78 | Read back, each request of a run is the comments endpoint with exactly `size` (in 50..59), `author` (the username) and `before` (the cursor at the start of that iteration). |

## Left out

- Express setup, the `/first` and `/latest` routes and `app.listen` (api/index.js:1-3, 23-56, 125-158): this is HTTP plumbing. The projection at :48 is modelled as Records.Sparse.
- Network I/O via `fetch` and `.json()` becomes the `Page` of each step.
  - A response with a non-empty `data` array is `Data`.
  - One without records (no `data`, or an empty array) but with a truthy `error` is `UpstreamError`.
  - One with neither records nor an error is `EmptyOrAbsent`, or equally `Data` with an empty list: the two behave the same, and HarvestProperties.FirstPageEmpty covers both.
  - A transport or parse failure, or a `null` body (reading `j.error` then throws), is `Thrown` with the exception text.
- Platform calls become inputs: `Date.now()` (start, loop test, `max_date`), `req.closed`, `Math.random()` (the page size in 50..59), and the results of `parseInt`.
- The environment is a finite list of steps. Running out of steps ends the loop as a failed loop test would; the real loop is bounded only by the clock.
- Exact HTML text and `console.log`.
  - The report is modelled as a list of entries (timestamp, subreddit, optional score, body) and error markers.
  - `toISOString` is modelled only by whether it throws, which is the TimeClip range of ±8.64e15 ms. The ISO text itself is not produced.
  - Text interpolation of values is not modelled.
- The `link` at api/index.js:105 is never shown. It reads the undefined variable `parent_id`, so the model keeps its only visible effect: a record with a truthy `parent_id` makes report mode fail with a ReferenceError.
- Records.Sparse: field values are limited to null, integers, strings and booleans. Objects, arrays and floating-point numbers are not modelled.
- Cursor.Stamp: a truthy `created_utc` that is not an integer (a numeric string, `true`) counts as absent in the `reduce`. JavaScript's `Math.min` would coerce it, or turn the cursor into NaN, which the model does not represent.
- Harvest.ToNumber: of JavaScript's string-to-number conversion, only the empty string and an optional `-` followed by decimal digits are modelled. Surrounding whitespace, a leading `+`, fractions, exponents, `0x` literals and `Infinity` are treated as NaN, so Harvest.RenderEntry reports a RangeError for such a timestamp where JavaScript may render it.
- Records.Sparse: `Object.entries` lists integer-like keys first. Records are modelled as field lists already in entry order.
- Query.Decimal writes every integer in positional decimal. JavaScript switches to exponent notation from 1e21, which the cursor and page size never reach in practice.
- Query.ParseSerialize: the reader decodes one byte per `%XX` escape (either case of hexadecimal digit) and does not reassemble UTF-8 sequences, so the round trip is stated for ASCII names and values only. Every name and value of the loop request is ASCII when the username is.
- The code does not promise that the cursor decreases between iterations. It is never checked, so no such property is stated.
- Numbers are unbounded integers. JavaScript doubles are exact only up to 2^53, which the timestamps stay below.
