/**
 * The greedy harvest `greedyComments` of api/index.js:58-123. The upstream
 * service, the clock, `req.closed` and `Math.random` become a finite list of
 * steps, one per loop iteration; `parseInt` becomes its optional result.
 * The method GreedyComments is the loop itself; the functions below it
 * describe, iteration by iteration, what it computes, and the lemmas state
 * what that description promises.
 */
module Harvest {
  import opened Wrappers
  import opened Records
  import Cursor
  import Query

  /** The budget used when `timeoutsec` is absent or parses to NaN or 0 (api/index.js:72). */
  const DefaultTimeoutSec: int := 25

  const NoUserMessage: string := "No user ID!!!"

  /** What `${error}` gives for the RangeError of `toISOString` on an invalid date. */
  const InvalidTimeMessage: string := "RangeError: Invalid time value"

  /** What `${error}` gives for the undefined `parent_id` at api/index.js:105. */
  const ParentIdMessage: string := "ReferenceError: parent_id is not defined"

  /** The largest magnitude of an ECMAScript time value, in milliseconds (TimeClip). */
  const MaxTimeMs: int := 8640000000000000

  /** The decoded upstream response of one iteration. */
  datatype Page =
    | Data(records: seq<JsonObject>)   // `j.data`; an empty one acts as EmptyOrAbsent
    | UpstreamError(message: string)   // no `j.data` (or an empty one) and a truthy `j.error`
    | EmptyOrAbsent                    // neither records nor an error
    | Thrown(reason: string)           // `fetch` or `.json()` threw, or the body was `null`

  /**
   * What the environment supplies to one iteration: the elapsed time and the
   * closed flag read by the loop test, the random page size, the response,
   * and `Date.now() + 1` read at api/index.js:94.
   */
  datatype Step = Step(elapsedMs: int, closed: bool, size: Query.PageSize, page: Page, maxDate: int)

  /**
   * One call: the username, the parsed `timeoutsec` (None for NaN),
   * the report flag, `parseInt(before_sec)` and `Date.now()` at api/index.js:63.
   */
  datatype Request = Request(username: string, timeoutParsed: Option<int>, bodyOnly: bool,
                             beforeParsed: Option<int>, nowMs: int)

  /** One piece of the report body: a rendered comment or an inline backend error. */
  datatype ReportItem =
    | Entry(seconds: int, subreddit: Option<Value>, score: Option<Value>, body: Option<Value>)
    | ErrorMarker(message: string)

  /** What the handler sends. */
  datatype Outcome =
    | ServerError(message: string)
    | Structured(latestComment: int, data: seq<Record>, username: string, count: nat)
    | Report(username: string, fromCursor: int, items: seq<ReportItem>, count: nat, cursor: int)

  /** The budget in seconds (api/index.js:72): the parsed `timeoutsec` unless it is NaN or 0, else the default. */
  function TimeoutSeconds(parsed: Option<int>): (t: int)
    ensures t != 0
    ensures t == DefaultTimeoutSec || parsed == Some(t)
    ensures parsed.Some? && parsed.value != 0 ==> t == parsed.value
  {
    if parsed.Some? && parsed.value != 0 then parsed.value else DefaultTimeoutSec
  }

  /** The second nearest to one millisecond after now, halves rounded up (api/index.js:63). */
  function NowCursor(nowMs: int): (c: int)
    ensures c * 1000 - 500 <= nowMs + 1 < c * 1000 + 500
  {
    (nowMs + 501) / 1000
  }

  /** The start cursor (api/index.js:63): the parsed `before_sec` unless it is NaN or 0, else NowCursor. */
  function StartCursor(beforeParsed: Option<int>, nowMs: int): (c: int)
    ensures c != 0 || NowCursor(nowMs) == 0
    ensures c == NowCursor(nowMs) || beforeParsed == Some(c)
    ensures beforeParsed.Some? && beforeParsed.value != 0 ==> c == beforeParsed.value
  {
    if beforeParsed.Some? && beforeParsed.value != 0 then beforeParsed.value else NowCursor(nowMs)
  }

  /** A time of `seconds * 1000` milliseconds is a valid date, so `toISOString` does not throw. */
  predicate ValidDate(seconds: int) {
    -MaxTimeMs <= seconds * 1000 <= MaxTimeMs
  }

  /**
   * The numeric coercion `*` applies to a field value, with None standing
   * for both `undefined` and NaN: null, false and the empty string give 0,
   * true gives 1, a number stays itself, and a string of an optional `-`
   * followed by decimal digits gives the integer it denotes.
   */
  function ToNumber(v: Option<Value>): (r: Option<int>)
    ensures v.None? ==> r.None?
    ensures v.Some? && !Truthy(v.value) ==> r == Some(0)
    ensures v.Some? && v.value.Int? ==> r == Some(v.value.n)
    ensures v.Some? && v.value.Bool? ==> r == Some(if v.value.b then 1 else 0)
    ensures v.Some? && v.value.Str? && v.value.s != "" ==> r == Query.ParseDecimal(v.value.s)
  {
    match v
    case None => None
    case Some(Null) => Some(0)
    case Some(Bool(b)) => if b then Some(1) else Some(0)
    case Some(Int(n)) => Some(n)
    case Some(Str(s)) => if s == "" then Some(0) else Query.ParseDecimal(s)
  }

  /** A timestamp written as decimal text coerces to the same number as the integer itself. */
  lemma DecimalTextCoerces(n: int)
    ensures ToNumber(Some(Str(Query.Decimal(n)))) == ToNumber(Some(Int(n))) == Some(n)
  {
    Query.DecimalRoundTrip(n);
  }

  /**
   * The body of the report `forEach` for one record: the `link` computation
   * throws when `parent_id` is truthy, `toISOString` throws when the
   * timestamp, coerced to a number, is NaN or out of range, and otherwise
   * one entry is rendered.
   */
  function RenderEntry(e: Record): (r: Result<ReportItem, string>)
    ensures TruthyField(e, "parent_id") ==> r == Failure(ParentIdMessage)
    ensures r.Success? <==> !TruthyField(e, "parent_id") && ToNumber(Get(e, "created_utc")).Some?
                            && ValidDate(ToNumber(Get(e, "created_utc")).value)
    ensures r.Failure? && !TruthyField(e, "parent_id") ==> r == Failure(InvalidTimeMessage)
    ensures r.Success? ==> r.value.Entry? && ToNumber(Get(e, "created_utc")) == Some(r.value.seconds)
    ensures r.Success? ==> (r.value.score.Some? <==> TruthyField(e, "score"))
    ensures r.Success? ==> r.value.subreddit == Get(e, "subreddit") && r.value.body == Get(e, "body")
                           && r.value.score == (if TruthyField(e, "score") then Get(e, "score") else None)
  {
    if TruthyField(e, "parent_id") then Failure(ParentIdMessage)
    else match ToNumber(Get(e, "created_utc"))
      case Some(n) =>
        if ValidDate(n) then
          var score := if TruthyField(e, "score") then Get(e, "score") else None;
          Success(Entry(n, Get(e, "subreddit"), score, Get(e, "body")))
        else Failure(InvalidTimeMessage)
      case None => Failure(InvalidTimeMessage)
  }

  /**
   * A record whose `created_utc` is missing renders to the RangeError, while
   * one whose `created_utc` is falsy but present renders at the epoch.
   */
  lemma {:induction false} FalsyTimeRendersAtEpoch(e: Record)
    requires !TruthyField(e, "parent_id")
    ensures Get(e, "created_utc").None? ==> RenderEntry(e) == Failure(InvalidTimeMessage)
    ensures Get(e, "created_utc").Some? && !Truthy(Get(e, "created_utc").value)
            ==> RenderEntry(e).Success? && RenderEntry(e).value.seconds == 0
  {
    assert ValidDate(0);
  }

  /**
   * The whole report `forEach` over a page: one entry per record in page
   * order, or the error of the first record that throws.
   */
  function RenderPage(rs: seq<Record>): (r: Result<seq<ReportItem>, string>)
    ensures r.Success? <==> forall i :: 0 <= i < |rs| ==> RenderEntry(rs[i]).Success?
    ensures r.Success? ==> |r.value| == |rs| && forall i :: 0 <= i < |rs| ==> r.value[i] == RenderEntry(rs[i]).value
    ensures r.Failure? ==> exists i :: 0 <= i < |rs| && RenderEntry(rs[i]) == Failure(r.error)
                                       && forall j :: 0 <= j < i ==> RenderEntry(rs[j]).Success?
    decreases |rs|
  {
    if rs == [] then Success([])
    else
      var init := rs[..|rs| - 1];
      assert forall i :: 0 <= i < |init| ==> init[i] == rs[i];
      match RenderPage(init)
      case Failure(err) => Failure(err)
      case Success(v) =>
        match RenderEntry(rs[|rs| - 1])
        case Failure(err) => Failure(err)
        case Success(x) => Success(v + [x])
  }

  /** The `forEach` of api/index.js:104-109, one record at a time. */
  method RenderRecords(rs: seq<Record>) returns (r: Result<seq<ReportItem>, string>)
    ensures r == RenderPage(rs)
  {
    var entries: seq<ReportItem> := [];
    var j := 0;
    while j < |rs|
      invariant 0 <= j <= |rs|
      invariant RenderPage(rs[..j]) == Success(entries)
    {
      assert rs[..j + 1][..j] == rs[..j];
      var e := RenderEntry(rs[j]);
      if e.Failure? {
        RenderFailureStops(rs, j + 1);
        return Failure(e.error);
      }
      entries := entries + [e.value];
      j := j + 1;
    }
    assert rs[..j] == rs;
    r := Success(entries);
  }

  /** A failure rendering a prefix of the page is the failure of the whole page. */
  lemma {:induction false} RenderFailureStops(rs: seq<Record>, n: nat)
    requires n <= |rs| && RenderPage(rs[..n]).Failure?
    ensures RenderPage(rs) == RenderPage(rs[..n])
    decreases |rs| - n
  {
    if n < |rs| {
      assert rs[..n + 1][..n] == rs[..n];
      RenderFailureStops(rs, n + 1);
    } else {
      assert rs[..n] == rs;
    }
  }

  // One iteration, described as a function of its step.

  /** The loop test of api/index.js:73: the elapsed time is within the budget and the request is still open. */
  predicate Admits(timeoutSec: int, st: Step) {
    st.elapsedMs <= timeoutSec * 1000 && !st.closed
  }

  /** The page carries a non-empty `data` list, so the test at api/index.js:81 does not stop the loop. */
  predicate HasRecords(st: Step) {
    st.page.Data? && |st.page.records| > 0
  }

  /** The iteration reaches the projection: the page has records and the new cursor is not stalled. */
  predicate Proceeds(st: Step) {
    HasRecords(st) && !Cursor.Stalled(Cursor.MinCursor(st.page.records, st.maxDate), st.maxDate)
  }

  /** The iteration throws: the fetch failed, or a record of a projected page fails to render. */
  predicate Throws(bodyOnly: bool, st: Step) {
    st.page.Thrown? || (bodyOnly && Proceeds(st) && RenderPage(st.page.records).Failure?)
  }

  function ThrowMessage(bodyOnly: bool, st: Step): string
    requires Throws(bodyOnly, st)
  {
    if st.page.Thrown? then st.page.reason else RenderPage(st.page.records).error
  }

  /** `latest_comment` after the iteration: recomputed whenever the page has records. */
  function NextCursor(cursor: int, st: Step): int {
    if HasRecords(st) then Cursor.MinCursor(st.page.records, st.maxDate) else cursor
  }

  /** What the iteration appends to `data` (structured mode only). */
  function StepData(bodyOnly: bool, st: Step): seq<Record> {
    if bodyOnly then []
    else if Proceeds(st) then MapSparse(st.page.records)
    else if st.page.UpstreamError? then [ErrorEntry(st.page.message)]
    else []
  }

  /** What the iteration appends to the report `body` (report mode only). */
  function StepItems(bodyOnly: bool, st: Step): seq<ReportItem> {
    if !bodyOnly then []
    else if Proceeds(st) then (match RenderPage(st.page.records) case Success(v) => v case Failure(_) => [])
    else if st.page.UpstreamError? then [ErrorMarker(st.page.message)]
    else []
  }

  /** How much the iteration adds to `body_count`. */
  function StepCount(bodyOnly: bool, st: Step): nat {
    if bodyOnly && Proceeds(st) then |st.page.records| else 0
  }

  // The loop state after a run of iterations.

  /** The variables the loop updates: `latest_comment`, `data`, `body` and `body_count`. */
  datatype LoopState = LoopState(cursor: int, data: seq<Record>, items: seq<ReportItem>, count: nat)

  /** The state after an iteration that does not throw. */
  function Advance(bodyOnly: bool, s: LoopState, st: Step): LoopState {
    LoopState(NextCursor(s.cursor, st), s.data + StepData(bodyOnly, st),
              s.items + StepItems(bodyOnly, st), s.count + StepCount(bodyOnly, st))
  }

  /** The state after the iterations ss, from the start cursor and empty accumulators. */
  function Run(bodyOnly: bool, start: int, ss: seq<Step>): LoopState
    decreases |ss|
  {
    if ss == [] then LoopState(start, [], [], 0)
    else Advance(bodyOnly, Run(bodyOnly, start, ss[..|ss| - 1]), ss[|ss| - 1])
  }

  /** How many iterations start: each one is admitted, and the loop goes on only after one that proceeds without throwing. */
  function Iterations(timeoutSec: int, bodyOnly: bool, ss: seq<Step>): (k: nat)
    ensures k <= |ss|
    decreases |ss|
  {
    if ss == [] || !Admits(timeoutSec, ss[0]) then 0
    else if !Proceeds(ss[0]) || Throws(bodyOnly, ss[0]) then 1
    else 1 + Iterations(timeoutSec, bodyOnly, ss[1..])
  }

  /** Iterations (and so upstream requests) of a whole call: none when the call fails before the loop. */
  function Harvested(req: Request, steps: seq<Step>): (k: nat)
    ensures k <= |steps|
  {
    if req.username == "" || !ValidDate(StartCursor(req.beforeParsed, req.nowMs)) then 0
    else Iterations(TimeoutSeconds(req.timeoutParsed), req.bodyOnly, steps)
  }

  /** What the handler sends after k iterations. */
  function Conclude(req: Request, steps: seq<Step>, k: nat): Outcome
    requires k <= |steps|
  {
    var start := StartCursor(req.beforeParsed, req.nowMs);
    if req.username == "" then ServerError(NoUserMessage)
    else if !ValidDate(start) then ServerError(InvalidTimeMessage)
    else if k > 0 && Throws(req.bodyOnly, steps[k - 1]) then ServerError(ThrowMessage(req.bodyOnly, steps[k - 1]))
    else
      var s := Run(req.bodyOnly, start, steps[..k]);
      if req.bodyOnly then
        if ValidDate(s.cursor) then Report(req.username, start, s.items, s.count, s.cursor)
        else ServerError(InvalidTimeMessage)
      else Structured(s.cursor, s.data, req.username, |s.data|)
  }

  /** Extending a run by one step applies that step's effect. */
  lemma RunSnoc(bodyOnly: bool, start: int, ss: seq<Step>, n: nat)
    requires n < |ss|
    ensures Run(bodyOnly, start, ss[..n + 1]) == Advance(bodyOnly, Run(bodyOnly, start, ss[..n]), ss[n])
  {
    assert ss[..n + 1][..n] == ss[..n];
  }

  lemma IterationsUnfold(timeoutSec: int, bodyOnly: bool, ss: seq<Step>, i: nat)
    requires i <= |ss|
    ensures i == |ss| || !Admits(timeoutSec, ss[i]) ==> Iterations(timeoutSec, bodyOnly, ss[i..]) == 0
    ensures i < |ss| && Admits(timeoutSec, ss[i]) && (!Proceeds(ss[i]) || Throws(bodyOnly, ss[i]))
            ==> Iterations(timeoutSec, bodyOnly, ss[i..]) == 1
    ensures i < |ss| && Admits(timeoutSec, ss[i]) && Proceeds(ss[i]) && !Throws(bodyOnly, ss[i])
            ==> Iterations(timeoutSec, bodyOnly, ss[i..]) == 1 + Iterations(timeoutSec, bodyOnly, ss[i + 1..])
  {
    if i < |ss| {
      assert ss[i..][0] == ss[i] && ss[i..][1..] == ss[i + 1..];
    }
  }

  /** How an iteration ends: on to the next one, `break`, or an exception. */
  datatype Status = Continue | Break | Crash(message: string)

  /**
   * The body of the loop at api/index.js:79-112 after the request is built:
   * classify the response, advance the cursor, and project the page in the
   * current mode.
   */
  method Iteration(bodyOnly: bool, st: Step, s: LoopState) returns (status: Status, s': LoopState)
    ensures status.Crash? <==> Throws(bodyOnly, st)
    ensures status.Crash? ==> status.message == ThrowMessage(bodyOnly, st)
    ensures status == Continue <==> Proceeds(st) && !Throws(bodyOnly, st)
    ensures !status.Crash? ==> s' == Advance(bodyOnly, s, st)
  {
    s' := s;
    if st.page.Thrown? {
      return Crash(st.page.reason), s';
    }
    if !HasRecords(st) {
      if st.page.UpstreamError? {
        if bodyOnly {
          s' := s'.(items := s.items + [ErrorMarker(st.page.message)]);
        } else {
          s' := s'.(data := s.data + [ErrorEntry(st.page.message)]);
        }
      }
      return Break, s';
    }
    var latest := Cursor.MinCursor(st.page.records, st.maxDate);
    s' := s'.(cursor := latest);
    if Cursor.Stalled(latest, st.maxDate) {
      return Break, s';
    }
    if bodyOnly {
      var rendered := RenderRecords(st.page.records);
      if rendered.Failure? {
        return Crash(rendered.error), s';
      }
      s' := s'.(items := s.items + rendered.value, count := s.count + |st.page.records|);
    } else {
      s' := s'.(data := s.data + MapSparse(st.page.records));
    }
    status := Continue;
  }

  /** The requests of a run of iterations: each from its page size and the cursor at its start. */
  function RequestsOf(bodyOnly: bool, username: string, start: int, ss: seq<Step>): (urls: seq<string>)
    ensures |urls| == |ss|
    decreases |ss|
  {
    if ss == [] then []
    else
      var init := ss[..|ss| - 1];
      RequestsOf(bodyOnly, username, start, init)
        + [Query.LoopRequest(ss[|ss| - 1].size, username, Run(bodyOnly, start, init).cursor)]
  }

  lemma RequestsSnoc(bodyOnly: bool, username: string, start: int, ss: seq<Step>, n: nat)
    requires n < |ss|
    ensures RequestsOf(bodyOnly, username, start, ss[..n + 1])
         == RequestsOf(bodyOnly, username, start, ss[..n])
            + [Query.LoopRequest(ss[n].size, username, Run(bodyOnly, start, ss[..n]).cursor)]
  {
    assert ss[..n + 1][..n] == ss[..n];
  }

  /** The j-th request carries the j-th page size, the username and the cursor reached after j iterations. */
  lemma {:induction false} RequestAt(bodyOnly: bool, username: string, start: int, ss: seq<Step>, j: nat)
    requires j < |ss|
    ensures RequestsOf(bodyOnly, username, start, ss)[j]
         == Query.LoopRequest(ss[j].size, username, Run(bodyOnly, start, ss[..j]).cursor)
    decreases |ss|
  {
    var init := ss[..|ss| - 1];
    if j < |init| {
      RequestAt(bodyOnly, username, start, init, j);
      assert init[..j] == ss[..j] && init[j] == ss[j];
    }
  }

  /** After k iterations that did not end in an exception, the handler sends the loop state in the chosen mode. */
  lemma ConcludeNormal(req: Request, steps: seq<Step>, k: nat, s: LoopState)
    requires k <= |steps| && req.username != ""
    requires ValidDate(StartCursor(req.beforeParsed, req.nowMs))
    requires k > 0 ==> !Throws(req.bodyOnly, steps[k - 1])
    requires s == Run(req.bodyOnly, StartCursor(req.beforeParsed, req.nowMs), steps[..k])
    ensures Conclude(req, steps, k)
         == if !req.bodyOnly then Structured(s.cursor, s.data, req.username, |s.data|)
            else if ValidDate(s.cursor) then Report(req.username, StartCursor(req.beforeParsed, req.nowMs), s.items, s.count, s.cursor)
            else ServerError(InvalidTimeMessage)
  {
  }

  /**
   * The `while` loop of api/index.js:73-113, from the start cursor and empty
   * accumulators. It reports how many iterations started, the requests they
   * sent, the exception that ended the last one if any, and otherwise the
   * loop state.
   */
  method HarvestLoop(bodyOnly: bool, timeout: int, username: string, start: int, steps: seq<Step>)
    returns (crash: Option<string>, k: nat, urls: seq<string>, s: LoopState)
    ensures k == Iterations(timeout, bodyOnly, steps)
    ensures urls == RequestsOf(bodyOnly, username, start, steps[..k])
    ensures crash.Some? <==> k > 0 && Throws(bodyOnly, steps[k - 1])
    ensures crash.Some? ==> crash.value == ThrowMessage(bodyOnly, steps[k - 1])
    ensures crash.None? ==> s == Run(bodyOnly, start, steps[..k])
  {
    s := LoopState(start, [], [], 0);
    urls := [];
    var i := 0;
    while i < |steps| && Admits(timeout, steps[i])
      invariant 0 <= i <= |steps|
      invariant Iterations(timeout, bodyOnly, steps) == i + Iterations(timeout, bodyOnly, steps[i..])
      invariant i > 0 ==> !Throws(bodyOnly, steps[i - 1])
      invariant s == Run(bodyOnly, start, steps[..i])
      invariant urls == RequestsOf(bodyOnly, username, start, steps[..i])
      decreases |steps| - i
    {
      RunSnoc(bodyOnly, start, steps, i);
      RequestsSnoc(bodyOnly, username, start, steps, i);
      IterationsUnfold(timeout, bodyOnly, steps, i);
      urls := urls + [Query.LoopRequest(steps[i].size, username, s.cursor)];
      var status;
      status, s := Iteration(bodyOnly, steps[i], s);
      i := i + 1;
      if status.Crash? {
        assert Throws(bodyOnly, steps[i - 1]) && status.message == ThrowMessage(bodyOnly, steps[i - 1]);
        assert Iterations(timeout, bodyOnly, steps) == i;
        return Some(status.message), i, urls, s;
      }
      if status == Break {
        assert Iterations(timeout, bodyOnly, steps) == i;
        break;
      }
    }
    IterationsUnfold(timeout, bodyOnly, steps, i);
    crash, k := None, i;
  }

  /**
   * `greedyComments`: the sequence of requests it sends and the outcome it
   * produces, for the environment given by steps.
   */
  method GreedyComments(req: Request, steps: seq<Step>) returns (out: Outcome, urls: seq<string>)
    ensures req.username == "" ==> out == ServerError(NoUserMessage) && urls == []
    ensures |urls| == Harvested(req, steps)
    ensures out == Conclude(req, steps, |urls|)
    ensures urls == RequestsOf(req.bodyOnly, req.username, StartCursor(req.beforeParsed, req.nowMs), steps[..|urls|])
  {
    if req.username == "" {
      return ServerError(NoUserMessage), [];
    }
    var start := StartCursor(req.beforeParsed, req.nowMs);
    // the report header at api/index.js:67 is built in both modes
    if !ValidDate(start) {
      return ServerError(InvalidTimeMessage), [];
    }
    var timeout := TimeoutSeconds(req.timeoutParsed);
    var crash, k, s;
    crash, k, urls, s := HarvestLoop(req.bodyOnly, timeout, req.username, start, steps);
    if crash.Some? {
      return ServerError(crash.value), urls;
    }
    ConcludeNormal(req, steps, k, s);
    if req.bodyOnly {
      if ValidDate(s.cursor) {
        out := Report(req.username, start, s.items, s.count, s.cursor);
      } else {
        out := ServerError(InvalidTimeMessage);
      }
    } else {
      out := Structured(s.cursor, s.data, req.username, |s.data|);
    }
  }
}
