/**
 * What the description of `greedyComments` in module Harvest promises: when
 * the loop stops, what one iteration does to the loop state in each case,
 * what the outcome holds in each mode, and what each request says.
 */
module HarvestProperties {
  import opened Wrappers
  import opened Records
  import opened Harvest
  import Cursor
  import Query

  // When the loop stops.

  /**
   * k iterations start: the first k steps pass the loop test, all but the
   * last of them proceed without throwing, and the loop ends after the k-th,
   * either because that one stopped or threw, or because the next step fails
   * the loop test (or there is none).
   */
  predicate StopsAfter(timeoutSec: int, bodyOnly: bool, ss: seq<Step>, k: nat) {
    && k <= |ss|
    && (forall j :: 0 <= j < k ==> Admits(timeoutSec, ss[j]))
    && (forall j :: 0 <= j < k - 1 ==> Proceeds(ss[j]) && !Throws(bodyOnly, ss[j]))
    && ((k == 0 || (Proceeds(ss[k - 1]) && !Throws(bodyOnly, ss[k - 1])))
        ==> k == |ss| || !Admits(timeoutSec, ss[k]))
  }

  lemma {:induction false} IterationsStop(timeoutSec: int, bodyOnly: bool, ss: seq<Step>)
    ensures StopsAfter(timeoutSec, bodyOnly, ss, Iterations(timeoutSec, bodyOnly, ss))
    decreases |ss|
  {
    if ss != [] && Admits(timeoutSec, ss[0]) && Proceeds(ss[0]) && !Throws(bodyOnly, ss[0]) {
      var tail := ss[1..];
      IterationsStop(timeoutSec, bodyOnly, tail);
      var k := Iterations(timeoutSec, bodyOnly, ss);
      assert k == 1 + Iterations(timeoutSec, bodyOnly, tail);
      forall j | 0 <= j < k ensures Admits(timeoutSec, ss[j]) {
        if j > 0 {
          assert ss[j] == tail[j - 1];
        }
      }
      forall j | 0 <= j < k - 1 ensures Proceeds(ss[j]) && !Throws(bodyOnly, ss[j]) {
        if j > 0 {
          assert ss[j] == tail[j - 1];
        }
      }
      if k - 1 > 0 {
        assert ss[k - 1] == tail[k - 2];
      }
      if k < |ss| {
        assert ss[k] == tail[k - 1];
      }
    }
  }

  lemma StopsAfterUnique(timeoutSec: int, bodyOnly: bool, ss: seq<Step>, k: nat, k': nat)
    requires StopsAfter(timeoutSec, bodyOnly, ss, k) && StopsAfter(timeoutSec, bodyOnly, ss, k')
    requires k <= k'
    ensures k == k'
  {
  }

  /** The number of iterations is exactly the one the loop test and the stop conditions allow. */
  lemma IterationsIsFirstStop(timeoutSec: int, bodyOnly: bool, ss: seq<Step>, k: nat)
    ensures StopsAfter(timeoutSec, bodyOnly, ss, k) <==> k == Iterations(timeoutSec, bodyOnly, ss)
  {
    var n := Iterations(timeoutSec, bodyOnly, ss);
    IterationsStop(timeoutSec, bodyOnly, ss);
    if StopsAfter(timeoutSec, bodyOnly, ss, k) {
      if k <= n {
        StopsAfterUnique(timeoutSec, bodyOnly, ss, k, n);
      } else {
        StopsAfterUnique(timeoutSec, bodyOnly, ss, n, k);
      }
    }
  }

  /** No step of a finished run threw, except possibly the last. */
  lemma EarlierStepsDoNotThrow(timeoutSec: int, bodyOnly: bool, ss: seq<Step>)
    ensures var k := Iterations(timeoutSec, bodyOnly, ss);
      forall j :: 0 <= j < k - 1 ==> Proceeds(ss[j]) && !Throws(bodyOnly, ss[j])
  {
    IterationsStop(timeoutSec, bodyOnly, ss);
  }

  // What one iteration does to the loop state.

  /**
   * A page whose records carry no truthy timestamp stalls the cursor at the
   * sentinel: the loop stops, nothing is projected, and the cursor becomes
   * `max_date`.
   */
  lemma StallStep(bodyOnly: bool, s: LoopState, st: Step)
    requires HasRecords(st) && !Cursor.HasStamp(st.page.records)
    ensures !Proceeds(st) && !Throws(bodyOnly, st)
    ensures Advance(bodyOnly, s, st) == s.(cursor := st.maxDate)
  {
    Cursor.NoStampIsSentinel(st.page.records, st.maxDate);
  }

  /**
   * A page that goes on to the projection moves the cursor to its smallest
   * timestamp, which lies below the sentinel.
   */
  lemma ProceedingCursor(s: LoopState, st: Step)
    requires Proceeds(st)
    ensures var c := NextCursor(s.cursor, st); var rs := st.page.records;
      && c < st.maxDate && c != 0
      && (exists i :: 0 <= i < |rs| && Cursor.Stamp(rs[i]) == Some(c))
      && (forall i :: 0 <= i < |rs| && Cursor.Stamp(rs[i]).Some? ==> c <= Cursor.Stamp(rs[i]).value)
  {
    Cursor.MinCursorIsMinimum(st.page.records, st.maxDate);
  }

  /**
   * An empty or absent page stops the loop: the state is unchanged, except
   * that an upstream error adds one error entry to `data` or one error
   * marker to the report, and the report count stays as it is.
   */
  lemma EmptyOrErrorStep(bodyOnly: bool, s: LoopState, st: Step)
    requires !HasRecords(st) && !st.page.Thrown?
    ensures !Proceeds(st) && !Throws(bodyOnly, st)
    ensures Advance(bodyOnly, s, st)
         == if !st.page.UpstreamError? then s
            else if bodyOnly then s.(items := s.items + [ErrorMarker(st.page.message)])
            else s.(data := s.data + [ErrorEntry(st.page.message)])
  {
  }

  /**
   * A projected page: in structured mode `data` grows by the page's records
   * in order, each without its falsy fields; in report mode the report grows
   * by one rendered entry per record in order and the count by the number
   * of records. The other mode's accumulators stay as they are.
   */
  lemma ProjectStep(bodyOnly: bool, s: LoopState, st: Step)
    requires Proceeds(st) && !Throws(bodyOnly, st)
    ensures var rs := st.page.records; var s' := Advance(bodyOnly, s, st);
      && s'.cursor == Cursor.MinCursor(rs, st.maxDate)
      && (!bodyOnly ==> && |s'.data| == |s.data| + |rs| && s'.data[..|s.data|] == s.data
                        && (forall i :: 0 <= i < |rs| ==> s'.data[|s.data| + i] == Sparse(rs[i]))
                        && s'.items == s.items && s'.count == s.count)
      && (bodyOnly ==> && |s'.items| == |s.items| + |rs| && s'.items[..|s.items|] == s.items
                       && (forall i :: 0 <= i < |rs| ==> RenderEntry(rs[i]) == Success(s'.items[|s.items| + i]))
                       && s'.count == s.count + |rs| && s'.data == s.data)
  {
    var rs := st.page.records;
    var s' := Advance(bodyOnly, s, st);
    if bodyOnly {
      var v := RenderPage(rs).value;
      assert s'.items == s.items + v;
      forall i | 0 <= i < |rs| ensures RenderEntry(rs[i]) == Success(s'.items[|s.items| + i]) {
        assert s'.items[|s.items| + i] == v[i];
      }
    } else {
      var p := MapSparse(rs);
      assert s'.data == s.data + p;
      forall i | 0 <= i < |rs| ensures s'.data[|s.data| + i] == Sparse(rs[i]) {
        assert s'.data[|s.data| + i] == p[i];
      }
    }
  }

  // The accumulators over a whole run.

  /** Structured mode never touches the report, and report mode never touches `data`. */
  lemma {:induction false} ModesSeparate(bodyOnly: bool, start: int, ss: seq<Step>)
    ensures !bodyOnly ==> Run(bodyOnly, start, ss).items == [] && Run(bodyOnly, start, ss).count == 0
    ensures bodyOnly ==> Run(bodyOnly, start, ss).data == []
    decreases |ss|
  {
    if ss != [] {
      ModesSeparate(bodyOnly, start, ss[..|ss| - 1]);
    }
  }

  /** A record of the structured result: an `{error}` entry, or a record all of whose fields are truthy. */
  predicate Clean(r: Record) {
    IsErrorEntry(r) || AllTruthy(r)
  }

  /** Structured mode: no falsy field reaches `data` except in an error entry. */
  lemma {:induction false} StructuredDataClean(start: int, ss: seq<Step>)
    ensures forall r :: r in Run(false, start, ss).data ==> Clean(r)
    decreases |ss|
  {
    if ss != [] {
      var init := ss[..|ss| - 1];
      var st := ss[|ss| - 1];
      StructuredDataClean(start, init);
      var before := Run(false, start, init).data;
      var added := StepData(false, st);
      assert Run(false, start, ss).data == before + added;
      forall r | r in added ensures Clean(r) {
        if Proceeds(st) {
          var i :| 0 <= i < |added| && added[i] == r;
          assert r == Sparse(st.page.records[i]);
        } else {
          assert r == ErrorEntry(st.page.message);
        }
      }
    }
  }

  /** The rendered comments in a report. */
  function EntryCount(items: seq<ReportItem>): (n: nat)
    ensures n <= |items|
    decreases |items|
  {
    if items == [] then 0
    else EntryCount(items[..|items| - 1]) + (if items[|items| - 1].Entry? then 1 else 0)
  }

  lemma {:induction false} EntryCountAppend(a: seq<ReportItem>, b: seq<ReportItem>)
    ensures EntryCount(a + b) == EntryCount(a) + EntryCount(b)
    decreases |b|
  {
    if b != [] {
      var b' := b[..|b| - 1];
      assert (a + b)[..|a + b| - 1] == a + b';
      EntryCountAppend(a, b');
    } else {
      assert a + b == a;
    }
  }

  lemma {:induction false} AllEntries(items: seq<ReportItem>)
    requires forall i :: 0 <= i < |items| ==> items[i].Entry?
    ensures EntryCount(items) == |items|
    decreases |items|
  {
    if items != [] {
      AllEntries(items[..|items| - 1]);
    }
  }

  /** Report mode: when no iteration throws, `body_count` is the number of rendered comments in the report. */
  lemma {:induction false} ReportCountsEntries(start: int, ss: seq<Step>)
    requires forall j :: 0 <= j < |ss| ==> !Throws(true, ss[j])
    ensures Run(true, start, ss).count == EntryCount(Run(true, start, ss).items)
    decreases |ss|
  {
    if ss != [] {
      var init := ss[..|ss| - 1];
      var st := ss[|ss| - 1];
      ReportCountsEntries(start, init);
      var s := Run(true, start, init);
      var added := StepItems(true, st);
      EntryCountAppend(s.items, added);
      if Proceeds(st) {
        AllEntries(added);
      } else if st.page.UpstreamError? {
        assert added == [ErrorMarker(st.page.message)];
        assert EntryCount(added) == EntryCount([]) + 0;
      }
    }
  }

  // The outcome of a whole call.

  function StartOf(req: Request): int {
    StartCursor(req.beforeParsed, req.nowMs)
  }

  /**
   * The handler answers normally exactly when there is a username, the start
   * cursor makes a valid date and the last iteration did not throw; in
   * structured mode that answer is the loop state with `count` equal to the
   * length of `data`, and only error entries can have falsy fields.
   */
  lemma StructuredOutcome(req: Request, steps: seq<Step>)
    requires !req.bodyOnly
    ensures var k := Harvested(req, steps); var out := Conclude(req, steps, k);
      && (out.Structured? <==> req.username != "" && ValidDate(StartOf(req)) && !(k > 0 && Throws(false, steps[k - 1])))
      && (out.Structured? ==> && out.count == |out.data| && out.username == req.username
                              && out.latestComment == Run(false, StartOf(req), steps[..k]).cursor
                              && forall r :: r in out.data ==> Clean(r))
  {
    var k := Harvested(req, steps);
    StructuredDataClean(StartOf(req), steps[..k]);
  }

  /** Report mode: a report from the start cursor, whose count is the number of rendered comments in it. */
  lemma ReportOutcome(req: Request, steps: seq<Step>)
    requires req.bodyOnly
    ensures var k := Harvested(req, steps); var out := Conclude(req, steps, k);
      && (out.Report? <==> && req.username != "" && ValidDate(StartOf(req)) && !(k > 0 && Throws(true, steps[k - 1]))
                           && ValidDate(Run(true, StartOf(req), steps[..k]).cursor))
      && (out.Report? ==> && out.count == EntryCount(out.items) && out.username == req.username
                          && out.fromCursor == StartOf(req) && ValidDate(out.cursor))
  {
    var k := Harvested(req, steps);
    var out := Conclude(req, steps, k);
    if out.Report? {
      var timeout := TimeoutSeconds(req.timeoutParsed);
      assert k == Iterations(timeout, true, steps);
      EarlierStepsDoNotThrow(timeout, true, steps);
      var done := steps[..k];
      forall j | 0 <= j < |done| ensures !Throws(true, done[j]) {
        assert done[j] == steps[j];
      }
      ReportCountsEntries(StartOf(req), done);
    }
  }

  /**
   * A loop that ends at the loop test (budget spent, request closed, or
   * nothing more to fetch) after iterations that all proceeded returns the
   * state those iterations built up.
   */
  lemma BudgetExit(req: Request, steps: seq<Step>)
    requires req.username != "" && ValidDate(StartOf(req))
    requires var k := Harvested(req, steps);
      k == 0 || (Proceeds(steps[k - 1]) && !Throws(req.bodyOnly, steps[k - 1]))
    ensures var k := Harvested(req, steps); var s := Run(req.bodyOnly, StartOf(req), steps[..k]);
      && (k == |steps| || !Admits(TimeoutSeconds(req.timeoutParsed), steps[k]))
      && Conclude(req, steps, k)
         == if !req.bodyOnly then Structured(s.cursor, s.data, req.username, |s.data|)
            else if ValidDate(s.cursor) then Report(req.username, StartOf(req), s.items, s.count, s.cursor)
            else ServerError(InvalidTimeMessage)
  {
    IterationsStop(TimeoutSeconds(req.timeoutParsed), req.bodyOnly, steps);
  }

  /**
   * A first page without records and without an error (an empty `data`
   * array, or no `data` at all): one request, and the start cursor with
   * nothing harvested.
   */
  lemma FirstPageEmpty(req: Request, steps: seq<Step>)
    requires req.username != "" && ValidDate(StartOf(req))
    requires |steps| > 0 && Admits(TimeoutSeconds(req.timeoutParsed), steps[0])
    requires !HasRecords(steps[0]) && !steps[0].page.UpstreamError? && !steps[0].page.Thrown?
    ensures Harvested(req, steps) == 1
    ensures Conclude(req, steps, 1)
         == if req.bodyOnly then Report(req.username, StartOf(req), [], 0, StartOf(req))
            else Structured(StartOf(req), [], req.username, 0)
  {
    RunSnoc(req.bodyOnly, StartOf(req), steps, 0);
    assert steps[..0] == [];
  }

  /** A first page that carries an upstream error: the error is the one harvested item. */
  lemma FirstPageError(req: Request, steps: seq<Step>, message: string)
    requires req.username != "" && ValidDate(StartOf(req))
    requires |steps| > 0 && Admits(TimeoutSeconds(req.timeoutParsed), steps[0])
    requires steps[0].page == UpstreamError(message)
    ensures Harvested(req, steps) == 1
    ensures Conclude(req, steps, 1)
         == if req.bodyOnly then Report(req.username, StartOf(req), [ErrorMarker(message)], 0, StartOf(req))
            else Structured(StartOf(req), [ErrorEntry(message)], req.username, 1)
  {
    RunSnoc(req.bodyOnly, StartOf(req), steps, 0);
    assert steps[..0] == [];
  }

  // The requests.

  /**
   * The cursor a request carries: the start cursor for the first, and for
   * each later one the smallest timestamp of the page before it.
   */
  lemma CursorBeforeIteration(timeoutSec: int, bodyOnly: bool, start: int, ss: seq<Step>, j: nat)
    requires j < Iterations(timeoutSec, bodyOnly, ss)
    ensures j == 0 ==> Run(bodyOnly, start, ss[..j]).cursor == start
    ensures j > 0 ==> && HasRecords(ss[j - 1])
                      && Run(bodyOnly, start, ss[..j]).cursor
                         == Cursor.MinCursor(ss[j - 1].page.records, ss[j - 1].maxDate)
  {
    if j > 0 {
      EarlierStepsDoNotThrow(timeoutSec, bodyOnly, ss);
      RunSnoc(bodyOnly, start, ss, j - 1);
      assert ss[..j - 1 + 1] == ss[..j];
    }
  }

  /**
   * Every request of a run, read back: the comments endpoint, then exactly
   * `size` (in 50..59), `author` (the username) and `before` (the cursor at
   * the start of that iteration).
   */
  lemma RequestShape(bodyOnly: bool, username: string, start: int, ss: seq<Step>, j: nat)
    requires Query.IsAscii(username) && j < |ss|
    ensures var url := RequestsOf(bodyOnly, username, start, ss)[j];
      && |url| >= |Query.CommentsApi| && url[..|Query.CommentsApi|] == Query.CommentsApi
      && var q := Query.ParseQuery(url[|Query.CommentsApi|..]);
      && |q| == 3
      && q[0].0 == "size" && Query.ParseDecimal(q[0].1) == Some(ss[j].size as int) && 50 <= ss[j].size <= 59
      && q[1] == ("author", username)
      && q[2].0 == "before" && Query.ParseDecimal(q[2].1) == Some(Run(bodyOnly, start, ss[..j]).cursor)
  {
    RequestAt(bodyOnly, username, start, ss, j);
    Query.LoopRequestParams(ss[j].size, username, Run(bodyOnly, start, ss[..j]).cursor);
  }
}
