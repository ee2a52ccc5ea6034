/**
 * The cursor advance of api/index.js:94-98: one page of records is folded to
 * the smallest truthy `created_utc`, starting from the sentinel `max_date`,
 * which records without a timestamp contribute instead of their own.
 */
module Cursor {
  import opened Wrappers
  import opened Records

  /** The record's `created_utc` when it is a truthy integer; None otherwise. */
  function Stamp(r: Record): Option<int> {
    match Get(r, "created_utc")
    case Some(Int(n)) => if n != 0 then Some(n) else None
    case _ => None
  }

  /** The record's contribution to the fold: its truthy timestamp, or the sentinel. */
  function StampOr(r: Record, maxDate: int): int {
    match Stamp(r)
    case Some(n) => n
    case None => maxDate
  }

  function Min(a: int, b: int): int {
    if a <= b then a else b
  }

  /** The left `reduce` from acc that keeps the smaller of the running value and each record's contribution. */
  function Fold(rs: seq<Record>, acc: int, maxDate: int): int
    decreases |rs|
  {
    if rs == [] then acc else Fold(rs[1..], Min(acc, StampOr(rs[0], maxDate)), maxDate)
  }

  /** The new `latest_comment` computed from one page. */
  function MinCursor(rs: seq<Record>, maxDate: int): int {
    Fold(rs, maxDate, maxDate)
  }

  /** The loop's stop test at api/index.js:96: the new cursor is falsy or still the sentinel. */
  predicate Stalled(cursor: int, maxDate: int) {
    cursor == 0 || cursor == maxDate
  }

  /** Some record on the page carries a truthy timestamp. */
  predicate HasStamp(rs: seq<Record>) {
    exists i :: 0 <= i < |rs| && Stamp(rs[i]).Some?
  }

  /** The fold never exceeds its start, never exceeds a truthy timestamp, and is one of them unless it is the start or the sentinel. */
  lemma {:induction false} FoldBounds(rs: seq<Record>, acc: int, maxDate: int)
    requires acc <= maxDate
    ensures Fold(rs, acc, maxDate) <= acc
    ensures forall i :: 0 <= i < |rs| && Stamp(rs[i]).Some? ==> Fold(rs, acc, maxDate) <= Stamp(rs[i]).value
    ensures Fold(rs, acc, maxDate) == acc
         || exists i :: 0 <= i < |rs| && Stamp(rs[i]) == Some(Fold(rs, acc, maxDate))
  {
    if rs != [] {
      var acc' := Min(acc, StampOr(rs[0], maxDate));
      FoldBounds(rs[1..], acc', maxDate);
      var r := Fold(rs, acc, maxDate);
      assert r == Fold(rs[1..], acc', maxDate);
      forall i | 0 <= i < |rs| && Stamp(rs[i]).Some? ensures r <= Stamp(rs[i]).value {
        if i > 0 {
          assert rs[i] == rs[1..][i - 1];
        }
      }
      if r != acc {
        if r == acc' {
          assert Stamp(rs[0]) == Some(r);
        } else {
          var i :| 0 <= i < |rs[1..]| && Stamp(rs[1..][i]) == Some(r);
          assert rs[i + 1] == rs[1..][i];
        }
      }
    }
  }

  /**
   * The new cursor is the minimum of the sentinel and the page's truthy
   * timestamps: it is at most each of them, and it is the sentinel or one of them.
   */
  lemma MinCursorIsMinimum(rs: seq<Record>, maxDate: int)
    ensures MinCursor(rs, maxDate) <= maxDate
    ensures forall i :: 0 <= i < |rs| && Stamp(rs[i]).Some? ==> MinCursor(rs, maxDate) <= Stamp(rs[i]).value
    ensures MinCursor(rs, maxDate) == maxDate
         || exists i :: 0 <= i < |rs| && Stamp(rs[i]) == Some(MinCursor(rs, maxDate))
  {
    FoldBounds(rs, maxDate, maxDate);
  }

  /** A page none of whose records has a truthy timestamp yields the sentinel, so the loop stops on it. */
  lemma NoStampIsSentinel(rs: seq<Record>, maxDate: int)
    requires !HasStamp(rs)
    ensures MinCursor(rs, maxDate) == maxDate
    ensures Stalled(MinCursor(rs, maxDate), maxDate)
  {
    MinCursorIsMinimum(rs, maxDate);
  }

  /**
   * When some record's truthy timestamp lies below the sentinel, the new
   * cursor is the smallest truthy timestamp on the page.
   */
  lemma MinCursorIsSmallestStamp(rs: seq<Record>, maxDate: int, k: nat)
    requires k < |rs| && Stamp(rs[k]).Some? && Stamp(rs[k]).value < maxDate
    ensures exists i :: 0 <= i < |rs| && Stamp(rs[i]) == Some(MinCursor(rs, maxDate))
    ensures forall i :: 0 <= i < |rs| && Stamp(rs[i]).Some? ==> MinCursor(rs, maxDate) <= Stamp(rs[i]).value
  {
    MinCursorIsMinimum(rs, maxDate);
  }

  /** A record that lacks a truthy timestamp does not change the fold. */
  lemma {:induction false} UnstampedRecordIsNeutral(a: seq<Record>, r: Record, b: seq<Record>, maxDate: int)
    requires Stamp(r).None?
    ensures MinCursor(a + [r] + b, maxDate) == MinCursor(a + b, maxDate)
  {
    FoldSkip(a, r, b, maxDate, maxDate);
  }

  lemma {:induction false} FoldSkip(a: seq<Record>, r: Record, b: seq<Record>, acc: int, maxDate: int)
    requires Stamp(r).None? && acc <= maxDate
    ensures Fold(a + [r] + b, acc, maxDate) == Fold(a + b, acc, maxDate)
  {
    if a == [] {
      assert a + [r] + b == [r] + b;
      assert ([r] + b)[1..] == b;
      assert a + b == b;
    } else {
      var acc' := Min(acc, StampOr(a[0], maxDate));
      assert (a + [r] + b)[0] == a[0] && (a + [r] + b)[1..] == a[1..] + [r] + b;
      assert (a + b)[0] == a[0] && (a + b)[1..] == a[1..] + b;
      FoldSkip(a[1..], r, b, acc', maxDate);
    }
  }
}
