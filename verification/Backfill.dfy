/**
  Backfilling bars: page forward from a cursor, keep the window, check quality, and
  move the checkpoint only when the window is complete.
*/
module Backfill {
  import opened Common

  /** A price row: its open time, how many of its fields are null, and its volume. */
  datatype Row = Row(ts: int, nulls: nat, volume: real, close: real)

  /** What the exchange answers to the n-th call, for bars from a time on. */
  type Exchange = (int, nat) -> Result<seq<Row>>

  /** All pages put together, as the cursor loop fetches them. */
  function Collect(fetch: Exchange, cursor: int, end: int, barMs: nat, call: nat): Result<seq<Row>>
    requires barMs > 0
    decreases end - cursor
  {
    if cursor >= end then Ok([])
    else match fetch(cursor, call)
      case Err(error) => Err(error)
      case Ok(page) =>
        if page == [] then Ok([])
        else
          var last := page[|page| - 1].ts;
          if last >= end || last <= cursor then Ok(page)
          else match Collect(fetch, last + barMs, end, barMs, call + 1)
            case Err(error) => Err(error)
            case Ok(rest) => Ok(page + rest)
  }

  function Window(rows: seq<Row>, start: int, end: int): seq<Row> {
    if rows == [] then []
    else Window(rows[..|rows| - 1], start, end)
         + if start <= rows[|rows| - 1].ts < end then [rows[|rows| - 1]] else []
  }

  predicate Seen(rows: seq<Row>, ts: int) {
    exists k :: 0 <= k < |rows| && rows[k].ts == ts
  }

  /** The first row of each timestamp. */
  function Deduplicated(rows: seq<Row>): seq<Row> {
    if rows == [] then []
    else
      var before := rows[..|rows| - 1];
      Deduplicated(before) + if Seen(before, rows[|rows| - 1].ts) then [] else [rows[|rows| - 1]]
  }

  // ----- quality counts

  function Duplicates(rows: seq<Row>): nat {
    if rows == [] then 0
    else Duplicates(rows[..|rows| - 1]) + if Seen(rows[..|rows| - 1], rows[|rows| - 1].ts) then 1 else 0
  }

  function StepsBack(rows: seq<Row>): nat {
    if |rows| < 2 then 0
    else StepsBack(rows[..|rows| - 1]) + if rows[|rows| - 1].ts < rows[|rows| - 2].ts then 1 else 0
  }

  /** Expected timestamps start, start + bar, ... before end that no row has. */
  function Missing(rows: seq<Row>, start: int, end: int, barMs: nat): nat
    requires barMs > 0
    decreases end - start
  {
    if start >= end then 0
    else (if Seen(rows, start) then 0 else 1) + Missing(rows, start + barMs, end, barMs)
  }

  function Nulls(rows: seq<Row>): nat {
    if rows == [] then 0 else Nulls(rows[..|rows| - 1]) + rows[|rows| - 1].nulls
  }

  function NegativeVolumes(rows: seq<Row>): nat {
    if rows == [] then 0
    else NegativeVolumes(rows[..|rows| - 1]) + if rows[|rows| - 1].volume < 0.0 then 1 else 0
  }

  predicate NoIssues(rows: seq<Row>, start: int, end: int, barMs: nat)
    requires barMs > 0
  {
    && Duplicates(rows) == 0 && Missing(rows, start, end, barMs) == 0 && StepsBack(rows) == 0
    && Nulls(rows) == 0 && NegativeVolumes(rows) == 0
  }

  datatype Backfilled = Backfilled(stored: seq<Row>, checkpoint: Option<int>)

  /** The outcome of one backfill: the rows stored and the checkpoint afterwards. */
  function Outcome(fetched: seq<Row>, start: int, end: int, barMs: nat, fundingClean: bool,
                   before: Option<int>): Backfilled
    requires barMs > 0
  {
    var windowed := Window(fetched, start, end);
    Backfilled(Deduplicated(windowed),
               if NoIssues(windowed, start, end, barMs) && fundingClean then Some(end) else before)
  }

  class Backfiller {
    var stored: seq<Row>
    var checkpoint: Option<int>

    /** Page forward until the end, an empty page, or a page that makes no progress. */
    method FetchAll(fetch: Exchange, start: int, end: int, barMs: nat) returns (r: Result<seq<Row>>)
      requires barMs > 0
      ensures r == Collect(fetch, start, end, barMs, 0)
    {
      var rows: seq<Row>, cursor, call: nat := [], start, 0;
      assert forall rest: seq<Row> :: [] + rest == rest;
      while cursor < end
        invariant Collect(fetch, start, end, barMs, 0)
               == match Collect(fetch, cursor, end, barMs, call) {
                    case Err(e) => Err(e)
                    case Ok(rest) => Ok(rows + rest)
                  }
        decreases end - cursor
      {
        var answer := fetch(cursor, call);
        match answer {
          case Err(error) => return Err(error);
          case Ok(page) =>
            if page == [] {
              assert rows + [] == rows;
              return Ok(rows);
            }
            ghost var soFar := rows;
            rows := rows + page;
            var last := page[|page| - 1].ts;
            if last >= end || last <= cursor { return Ok(rows); }
            assert forall rest: seq<Row> :: soFar + (page + rest) == rows + rest;
            cursor, call := last + barMs, call + 1;
        }
      }
      assert rows + [] == rows;
      return Ok(rows);
    }

    /**
      Prices first, then funding. A failed price fetch leaves everything as it was; a
      failed funding fetch comes after the price rows were stored, and leaves the
      checkpoint. `funding` is whether its rows were clean.
    */
    method RunBackfill(fetch: Exchange, start: int, end: int, barMs: nat, funding: Result<bool>) returns (ok: bool)
      requires barMs > 0
      modifies this
      ensures ok <==> Collect(fetch, start, end, barMs, 0).Ok? && funding.Ok?
      ensures match Collect(fetch, start, end, barMs, 0)
              case Err(_) => stored == old(stored) && checkpoint == old(checkpoint)
              case Ok(rows) =>
                Backfilled(stored, checkpoint)
                == Outcome(rows, start, end, barMs, funding.Ok? && funding.value, old(checkpoint))
    {
      var fetched := FetchAll(fetch, start, end, barMs);
      if fetched.Err? { return false; }
      var windowed := Window(fetched.value, start, end);
      stored := Deduplicated(windowed);
      if funding.Err? { return false; }
      if NoIssues(windowed, start, end, barMs) && funding.value {
        checkpoint := Some(end);
      }
      return true;
    }
  }

  // ----- an exchange that serves a grid of bars

  predicate Grid(bars: seq<Row>, barMs: nat) {
    forall i, j :: 0 <= i < j < |bars| ==> bars[i].ts + barMs <= bars[j].ts
  }

  function FirstFrom(bars: seq<Row>, since: int): (i: nat)
    ensures i <= |bars|
  {
    if bars == [] || bars[0].ts >= since then 0 else 1 + FirstFrom(bars[1..], since)
  }

  /** The first `limit` bars from a time on, whichever call it is. */
  function Serving(bars: seq<Row>, limit: nat): Exchange {
    (since: int, call: nat) =>
      var i := FirstFrom(bars, since);
      Ok(if |bars| - i <= limit then bars[i..] else bars[i..i + limit])
  }

  lemma {:induction false} FirstFromSplits(bars: seq<Row>, since: int, barMs: nat)
    requires Grid(bars, barMs)
    ensures var i := FirstFrom(bars, since);
            && (forall k :: 0 <= k < i ==> bars[k].ts < since)
            && (forall k :: i <= k < |bars| ==> bars[k].ts >= since)
  {
    if bars != [] && bars[0].ts < since {
      FirstFromSplits(bars[1..], since, barMs);
      assert forall k :: 1 <= k < |bars| ==> bars[k] == bars[1..][k - 1];
    }
  }

  lemma {:induction false} FirstFromIs(bars: seq<Row>, since: int, i: nat)
    requires i <= |bars|
    requires (forall k :: 0 <= k < i ==> bars[k].ts < since) && (forall k :: i <= k < |bars| ==> bars[k].ts >= since)
    ensures FirstFrom(bars, since) == i
  {
    if i > 0 {
      assert forall k :: 1 <= k < |bars| ==> bars[k] == bars[1..][k - 1];
      FirstFromIs(bars[1..], since, i - 1);
    }
  }

  lemma AfterABar(bars: seq<Row>, barMs: nat, j: nat)
    requires Grid(bars, barMs) && 0 < j <= |bars| && barMs > 0
    ensures FirstFrom(bars, bars[j - 1].ts + barMs) == j
    ensures forall k :: j <= k < |bars| ==> bars[k].ts > bars[j - 1].ts
    ensures forall k :: 0 <= k < j - 1 ==> bars[k].ts < bars[j - 1].ts
  {
    FirstFromIs(bars, bars[j - 1].ts + barMs, j);
  }

  function PageEnd(bars: seq<Row>, limit: nat, i: nat): (j: nat)
    requires i <= |bars|
    ensures i <= j <= |bars|
  {
    if |bars| - i <= limit then |bars| else i + limit
  }

  lemma ServedPage(bars: seq<Row>, limit: nat, since: int, call: nat)
    ensures var i := FirstFrom(bars, since); Serving(bars, limit)(since, call) == Ok(bars[i..PageEnd(bars, limit, i)])
  {
    var i := FirstFrom(bars, since);
    assert bars[i..] == bars[i..|bars|];
  }

  /** The pages put together are one stretch of the exchange's bars, reaching the end of the window or of the data. */
  lemma {:induction false} PagesAreOneStretch(bars: seq<Row>, limit: nat, cursor: int, end: int, barMs: nat, call: nat)
    returns (j: nat)
    requires Grid(bars, barMs) && limit >= 2 && barMs > 0
    ensures var i := FirstFrom(bars, cursor);
            && i <= j <= |bars| && Collect(Serving(bars, limit), cursor, end, barMs, call) == Ok(bars[i..j])
            && forall k :: j <= k < |bars| ==> bars[k].ts >= end
    decreases end - cursor
  {
    hide Serving, FirstFrom, Grid;
    var i := FirstFrom(bars, cursor);
    FirstFromSplits(bars, cursor, barMs);
    ServedPage(bars, limit, cursor, call);
    if cursor >= end {
      assert bars[i..i] == [];
      return i;
    }
    j := PageEnd(bars, limit, i);
    if i < j {
      AfterABar(bars, barMs, j);
      var first, last := bars[i].ts, bars[j - 1].ts;
      assert first >= cursor && (i < j - 1 ==> first < last);
      if cursor < last < end {
        var further := PagesAreOneStretch(bars, limit, last + barMs, end, barMs, call + 1);
        assert bars[i..j] + bars[j..further] == bars[i..further];
        j := further;
      }
    }
  }

  lemma {:induction false} WindowAppend(a: seq<Row>, b: seq<Row>, start: int, end: int)
    ensures Window(a + b, start, end) == Window(a, start, end) + Window(b, start, end)
  {
    if b == [] {
      assert a + b == a;
    } else {
      var last := |b| - 1;
      WindowAppend(a, b[..last], start, end);
      assert (a + b)[..|a + b| - 1] == a + b[..last];
    }
  }

  lemma {:induction false} NothingInWindow(rows: seq<Row>, start: int, end: int)
    requires forall k :: 0 <= k < |rows| ==> rows[k].ts < start || rows[k].ts >= end
    ensures Window(rows, start, end) == []
  {
    if rows != [] {
      NothingInWindow(rows[..|rows| - 1], start, end);
    }
  }

  lemma {:induction false} WindowIncreases(rows: seq<Row>, start: int, end: int)
    requires Increasing(rows)
    ensures Increasing(Window(rows, start, end))
    ensures forall k :: 0 <= k < |Window(rows, start, end)| ==> Window(rows, start, end)[k] in rows
  {
    if rows != [] {
      var last := |rows| - 1;
      WindowIncreases(rows[..last], start, end);
      assert forall r :: r in rows[..last] ==> r.ts < rows[last].ts;
    }
  }

  predicate Increasing(rows: seq<Row>) {
    forall i, j :: 0 <= i < j < |rows| ==> rows[i].ts < rows[j].ts
  }

  lemma {:induction false} NothingToDeduplicate(rows: seq<Row>)
    requires Increasing(rows)
    ensures Deduplicated(rows) == rows
  {
    if rows != [] {
      var before, last := rows[..|rows| - 1], rows[|rows| - 1];
      NothingToDeduplicate(before);
      assert !Seen(before, last.ts);
      assert before + [last] == rows;
    }
  }

  /** The backfill stores exactly the exchange's bars of the window, each once, in order. */
  lemma StoresExactlyTheWindow(bars: seq<Row>, limit: nat, start: int, end: int, barMs: nat,
                               fundingClean: bool, before: Option<int>)
    requires Grid(bars, barMs) && limit >= 2 && barMs > 0
    ensures var fetched := Collect(Serving(bars, limit), start, end, barMs, 0);
            fetched.Ok? && Outcome(fetched.value, start, end, barMs, fundingClean, before).stored
                           == Window(bars, start, end)
  {
    hide Collect, Serving, NoIssues, Window, Deduplicated;
    var i := FirstFrom(bars, start);
    FirstFromSplits(bars, start, barMs);
    var j := PagesAreOneStretch(bars, limit, start, end, barMs, 0);
    assert bars == bars[..i] + bars[i..j] + bars[j..];
    WindowAppend(bars[..i] + bars[i..j], bars[j..], start, end);
    WindowAppend(bars[..i], bars[i..j], start, end);
    NothingInWindow(bars[..i], start, end);
    NothingInWindow(bars[j..], start, end);
    assert Window(bars, start, end) == Window(bars[i..j], start, end);
    WindowIncreases(bars, start, end);
    NothingToDeduplicate(Window(bars, start, end));
  }

  predicate StoresTheWindow(bars: seq<Row>, limit: nat, start: int, end: int, barMs: nat)
    requires barMs > 0
  {
    Grid(bars, barMs) ==>
      var fetched := Collect(Serving(bars, limit), start, end, barMs, 0);
      fetched.Ok? && Deduplicated(Window(fetched.value, start, end)) == Window(bars, start, end)
  }

  /**
    The loop takes a page that ends where it began for no progress. So it stores
    every window of every exchange exactly when pages hold at least two bars.
  */
  lemma StoresEveryWindowIffPagesHoldTwo(limit: nat, barMs: nat)
    requires barMs > 0
    ensures (forall bars, start, end :: StoresTheWindow(bars, limit, start, end, barMs)) <==> limit >= 2
  {
    hide StoresTheWindow;
    if limit >= 2 {
      forall bars, start, end ensures StoresTheWindow(bars, limit, start, end, barMs) {
        PagesOfTwoDo(bars, limit, start, end, barMs);
      }
    } else {
      SmallPagesStopShort(limit, barMs);
    }
  }

  lemma PagesOfTwoDo(bars: seq<Row>, limit: nat, start: int, end: int, barMs: nat)
    requires barMs > 0 && limit >= 2
    ensures StoresTheWindow(bars, limit, start, end, barMs)
  {
    if Grid(bars, barMs) {
      StoresExactlyTheWindow(bars, limit, start, end, barMs, true, None);
    }
  }

  /** Two adjacent bars, and a page too small for both. */
  lemma SmallPagesStopShort(limit: nat, barMs: nat)
    requires barMs > 0 && limit < 2
    ensures var bars := [Row(0, 0, 1.0, 1.0), Row(barMs, 0, 1.0, 1.0)];
            !StoresTheWindow(bars, limit, 0, 2 * barMs, barMs)
  {
    hide Deduplicated, Window, Serving, Collect;
    var bars := [Row(0, 0, 1.0, 1.0), Row(barMs, 0, 1.0, 1.0)];
    OnePageOnly(bars, limit, 2 * barMs, barMs);
    BothInWindow(bars, 2 * barMs);
    WindowIsNoLonger(bars[..limit], 0, 2 * barMs);
    AtMostAsMany(Window(bars[..limit], 0, 2 * barMs));
  }

  lemma OnePageOnly(bars: seq<Row>, limit: nat, end: int, barMs: nat)
    requires |bars| == 2 && limit < 2 && bars[0].ts == 0 < end && barMs > 0
    ensures Collect(Serving(bars, limit), 0, end, barMs, 0) == Ok(bars[..limit])
  {
    hide Serving;
    ServedPage(bars, limit, 0, 0);
    assert bars[0..limit] == bars[..limit];
  }

  lemma BothInWindow(bars: seq<Row>, end: int)
    requires |bars| == 2 && 0 <= bars[0].ts < end && 0 <= bars[1].ts < end
    ensures |Window(bars, 0, end)| == 2
  {
    var one := bars[..1];
    assert Window(one[..0], 0, end) == [];
    assert Window(one, 0, end) == [bars[0]];
  }

  lemma {:induction false} WindowIsNoLonger(rows: seq<Row>, start: int, end: int)
    ensures |Window(rows, start, end)| <= |rows|
  {
    if rows != [] {
      WindowIsNoLonger(rows[..|rows| - 1], start, end);
    }
  }

  lemma {:induction false} AtMostAsMany(rows: seq<Row>)
    ensures |Deduplicated(rows)| <= |rows|
  {
    if rows != [] {
      AtMostAsMany(rows[..|rows| - 1]);
    }
  }

  // ----- what is kept of what was fetched

  lemma {:induction false} WindowIsTheRowsInside(rows: seq<Row>, start: int, end: int)
    ensures forall row :: row in Window(rows, start, end) <==> row in rows && start <= row.ts < end
  {
    if rows != [] {
      WindowIsTheRowsInside(rows[..|rows| - 1], start, end);
      assert rows == rows[..|rows| - 1] + [rows[|rows| - 1]];
    }
  }

  /** Row k is the first of its time. */
  predicate FirstOfItsTime(rows: seq<Row>, k: nat)
    requires k < |rows|
  {
    forall j :: 0 <= j < k ==> rows[j].ts != rows[k].ts
  }

  /** The row is the first of its time among these. */
  predicate IsFirst(rows: seq<Row>, row: Row) {
    exists k :: 0 <= k < |rows| && rows[k] == row && FirstOfItsTime(rows, k)
  }

  lemma FirstOrBefore(rows: seq<Row>, row: Row)
    requires rows != []
    ensures var before, last := rows[..|rows| - 1], rows[|rows| - 1];
            IsFirst(rows, row) <==> IsFirst(before, row) || (row == last && !Seen(before, last.ts))
  {
    var before, n := rows[..|rows| - 1], |rows| - 1;
    forall k | 0 <= k < n ensures FirstOfItsTime(before, k) <==> FirstOfItsTime(rows, k) {
    }
    if IsFirst(before, row) {
      var k :| 0 <= k < n && before[k] == row && FirstOfItsTime(before, k);
      assert FirstOfItsTime(rows, k);
    }
    assert FirstOfItsTime(rows, n) <==> !Seen(before, rows[n].ts);
  }

  /** Each time keeps its first row, and only that one. */
  lemma {:induction false} KeepsTheFirstOfEachTime(rows: seq<Row>)
    ensures forall row :: row in Deduplicated(rows) <==> IsFirst(rows, row)
    ensures |Deduplicated(rows)| == |rows| - Duplicates(rows)
  {
    hide IsFirst, Seen;
    if rows == [] {
      NoneIsFirst();
    } else {
      KeepsTheFirstOfEachTime(rows[..|rows| - 1]);
      forall row ensures row in Deduplicated(rows) <==> IsFirst(rows, row) {
        FirstOrBefore(rows, row);
      }
    }
  }

  lemma NoneIsFirst()
    ensures forall row :: !IsFirst([], row)
  {
  }

  // ----- the checkpoint, whatever the exchange does

  function GridTime(start: int, barMs: nat, n: nat): int {
    start + n * barMs
  }

  /** Every bar time from start on, before the end, has a row. */
  ghost predicate Covered(rows: seq<Row>, start: int, end: int, barMs: nat) {
    forall n: nat :: GridTime(start, barMs, n) < end ==> Seen(rows, GridTime(start, barMs, n))
  }

  predicate Clean(rows: seq<Row>) {
    forall k :: 0 <= k < |rows| ==> rows[k].nulls == 0 && rows[k].volume >= 0.0
  }

  lemma {:induction false} NoDuplicatesNoStepsBack(rows: seq<Row>)
    ensures Duplicates(rows) == 0 && StepsBack(rows) == 0 <==> Increasing(rows)
  {
    if |rows| >= 2 {
      var before, last := rows[..|rows| - 1], |rows| - 1;
      NoDuplicatesNoStepsBack(before);
      if Duplicates(before) == 0 && StepsBack(before) == 0 {
        assert rows[last - 1] == before[last - 1];
        assert Seen(before, rows[last].ts) || rows[last].ts != rows[last - 1].ts;
        assert Increasing(rows) ==> !Seen(before, rows[last].ts);
      }
      assert Increasing(rows) ==> Increasing(before);
    } else if |rows| == 1 {
      assert !Seen(rows[..0], rows[0].ts);
      assert Duplicates(rows[..0]) == 0;
    }
  }

  lemma {:induction false} CleanMeansNoCounts(rows: seq<Row>)
    ensures Nulls(rows) == 0 && NegativeVolumes(rows) == 0 <==> Clean(rows)
  {
    if rows != [] {
      CleanMeansNoCounts(rows[..|rows| - 1]);
      assert Clean(rows)
        <==> Clean(rows[..|rows| - 1]) && rows[|rows| - 1].nulls == 0 && rows[|rows| - 1].volume >= 0.0;
    }
  }

  lemma GridSteps(start: int, barMs: nat, n: nat)
    requires barMs > 0
    ensures GridTime(start, barMs, 0) == start && GridTime(start, barMs, n) >= start
    ensures GridTime(start, barMs, n + 1) == GridTime(start + barMs, barMs, n)
  {
    assert n * barMs >= 0;
    assert (n + 1) * barMs == n * barMs + barMs;
  }

  lemma {:induction false} NothingMissing(rows: seq<Row>, start: int, end: int, barMs: nat)
    requires barMs > 0
    ensures Missing(rows, start, end, barMs) == 0 <==> Covered(rows, start, end, barMs)
    decreases end - start
  {
    hide GridTime, Seen;
    GridSteps(start, barMs, 0);
    if start >= end {
      forall n: nat ensures GridTime(start, barMs, n) >= end {
        GridSteps(start, barMs, n);
      }
    } else {
      NothingMissing(rows, start + barMs, end, barMs);
      if Covered(rows, start, end, barMs) {
        var next := start + barMs;
        forall n: nat | GridTime(next, barMs, n) < end ensures Seen(rows, GridTime(next, barMs, n)) {
          GridSteps(start, barMs, n);
        }
      }
      if Seen(rows, start) && Covered(rows, start + barMs, end, barMs) {
        forall n: nat | GridTime(start, barMs, n) < end ensures Seen(rows, GridTime(start, barMs, n)) {
          if n > 0 {
            GridSteps(start, barMs, n - 1);
          }
        }
      }
    }
  }

  /**
    For any exchange whatever: the checkpoint moves to the end exactly when the
    window's rows strictly increase, so no time is there twice, every bar time of
    the window has its row, no field is null and no volume negative.
  */
  lemma CheckpointMovesExactlyWhenComplete(fetched: seq<Row>, start: int, end: int, barMs: nat,
                                           fundingClean: bool, before: Option<int>)
    requires barMs > 0 && before != Some(end)
    ensures var rows := Window(fetched, start, end);
            Outcome(fetched, start, end, barMs, fundingClean, before).checkpoint == Some(end)
            <==> fundingClean && Increasing(rows) && Covered(rows, start, end, barMs) && Clean(rows)
  {
    hide Window, Deduplicated, Duplicates, StepsBack, Missing, Nulls, NegativeVolumes, Increasing, Covered, Clean;
    var rows := Window(fetched, start, end);
    NoDuplicatesNoStepsBack(rows);
    NothingMissing(rows, start, end, barMs);
    CleanMeansNoCounts(rows);
  }

  /** A checkpoint that moved means what was stored is the window itself, complete. */
  lemma CheckpointMeansStoredComplete(fetched: seq<Row>, start: int, end: int, barMs: nat,
                                      fundingClean: bool, before: Option<int>)
    requires barMs > 0 && before != Some(end)
    requires Outcome(fetched, start, end, barMs, fundingClean, before).checkpoint == Some(end)
    ensures var stored := Outcome(fetched, start, end, barMs, fundingClean, before).stored;
            stored == Window(fetched, start, end) && Covered(stored, start, end, barMs) && Increasing(stored)
  {
    hide Window, Deduplicated, Increasing, Covered, NoIssues;
    CheckpointMovesExactlyWhenComplete(fetched, start, end, barMs, fundingClean, before);
    NothingToDeduplicate(Window(fetched, start, end));
  }
}
