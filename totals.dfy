/** Month totals counted two ways: per worker (the quotas and night
    bounds each worker must meet) and per slot (what the coverage rule
    demands of each day). Equating the two shows when the warnings that
    `construct_and_optimize` prints about the totals can fire at all. */
module Totals {
  import opened Wrappers
  import opened Workplaces
  import opened Workers
  import opened Roster
  import opened Constraints
  import opened Prepare

  // ---------------------------------------------------------------------
  // Counting a boolean matrix by rows and by columns

  predicate Rect(m: seq<seq<bool>>, width: nat)
  {
    forall i :: 0 <= i < |m| ==> |m[i]| == width
  }

  /** The true entries, row by row. */
  function RowTotal(m: seq<seq<bool>>): nat
  {
    if |m| == 0 then 0 else RowTotal(m[..|m| - 1]) + Count(m[|m| - 1])
  }

  function Column(m: seq<seq<bool>>, width: nat, q: nat): (c: seq<bool>)
    requires Rect(m, width) && q < width
    ensures |c| == |m| && forall i :: 0 <= i < |m| ==> c[i] == m[i][q]
  {
    seq(|m|, i requires 0 <= i < |m| => m[i][q])
  }

  /** The true entries of the first n columns, column by column. */
  function ColTotal(m: seq<seq<bool>>, width: nat, n: nat): nat
    requires Rect(m, width) && n <= width
  {
    if n == 0 then 0 else ColTotal(m, width, n - 1) + Count(Column(m, width, n - 1))
  }

  lemma {:induction false} ColTotalEmpty(width: nat, n: nat)
    requires n <= width
    ensures ColTotal([], width, n) == 0
  {
    if n > 0 {
      ColTotalEmpty(width, n - 1);
      assert Column([], width, n - 1) == [];
    }
  }

  /** A new row adds its own entries to the column count. */
  lemma {:induction false} ColTotalAppend(m: seq<seq<bool>>, r: seq<bool>, width: nat, n: nat)
    requires Rect(m, width) && |r| == width && n <= width
    ensures Rect(m + [r], width)
    ensures ColTotal(m + [r], width, n) == ColTotal(m, width, n) + Count(r[..n])
  {
    assert Rect(m + [r], width);
    if n == 0 {
      assert r[..0] == [];
    } else {
      ColTotalAppend(m, r, width, n - 1);
      assert Column(m + [r], width, n - 1) == Column(m, width, n - 1) + [r[n - 1]];
      CountAppend(Column(m, width, n - 1), [r[n - 1]]);
      assert r[..n] == r[..n - 1] + [r[n - 1]];
      CountAppend(r[..n - 1], [r[n - 1]]);
    }
  }

  lemma RowTotalStep(m: seq<seq<bool>>, n: nat)
    requires 0 < n <= |m|
    ensures RowTotal(m[..n]) == RowTotal(m[..n - 1]) + Count(m[n - 1])
  {
    assert m[..n][..n - 1] == m[..n - 1];
  }

  /** Counting by rows and counting by columns agree. */
  lemma {:induction false} DoubleCount(m: seq<seq<bool>>, width: nat)
    requires Rect(m, width)
    ensures RowTotal(m) == ColTotal(m, width, width)
  {
    if |m| == 0 {
      ColTotalEmpty(width, width);
    } else {
      var front, r := m[..|m| - 1], m[|m| - 1];
      assert Rect(front, width);
      DoubleCount(front, width);
      assert m == front + [r];
      ColTotalAppend(front, r, width, width);
      assert r[..width] == r;
    }
  }

  // ---------------------------------------------------------------------
  // One post over the month: workers by days

  /** Row w: the days on which worker w holds post p. */
  function PostMatrix(work: Assignment, numDays: nat, p: nat): (m: seq<seq<bool>>)
    requires Shaped(work, |work|, numDays) && p < NumWorkplaces
    ensures |m| == |work| && Rect(m, numDays)
    ensures forall w :: 0 <= w < |work| ==> m[w] == PostDays(work[w], p)
  {
    seq(|work|, w requires 0 <= w < |work| => PostDays(work[w], p))
  }

  lemma PostColumn(work: Assignment, numDays: nat, p: nat, d: nat)
    requires Shaped(work, |work|, numDays) && p < NumWorkplaces && d < numDays
    ensures Column(PostMatrix(work, numDays, p), numDays, d) == Occupants(work, numDays, d, p)
  {
  }

  /** The first n entries added up. */
  function Total(t: seq<nat>, n: nat): nat
    requires n <= |t|
  {
    if n == 0 then 0 else Total(t, n - 1) + t[n - 1]
  }

  /** Counting the first n columns gives the sum of their targets when
      each column meets its target. */
  lemma {:induction false} ColumnsMeetTargets(m: seq<seq<bool>>, width: nat, t: seq<nat>, n: nat)
    requires Rect(m, width) && |t| == width && n <= width
    requires forall d :: 0 <= d < n ==> Count(Column(m, width, d)) == t[d]
    ensures ColTotal(m, width, n) == Total(t, n)
  {
    if n == 0 {
      assert ColTotal(m, width, n) == 0 == Total(t, n);
    } else {
      ColumnsMeetTargets(m, width, t, n - 1);
      assert ColTotal(m, width, n) == ColTotal(m, width, n - 1) + t[n - 1];
    }
  }

  /** How many workers post p takes on each day. */
  function SlotTotals(inp: Inputs, p: nat): (t: seq<nat>)
    ensures |t| == |inp.days| && forall d :: 0 <= d < |inp.days| ==> t[d] == SlotTotal(inp, d, p)
  {
    seq(|inp.days|, d requires 0 <= d < |inp.days| => SlotTotal(inp, d, p))
  }

  /** How many workers post p takes over the first n days. */
  function SlotSum(inp: Inputs, p: nat, n: nat): nat
    requires n <= |inp.days|
  {
    Total(SlotTotals(inp, p), n)
  }

  /** When every day's holders of a post are what the coverage rule asks
      for, so are the month's. */
  lemma PostColumnsCovered(inp: Inputs, work: Assignment, p: nat, n: nat)
    requires Shaped(work, |work|, |inp.days|) && p < NumWorkplaces && n <= |inp.days|
    requires forall d :: 0 <= d < n ==> Count(Occupants(work, |inp.days|, d, p)) == SlotTotal(inp, d, p)
    ensures ColTotal(PostMatrix(work, |inp.days|, p), |inp.days|, n) == SlotSum(inp, p, n)
  {
    var m, t := PostMatrix(work, |inp.days|, p), SlotTotals(inp, p);
    forall d | 0 <= d < n ensures Count(Column(m, |inp.days|, d)) == t[d] {
      PostColumn(work, |inp.days|, p, d);
    }
    ColumnsMeetTargets(m, |inp.days|, t, n);
  }

  /** With nothing closed by the preschedule, a post takes one worker a
      day, except ABD prip., which takes one per workday. */
  lemma {:induction false} SlotSumOpen(inp: Inputs, p: nat, n: nat)
    requires n <= |inp.days| && forall d :: 0 <= d < n ==> !Blocked(inp.plan, d, p)
    ensures p != AbdPripNdx ==> SlotSum(inp, p, n) == n
    ensures p == AbdPripNdx ==>
      SlotSum(inp, p, n) == Count(WorkdayFlags(inp.days)[..n])
  {
    var flags := WorkdayFlags(inp.days);
    if n == 0 {
      assert flags[..0] == [] && SlotSum(inp, p, n) == 0;
    } else {
      SlotSumOpen(inp, p, n - 1);
      assert SlotSum(inp, p, n) == SlotSum(inp, p, n - 1) + SlotTotal(inp, n - 1, p);
      assert flags[..n][..n - 1] == flags[..n - 1];
    }
  }

  // ---------------------------------------------------------------------
  // The quota warnings

  /** The ABD prip. quota counts every day the post is held, since a
      valid roster never staffs it on a non-workday. */
  lemma QuotaHeld(inp: Inputs, work: Assignment, w: nat, p: nat)
    requires Fits(inp, work) && Valid(inp, work) && w < |work| && IsUnconnectedPost(p)
    ensures Count(PostDays(work[w], p)) == QuotaOf(inp.workers[w], p)
  {
    FixedTotals(inp, work, w);
    if p == AbdPripNdx {
      var rows := work[w];
      forall d | 0 <= d < |rows| ensures PostWorkdays(rows, inp.days, p)[d] == PostDays(rows, p)[d] {
        SlotHolders(inp, work, d, p);
      }
      assert PostWorkdays(rows, inp.days, p) == PostDays(rows, p);
    }
  }

  lemma {:induction false} QuotaRows(workers: seq<Worker>, work: Assignment, numDays: nat, p: nat, n: nat)
    requires Shaped(work, |work|, numDays) && |workers| == |work| && p < NumWorkplaces && n <= |work|
    requires forall w :: 0 <= w < n ==> Count(PostDays(work[w], p)) == QuotaOf(workers[w], p)
    ensures QuotaTotal(workers[..n], p) == RowTotal(PostMatrix(work, numDays, p)[..n])
  {
    var m := PostMatrix(work, numDays, p);
    if n == 0 {
      assert workers[..0] == [] && m[..0] == [];
    } else {
      QuotaRows(workers, work, numDays, p, n - 1);
      assert workers[..n][..n - 1] == workers[..n - 1];
      assert m[..n][..n - 1] == m[..n - 1];
    }
  }

  /** Per worker, the quota sum of a post counts the days each worker
      holds it. */
  lemma QuotaTotalIsRowTotal(inp: Inputs, work: Assignment, p: nat)
    requires Fits(inp, work) && Valid(inp, work) && IsUnconnectedPost(p)
    ensures QuotaTotal(inp.workers, p) == RowTotal(PostMatrix(work, |inp.days|, p))
  {
    forall w | 0 <= w < |work| ensures Count(PostDays(work[w], p)) == QuotaOf(inp.workers[w], p) {
      QuotaHeld(inp, work, w, p);
    }
    QuotaRows(inp.workers, work, |inp.days|, p, |work|);
    assert inp.workers[..|work|] == inp.workers;
    assert PostMatrix(work, |inp.days|, p)[..|work|] == PostMatrix(work, |inp.days|, p);
  }

  /** Per day, the same count is what the coverage rule asks for. */
  lemma RowTotalIsSlotSum(inp: Inputs, work: Assignment, p: nat)
    requires Shaped(work, |work|, |inp.days|) && p < NumWorkplaces
    requires forall d :: 0 <= d < |inp.days| ==> SlotCovered(inp, work, d, p)
    ensures RowTotal(PostMatrix(work, |inp.days|, p)) == SlotSum(inp, p, |inp.days|)
  {
    DoubleCount(PostMatrix(work, |inp.days|, p), |inp.days|);
    forall d | 0 <= d < |inp.days| ensures Count(Occupants(work, |inp.days|, d, p)) == SlotTotal(inp, d, p) {
      assert SlotCovered(inp, work, d, p);
    }
    PostColumnsCovered(inp, work, p, |inp.days|);
  }

  /** With no slot of the post closed by the preschedule, its quota sum is
      the number of days, or of workdays for ABD prip. */
  lemma QuotaTotalOpen(inp: Inputs, work: Assignment, p: nat)
    requires Fits(inp, work) && Valid(inp, work) && IsUnconnectedPost(p)
    requires forall d :: 0 <= d < |inp.days| ==> !Blocked(inp.plan, d, p)
    ensures QuotaTotal(inp.workers, p) == if p == AbdPripNdx then NumWorkdays(inp.days) else |inp.days|
  {
    QuotaTotalIsRowTotal(inp, work, p);
    RowTotalIsSlotSum(inp, work, p);
    SlotSumOpen(inp, p, |inp.days|);
    var flags := WorkdayFlags(inp.days);
    assert flags[..|inp.days|] == flags;
  }

  /** The warnings are necessary conditions: a month with a valid roster
      and no unconnected slot closed by the preschedule prints none. */
  lemma QuotaWarningsNecessary(inp: Inputs, work: Assignment)
    requires Fits(inp, work) && Valid(inp, work)
    requires forall d :: 0 <= d < |inp.days| ==>
      !Blocked(inp.plan, d, AbdomenNdx) && !Blocked(inp.plan, d, AbdPripNdx) && !Blocked(inp.plan, d, TravmaNdx)
    ensures QuotaWarnings(inp.workers, inp.days) == []
  {
    QuotaTotalOpen(inp, work, AbdomenNdx);
    QuotaTotalOpen(inp, work, AbdPripNdx);
    QuotaTotalOpen(inp, work, TravmaNdx);
  }

  // ---------------------------------------------------------------------
  // The night-count warnings

  /** Row d: the three night posts of day d. */
  function NightMatrix(rows: seq<seq<bool>>): (m: seq<seq<bool>>)
    requires MonthShaped(rows, |rows|)
    ensures |m| == |rows| && Rect(m, 3)
    ensures forall d :: 0 <= d < |rows| ==> m[d] == rows[d][5..8]
  {
    seq(|rows|, d requires 0 <= d < |rows| => rows[d][5..8])
  }

  lemma {:induction false} NightRowTotal(rows: seq<seq<bool>>)
    requires MonthShaped(rows, |rows|)
    ensures RowTotal(NightMatrix(rows)) == TotalNightPosts(rows)
  {
    if |rows| > 0 {
      var front := rows[..|rows| - 1];
      assert MonthShaped(front, |front|);
      NightRowTotal(front);
      assert NightMatrix(rows)[..|rows| - 1] == NightMatrix(front);
    }
  }

  lemma NightColumnCount(rows: seq<seq<bool>>, q: nat)
    requires MonthShaped(rows, |rows|) && q < 3
    ensures Count(Column(NightMatrix(rows), 3, q)) == Count(PostDays(rows, 5 + q))
  {
    var c, m := Column(NightMatrix(rows), 3, q), NightMatrix(rows);
    forall d | 0 <= d < |rows| ensures c[d] == rows[d][5 + q] {
      assert m[d] == rows[d][5..8];
    }
    assert c == PostDays(rows, 5 + q);
  }

  lemma ColTotalThree(m: seq<seq<bool>>)
    requires Rect(m, 3)
    ensures ColTotal(m, 3, 3) == Count(Column(m, 3, 0)) + Count(Column(m, 3, 1)) + Count(Column(m, 3, 2))
  {
    assert ColTotal(m, 3, 1) == Count(Column(m, 3, 0));
  }

  lemma NightColumnsCount(rows: seq<seq<bool>>)
    requires MonthShaped(rows, |rows|)
    ensures ColTotal(NightMatrix(rows), 3, 3) ==
      Count(PostDays(rows, BNightNdx)) + Count(PostDays(rows, MopNightNdx)) + Count(PostDays(rows, AbdNightNdx))
  {
    ColTotalThree(NightMatrix(rows));
    NightColumnCount(rows, 0);
    NightColumnCount(rows, 1);
    NightColumnCount(rows, 2);
  }

  /** A worker's nights are the KRG N - B, KRG N - MOP and KRG N - ABD
      nights added up. */
  lemma NightPostsByPost(rows: seq<seq<bool>>)
    requires MonthShaped(rows, |rows|)
    ensures TotalNightPosts(rows) ==
      Count(PostDays(rows, BNightNdx)) + Count(PostDays(rows, MopNightNdx)) + Count(PostDays(rows, AbdNightNdx))
  {
    NightRowTotal(rows);
    DoubleCount(NightMatrix(rows), 3);
    NightColumnsCount(rows);
  }

  /** The nights of the first n workers. */
  function NightTotal(work: Assignment, numDays: nat, n: nat): nat
    requires Shaped(work, |work|, numDays) && n <= |work|
  {
    if n == 0 then 0 else NightTotal(work, numDays, n - 1) + TotalNightPosts(work[n - 1])
  }

  lemma {:induction false} NightTotalByPost(work: Assignment, numDays: nat, n: nat)
    requires Shaped(work, |work|, numDays) && n <= |work|
    ensures NightTotal(work, numDays, n) ==
      RowTotal(PostMatrix(work, numDays, BNightNdx)[..n]) + RowTotal(PostMatrix(work, numDays, MopNightNdx)[..n])
      + RowTotal(PostMatrix(work, numDays, AbdNightNdx)[..n])
  {
    var b, mop, abd := PostMatrix(work, numDays, BNightNdx), PostMatrix(work, numDays, MopNightNdx),
                       PostMatrix(work, numDays, AbdNightNdx);
    if n == 0 {
      assert b[..0] == [] && mop[..0] == [] && abd[..0] == [];
      assert NightTotal(work, numDays, n) == 0;
    } else {
      NightTotalByPost(work, numDays, n - 1);
      NightPostsByPost(work[n - 1]);
      RowTotalStep(b, n);
      RowTotalStep(mop, n);
      RowTotalStep(abd, n);
      assert NightTotal(work, numDays, n) == NightTotal(work, numDays, n - 1) + TotalNightPosts(work[n - 1]);
    }
  }

  /** With no slot of a night post closed, a valid roster fills it every day. */
  lemma NightPostOpen(inp: Inputs, work: Assignment, p: nat)
    requires Shaped(work, |work|, |inp.days|) && IsNightPost(p)
    requires forall d :: 0 <= d < |inp.days| ==> SlotCovered(inp, work, d, p) && !Blocked(inp.plan, d, p)
    ensures RowTotal(PostMatrix(work, |inp.days|, p)[..|work|]) == |inp.days|
  {
    assert PostMatrix(work, |inp.days|, p)[..|work|] == PostMatrix(work, |inp.days|, p);
    RowTotalIsSlotSum(inp, work, p);
    SlotSumOpen(inp, p, |inp.days|);
  }

  /** With no night slot closed by the preschedule, a valid roster works
      exactly `total_night_places` = 3 per day nights. */
  lemma NightPlacesFilled(inp: Inputs, work: Assignment)
    requires Fits(inp, work) && Valid(inp, work)
    requires forall d, p :: 0 <= d < |inp.days| && IsNightPost(p) ==> !Blocked(inp.plan, d, p)
    ensures NightTotal(work, |inp.days|, |work|) == 3 * |inp.days|
  {
    NightPlacesCovered(inp, work);
  }

  /** The same count, from coverage alone. */
  lemma NightPlacesCovered(inp: Inputs, work: Assignment)
    requires Shaped(work, |work|, |inp.days|)
    requires forall d, p :: 0 <= d < |inp.days| && 0 <= p < NumWorkplaces ==> SlotCovered(inp, work, d, p)
    requires forall d, p :: 0 <= d < |inp.days| && IsNightPost(p) ==> !Blocked(inp.plan, d, p)
    ensures NightTotal(work, |inp.days|, |work|) == 3 * |inp.days|
  {
    NightPostOpen(inp, work, BNightNdx);
    NightPostOpen(inp, work, MopNightNdx);
    NightPostOpen(inp, work, AbdNightNdx);
    NightTotalFromPosts(work, |inp.days|);
  }

  /** Each night post held once a day makes three nights a day. */
  lemma NightTotalFromPosts(work: Assignment, numDays: nat)
    requires Shaped(work, |work|, numDays)
    requires RowTotal(PostMatrix(work, numDays, BNightNdx)[..|work|]) == numDays
    requires RowTotal(PostMatrix(work, numDays, MopNightNdx)[..|work|]) == numDays
    requires RowTotal(PostMatrix(work, numDays, AbdNightNdx)[..|work|]) == numDays
    ensures NightTotal(work, numDays, |work|) == 3 * numDays
  {
    NightTotalByPost(work, numDays, |work|);
  }

  /** Every night post is in one of the worker's three lists, as the
      parser leaves them. */
  predicate NightPostsListed(wp: WorkplaceLists)
  {
    forall p :: 5 <= p < 8 ==> p in wp.yes || p in wp.maybe || p in wp.no
  }

  /** A night post in YES or MAYBE makes a night worker. */
  lemma NightPostOffered(w: Worker, p: int)
    requires IsNightPost(p) && (p in w.workplaces.yes || p in w.workplaces.maybe)
    ensures WorksNightShifts(w)
  {
    WorksNightShiftsMeaning(w);
    if p in w.workplaces.yes {
      var i :| 0 <= i < |w.workplaces.yes| && w.workplaces.yes[i] == p;
    } else {
      var i :| 0 <= i < |w.workplaces.maybe| && w.workplaces.maybe[i] == p;
    }
  }

  /** Somebody who does not work nights holds no night post. */
  lemma NoNightsForDayWorkers(inp: Inputs, work: Assignment, w: nat)
    requires Fits(inp, work) && Valid(inp, work) && w < |work|
    requires NightPostsListed(inp.workers[w].workplaces) && !WorksNightShifts(inp.workers[w])
    ensures TotalNightPosts(work[w]) == 0
  {
    var worker, rows := inp.workers[w], work[w];
    assert WorkerRules(inp, worker, rows);
    forall p | IsNightPost(p) ensures Count(PostDays(rows, p)) == 0 {
      if p in worker.workplaces.yes || p in worker.workplaces.maybe {
        NightPostOffered(worker, p);
      }
      forall d | 0 <= d < |rows| ensures !PostDays(rows, p)[d] {
        assert DayRules(inp, worker, rows, d);
        assert Eligible(worker, rows[d]);
      }
      CountZero(PostDays(rows, p));
    }
    NightPostsByPost(rows);
  }

  /** A night worker's nights lie in its bounds; anybody else works none. */
  predicate NightsWithin(worker: Worker, rows: seq<seq<bool>>)
    requires MinNightShifts(worker.status).Some? && MonthShaped(rows, |rows|)
  {
    if WorksNightShifts(worker)
    then MinNightShifts(worker.status).value <= TotalNightPosts(rows) <= MaxNightShifts(worker)
    else TotalNightPosts(rows) == 0
  }

  /** The accumulated minimum and maximum bracket the nights of the first
      n workers when each worker keeps to its own bounds. */
  lemma {:induction false} NightTotalsBracket(workers: seq<Worker>, work: Assignment, numDays: nat, n: nat)
    requires Shaped(work, |work|, numDays) && |workers| == |work| && n <= |work|
    requires forall w :: 0 <= w < n ==> MinNightShifts(workers[w].status).Some? && NightsWithin(workers[w], work[w])
    ensures NightTotalsOf(workers, n).Ok?
    ensures var t := NightTotalsOf(workers, n).value; t.0 <= NightTotal(work, numDays, n) <= t.1
  {
    if n > 0 {
      NightTotalsBracket(workers, work, numDays, n - 1);
      var prev := NightTotalsOf(workers, n - 1).value;
      var worker := workers[n - 1];
      assert NightsWithin(worker, work[n - 1]);
      if WorksNightShifts(worker) {
        var lo := MinNightShifts(worker.status).value;
        assert NightTotalsOf(workers, n) == Ok((prev.0 + lo, prev.1 + MaxNightShifts(worker)));
      } else {
        assert NightTotalsOf(workers, n) == Ok(prev);
      }
    }
  }

  /** In a valid roster every worker keeps to its night bounds. */
  lemma ValidNightsWithin(inp: Inputs, work: Assignment, w: nat)
    requires Fits(inp, work) && Valid(inp, work) && w < |work|
    requires NightPostsListed(inp.workers[w].workplaces)
    ensures MinNightShifts(inp.workers[w].status).Some? && NightsWithin(inp.workers[w], work[w])
  {
    assert WorkerReady(inp, inp.workers[w]);
    if WorksNightShifts(inp.workers[w]) {
      NightShiftsBounded(inp, work, w);
    } else {
      NoNightsForDayWorkers(inp, work, w);
    }
  }

  /** The night warnings are necessary conditions: a month with a valid
      roster and no night slot closed by the preschedule prints neither,
      and the accumulated minimum and maximum bracket its night places. */
  lemma NightWarningsNecessary(inp: Inputs, work: Assignment)
    requires Fits(inp, work) && Valid(inp, work)
    requires forall w :: 0 <= w < |inp.workers| ==> NightPostsListed(inp.workers[w].workplaces)
    requires forall d, p :: 0 <= d < |inp.days| && IsNightPost(p) ==> !Blocked(inp.plan, d, p)
    ensures NightTotalsOf(inp.workers, |inp.workers|).Ok?
    ensures var t := NightTotalsOf(inp.workers, |inp.workers|).value;
      t.0 <= 3 * |inp.days| <= t.1 && NightWarnings(t.0, t.1, |inp.days|) == []
  {
    forall w | 0 <= w < |work|
      ensures MinNightShifts(inp.workers[w].status).Some? && NightsWithin(inp.workers[w], work[w])
    {
      ValidNightsWithin(inp, work, w);
    }
    NightTotalsBracket(inp.workers, work, |inp.days|, |work|);
    NightPlacesFilled(inp, work);
  }
}
