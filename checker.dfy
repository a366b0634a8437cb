/** The loops of `construct_and_optimize` that walk the assignment: the
    slot sums of the coverage rule, a checker that runs every hard rule
    over a concrete roster, and the two lists the objective is summed
    from (`penalty_consecutive_nights` and `total_workloads`). */
module Checker {
  import opened Wrappers
  import opened Workplaces
  import opened Workers
  import opened Roster
  import opened Workload
  import opened Constraints
  import opened Objective

  lemma CountStep(s: seq<bool>, i: nat)
    requires i < |s|
    ensures Count(s[..i + 1]) == Count(s[..i]) + B(s[i])
  {
    assert s[..i + 1][..i] == s[..i];
  }

  lemma SumStep(s: seq<int>, i: nat)
    requires i < |s|
    ensures Sum(s[..i + 1]) == Sum(s[..i]) + s[i]
  {
    assert s[..i + 1][..i] == s[..i];
  }

  /** `sum(work[ww, dd, pp] for ww in range(num_workers))`. */
  method SlotCount(inp: Inputs, work: Assignment, d: nat, p: nat) returns (n: nat)
    requires Fits(inp, work) && d < |inp.days| && p < NumWorkplaces
    ensures n == Count(Occupants(work, |inp.days|, d, p))
  {
    ghost var c := Occupants(work, |inp.days|, d, p);
    n := 0;
    var w := 0;
    while w < |work|
      invariant 0 <= w <= |work|
      invariant n == Count(c[..w])
    {
      CountStep(c, w);
      if work[w][d][p] {
        n := n + 1;
      }
      w := w + 1;
    }
    assert c[..|work|] == c;
  }

  /** Every rule of one worker, day by day and then over the month. */
  method CheckWorker(inp: Inputs, worker: Worker, rows: seq<seq<bool>>) returns (ok: bool)
    requires WorkerReady(inp, worker) && |inp.config.workplaceWeights| > 0 && MonthShaped(rows, |inp.days|)
    ensures ok == WorkerRules(inp, worker, rows)
  {
    var d := 0;
    while d < |inp.days|
      invariant 0 <= d <= |inp.days|
      invariant forall e :: 0 <= e < d ==> DayRules(inp, worker, rows, e)
    {
      if !DayRules(inp, worker, rows, d) {
        return false;
      }
      d := d + 1;
    }
    ok := MonthRules(inp, worker, rows);
  }

  /** The coverage rule over every slot. */
  method CheckSlots(inp: Inputs, work: Assignment) returns (ok: bool)
    requires Fits(inp, work)
    ensures ok == forall d, p :: 0 <= d < |inp.days| && 0 <= p < NumWorkplaces ==> SlotCovered(inp, work, d, p)
  {
    var d := 0;
    while d < |inp.days|
      invariant 0 <= d <= |inp.days|
      invariant forall e, q :: 0 <= e < d && 0 <= q < NumWorkplaces ==> SlotCovered(inp, work, e, q)
    {
      var p := 0;
      while p < NumWorkplaces
        invariant 0 <= p <= NumWorkplaces
        invariant forall e, q :: 0 <= e < d && 0 <= q < NumWorkplaces ==> SlotCovered(inp, work, e, q)
        invariant forall q :: 0 <= q < p ==> SlotCovered(inp, work, d, q)
      {
        var n := SlotCount(inp, work, d, p);
        if n != SlotTotal(inp, d, p) {
          assert !SlotCovered(inp, work, d, p);
          return false;
        }
        p := p + 1;
      }
      d := d + 1;
    }
    return true;
  }

  /** Every preschedule entry over the roster. */
  method CheckPlan(inp: Inputs, work: Assignment) returns (ok: bool)
    requires Fits(inp, work)
    ensures ok == forall k :: 0 <= k < |inp.plan| ==> PlacedHonoured(inp, work, inp.plan[k])
  {
    var k := 0;
    while k < |inp.plan|
      invariant 0 <= k <= |inp.plan|
      invariant forall j :: 0 <= j < k ==> PlacedHonoured(inp, work, inp.plan[j])
    {
      if !PlacedHonoured(inp, work, inp.plan[k]) {
        return false;
      }
      k := k + 1;
    }
    return true;
  }

  /** Runs every hard constraint over a concrete roster: it accepts exactly
      the rosters the constraint blocks admit. */
  method CheckRoster(inp: Inputs, work: Assignment) returns (ok: bool)
    requires Fits(inp, work)
    ensures ok == Valid(inp, work)
  {
    ok := CheckSlots(inp, work);
    if !ok {
      return;
    }
    ok := CheckPlan(inp, work);
    if !ok {
      return;
    }
    var w := 0;
    while w < |inp.workers|
      invariant 0 <= w <= |inp.workers|
      invariant forall v :: 0 <= v < w ==> WorkerRules(inp, inp.workers[v], work[v])
    {
      ok := CheckWorker(inp, inp.workers[w], work[w]);
      if !ok {
        return;
      }
      w := w + 1;
    }
  }

  lemma MulStep(w: nat, m: nat)
    ensures (w + 1) * m == w * m + m
  {
  }

  /** One worker's share of `penalty_consecutive_nights`: a flag for each
      day whose night is followed by another night. */
  method WorkerNightPenalties(rows: seq<seq<bool>>) returns (flags: seq<bool>)
    requires MonthShaped(rows, |rows|)
    ensures flags == NightRuns(rows)
  {
    var m := if |rows| == 0 then 0 else |rows| - 1;
    flags := [];
    var dd := 0;
    while dd < m
      invariant 0 <= dd <= m
      invariant flags == NightRuns(rows)[..dd]
    {
      flags := flags + [NightsInRow(rows, dd)];
      dd := dd + 1;
    }
  }

  /** The `penalty_consecutive_nights` list, one flag per worker and pair
      of neighbouring days; the objective sums it. */
  method NightPenalties(work: Assignment, numDays: nat) returns (penalties: seq<bool>)
    requires Shaped(work, |work|, numDays)
    ensures |penalties| == |work| * (if numDays == 0 then 0 else numDays - 1)
    ensures Count(penalties) == Sum(NightRunWorkers(work, numDays))
  {
    var m := if numDays == 0 then 0 else numDays - 1;
    ghost var perWorker := NightRunWorkers(work, numDays);
    penalties := [];
    var w := 0;
    while w < |work|
      invariant 0 <= w <= |work|
      invariant |penalties| == w * m
      invariant Count(penalties) == Sum(perWorker[..w])
    {
      assert MonthShaped(work[w], numDays);
      var flags := WorkerNightPenalties(work[w]);
      assert |flags| == m;
      CountAppend(penalties, flags);
      SumStep(perWorker, w);
      MulStep(w, m);
      penalties := penalties + flags;
      w := w + 1;
    }
    assert perWorker[..|work|] == perWorker;
  }

  /** Every worker's load, with 0 standing in for the Krožeči. */
  function AllLoads(inp: Inputs, work: Assignment): (r: seq<int>)
    requires LoadsReady(inp, work)
    ensures |r| == |work|
    ensures forall w :: 0 <= w < |work| && !SkipsWorkload(inp.workers[w]) ==> r[w] == LoadAt(inp, work, w)
  {
    seq(|work|, w requires 0 <= w < |work| => if SkipsWorkload(inp.workers[w]) then 0 else LoadAt(inp, work, w))
  }

  /** The list the loop has built after n of the workers whose loads are
      `vals`. */
  function LoadsUpTo(workers: seq<Worker>, vals: seq<int>, n: nat): seq<int>
    requires |vals| == |workers| && n <= |workers|
  {
    if n == 0 then []
    else if SkipsWorkload(workers[n - 1]) then LoadsUpTo(workers, vals, n - 1)
    else LoadsUpTo(workers, vals, n - 1) + [vals[n - 1]]
  }

  /** The list built after n workers holds the loads of those who are not
      Krožeči, in order. */
  lemma {:induction false} LoadsUpToKept(workers: seq<Worker>, vals: seq<int>, n: nat)
    requires |vals| == |workers| && n <= |workers|
    ensures var r, ks := LoadsUpTo(workers, vals, n), LoadWorkers(workers, n);
      |r| == |ks| && forall k :: 0 <= k < |ks| ==> r[k] == vals[ks[k]]
  {
    if n > 0 {
      LoadsUpToKept(workers, vals, n - 1);
      var prev, ks := LoadsUpTo(workers, vals, n - 1), LoadWorkers(workers, n - 1);
      if SkipsWorkload(workers[n - 1]) {
        assert LoadsUpTo(workers, vals, n) == prev && LoadWorkers(workers, n) == ks;
      } else {
        var r, ks' := prev + [vals[n - 1]], ks + [n - 1];
        assert LoadsUpTo(workers, vals, n) == r && LoadWorkers(workers, n) == ks';
        forall k | 0 <= k < |ks'| ensures r[k] == vals[ks'[k]] {
          if k < |ks| {
            assert r[k] == prev[k] && ks'[k] == ks[k];
          }
        }
      }
    }
  }

  /** After all workers the loop has built `Loads`. */
  lemma LoadsUpToAll(inp: Inputs, work: Assignment)
    requires Fits(inp, work) && LoadsReady(inp, work)
    ensures LoadsUpTo(inp.workers, AllLoads(inp, work), |work|) == Loads(inp, work)
  {
    LoadsUpToKept(inp.workers, AllLoads(inp, work), |work|);
  }

  /** The body of the loop over the workers: a Krožeči worker is
      skipped, anyone else's `total` is looked up and appended. */
  method AddLoad(inp: Inputs, work: Assignment, w: nat, loads: seq<int>) returns (r: seq<int>)
    requires LoadsReady(inp, work) && w < |work|
    requires loads == LoadsUpTo(inp.workers, AllLoads(inp, work), w)
    ensures r == LoadsUpTo(inp.workers, AllLoads(inp, work), w + 1)
  {
    var worker := inp.workers[w];
    if SkipsWorkload(worker) {
      return loads;
    }
    var weights := WeightsOf(inp.config.workplaceWeights, worker);
    var total := Workload.Workload(weights, inp.days, work[w]);
    r := loads + [total];
  }

  /** The loop over the workers that builds `total_workloads`. */
  method CollectLoads(inp: Inputs, work: Assignment) returns (loads: seq<int>)
    requires LoadsReady(inp, work)
    ensures loads == LoadsUpTo(inp.workers, AllLoads(inp, work), |work|)
  {
    loads := [];
    for w := 0 to |work|
      invariant loads == LoadsUpTo(inp.workers, AllLoads(inp, work), w)
    {
      loads := AddLoad(inp, work, w, loads);
    }
  }

  /** The `total_workloads` list: one weighted workload per worker who is
      not Krožeči, in worker order. */
  method TotalWorkloads(inp: Inputs, work: Assignment) returns (loads: seq<int>)
    requires Fits(inp, work)
    ensures loads == Loads(inp, work)
  {
    FitsLoadsReady(inp, work);
    loads := CollectLoads(inp, work);
    LoadsUpToAll(inp, work);
  }
}
