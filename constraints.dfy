/** The hard constraints `construct_and_optimize` hands to the solver,
    stated as predicates over one concrete assignment `work[w][d][p]`.
    A roster the solver may return is exactly one for which `Valid` holds. */
module Constraints {
  import opened Wrappers
  import opened Workplaces
  import opened Workers
  import opened Roster
  import opened Workload

  // ---------------------------------------------------------------------
  // What holds of the inputs once the program reaches the constraints

  predicate WorkerReady(inp: Inputs, w: Worker)
  {
    && |w.workdates| >= |inp.days|
    && (forall i :: 0 <= i < |w.workplaces.yes| ==> 0 <= w.workplaces.yes[i] < NumWorkplaces)
    && (forall i :: 0 <= i < |w.workplaces.maybe| ==> 0 <= w.workplaces.maybe[i] < NumWorkplaces)
    && |w.workplaces.yes| + |w.workplaces.maybe| <= NumWorkplaces
    && MinNightShifts(w.status).Some?
    && YearOfSpecialization(w.status).Some?
    && 1 <= YearOfSpecialization(w.status).value <= 6
    && (w.included == Omejeno ==> w.numDayshiftsOmejeno.Some? && w.numNightshiftsOmejeno.Some?)
    && (!SkipsWorkload(w) ==> HasWorkerWeights(inp.config.workplaceWeights, w))
  }

  predicate PlacedReady(inp: Inputs, e: Placed)
  {
    && e.day < |inp.days| && e.place < NumWorkplaces
    && (e.worker.Some? ==> e.worker.value < |inp.workers| && inp.workers[e.worker.value].name == e.name)
  }

  predicate Ready(inp: Inputs)
  {
    && |inp.workers| > 0
    && (forall w :: 0 <= w < |inp.workers| ==> WorkerReady(inp, inp.workers[w]))
    && (forall k :: 0 <= k < |inp.plan| ==> PlacedReady(inp, inp.plan[k]))
    && |inp.config.workplaceWeights| > 0
    && DistinctKeys(inp.config.workplaceWeights)
  }

  predicate Fits(inp: Inputs, work: Assignment)
  {
    Ready(inp) && Shaped(work, |inp.workers|, |inp.days|)
  }

  // ---------------------------------------------------------------------
  // Slot coverage and the preschedule

  /** The slot was prescheduled to someone who is not a worker of the run. */
  predicate Blocked(plan: seq<Placed>, d: nat, p: nat)
  {
    exists k :: 0 <= k < |plan| && plan[k].worker.None? && plan[k].day == d && plan[k].place == p
  }

  /** How many workers slot (d, p) takes. */
  function SlotTotal(inp: Inputs, d: nat, p: nat): nat
    requires d < |inp.days|
  {
    if Blocked(inp.plan, d, p) then 0
    else if p == AbdPripNdx && !inp.days[d].isWorkday then 0
    else 1
  }

  predicate SlotCovered(inp: Inputs, work: Assignment, d: nat, p: nat)
    requires Shaped(work, |work|, |inp.days|) && d < |inp.days| && p < NumWorkplaces
  {
    Count(Occupants(work, |inp.days|, d, p)) == SlotTotal(inp, d, p)
  }

  /** A prescheduled worker holds the slot; an outsider's slot is closed. */
  predicate PlacedHonoured(inp: Inputs, work: Assignment, e: Placed)
    requires Fits(inp, work) && PlacedReady(inp, e)
  {
    match e.worker
    case Some(w) => work[w][e.day][e.place]
    case None => forall w :: 0 <= w < |work| ==> !work[w][e.day][e.place]
  }

  // ---------------------------------------------------------------------
  // Rules about one worker on one day

  predicate Eligible(worker: Worker, row: seq<bool>)
    requires |row| == NumWorkplaces
  {
    forall p :: 0 <= p < NumWorkplaces && p in worker.workplaces.no ==> !row[p]
  }

  predicate NoNightThenDay(rows: seq<seq<bool>>, d: nat)
    requires MonthShaped(rows, |rows|) && d + 1 < |rows|
  {
    NightPosts(rows[d]) + DayPosts(rows[d + 1]) <= 1
  }

  predicate NoDayAndNight(day: Day, row: seq<bool>)
    requires |row| == NumWorkplaces
  {
    day.isWorkday ==> DayPosts(row) + NightPosts(row) <= 1
  }

  predicate UnconnectedAlone(row: seq<bool>)
    requires |row| == NumWorkplaces
  {
    UnconnectedPosts(row) >= 1 ==> AllPosts(row) == 1
  }

  predicate Working(row: seq<bool>)
    requires |row| == NumWorkplaces
  {
    AllPosts(row) >= 1
  }

  predicate NoThreeInRow(rows: seq<seq<bool>>, d: nat)
    requires MonthShaped(rows, |rows|) && d + 2 < |rows|
  {
    B(Working(rows[d])) + B(Working(rows[d + 1])) + B(Working(rows[d + 2])) <= 2
  }

  /** +1 or 0: the worker can take that shift. */
  predicate Available(x: int) { x == 1 || x == 0 }

  predicate WithinAvailability(a: Availability, row: seq<bool>)
    requires |row| == NumWorkplaces
  {
    && (if Available(a.day) then DayPosts(row) <= 1 else DayPosts(row) == 0)
    && (if Available(a.night) then NightPosts(row) <= 1 else NightPosts(row) == 0)
    && (if Available(a.day) && Available(a.night) then UnconnectedPosts(row) <= 1 else UnconnectedPosts(row) == 0)
  }

  predicate OnWeekend(day: Day) { day.isWeekend || day.isHoliday }

  /** `works_24_day`: KRG 3 or KRG N - MOP on that day. */
  predicate WorksMop24(row: seq<bool>)
    requires |row| == NumWorkplaces
  {
    row[MopDayNdx] || row[MopNightNdx]
  }

  /** The 24-hour rules of a night-working worker on a weekend or holiday. */
  predicate Weekend24(rows: seq<seq<bool>>, d: nat)
    requires MonthShaped(rows, |rows|) && d < |rows|
  {
    var row := rows[d];
    && (if row[MopDayNdx] then B(row[AbdNightNdx]) + B(row[BNightNdx]) == 1
        else B(row[AbdNightNdx]) + B(row[BNightNdx]) <= 1)
    && (if row[MopNightNdx] then B(row[AbdDayNdx]) + B(row[BDayNdx]) == 1
        else B(row[AbdDayNdx]) + B(row[BDayNdx]) <= 1)
    && (WorksMop24(row) ==>
          (d + 1 < |rows| ==> AllPosts(rows[d + 1]) == 0) && (d > 0 ==> AllPosts(rows[d - 1]) == 0))
  }

  predicate DayRules(inp: Inputs, worker: Worker, rows: seq<seq<bool>>, d: nat)
    requires WorkerReady(inp, worker) && MonthShaped(rows, |inp.days|) && d < |inp.days|
  {
    && Eligible(worker, rows[d])
    && (d + 1 < |rows| ==> NoNightThenDay(rows, d))
    && NoDayAndNight(inp.days[d], rows[d])
    && UnconnectedAlone(rows[d])
    && (d + 2 < |rows| ==> NoThreeInRow(rows, d))
    && WithinAvailability(worker.workdates[d], rows[d])
    && (WorksNightShifts(worker) && OnWeekend(inp.days[d]) ==> Weekend24(rows, d))
  }

  // ---------------------------------------------------------------------
  // Rules about one worker's month

  /** The `works_24_mop_day` flags of the weekend and holiday days. */
  function MopDayFlags(days: seq<Day>, rows: seq<seq<bool>>): (c: seq<bool>)
    requires MonthShaped(rows, |days|)
    ensures |c| == |days| && forall d :: 0 <= d < |days| ==> c[d] == (OnWeekend(days[d]) && rows[d][MopDayNdx])
  {
    seq(|days|, d requires 0 <= d < |days| => OnWeekend(days[d]) && rows[d][MopDayNdx])
  }

  /** The `works_24_mop_night` flags of the weekend and holiday days. */
  function MopNightFlags(days: seq<Day>, rows: seq<seq<bool>>): (c: seq<bool>)
    requires MonthShaped(rows, |days|)
    ensures |c| == |days| && forall d :: 0 <= d < |days| ==> c[d] == (OnWeekend(days[d]) && rows[d][MopNightNdx])
  {
    seq(|days|, d requires 0 <= d < |days| => OnWeekend(days[d]) && rows[d][MopNightNdx])
  }

  /** `sum(mop24_list)`: 24-hour MOP shifts over the month. */
  function Mop24Count(days: seq<Day>, rows: seq<seq<bool>>): nat
    requires MonthShaped(rows, |days|)
  {
    Count(MopDayFlags(days, rows)) + Count(MopNightFlags(days, rows))
  }

  predicate PairWorked(rows: seq<seq<bool>>, pair: (nat, nat))
    requires MonthShaped(rows, |rows|) && pair.0 < |rows| && pair.1 < |rows|
  {
    DayPosts(rows[pair.0]) >= 1 && DayPosts(rows[pair.1]) >= 1
  }

  /** The `works_pair` flags of the weekend pairs. */
  function PairFlags(pairs: seq<(nat, nat)>, rows: seq<seq<bool>>): (c: seq<bool>)
    requires MonthShaped(rows, |rows|)
    requires forall k :: 0 <= k < |pairs| ==> pairs[k].0 < |rows| && pairs[k].1 < |rows|
    ensures |c| == |pairs| && forall k :: 0 <= k < |pairs| ==> c[k] == PairWorked(rows, pairs[k])
  {
    seq(|pairs|, k requires 0 <= k < |pairs| => PairWorked(rows, pairs[k]))
  }

  predicate WeekendLimit(inp: Inputs, worker: Worker, rows: seq<seq<bool>>)
    requires MonthShaped(rows, |inp.days|)
  {
    if WorksNightShifts(worker) then Mop24Count(inp.days, rows) <= 1
    else Count(PairFlags(WeekendPairs(inp.days), rows)) <= 1
  }

  predicate QuotasMet(worker: Worker, days: seq<Day>, rows: seq<seq<bool>>)
    requires MonthShaped(rows, |days|)
  {
    && Count(PostDays(rows, AbdomenNdx)) == worker.worksAbdDez
    && Count(PostWorkdays(rows, days, AbdPripNdx)) == worker.worksAbdPrip
    && Count(PostDays(rows, TravmaNdx)) == worker.worksTravmaPrip
  }

  predicate DayShiftCap(worker: Worker, rows: seq<seq<bool>>)
    requires MonthShaped(rows, |rows|)
  {
    worker.maxNumDayshifts.Some? ==> TotalDayPosts(rows) <= worker.maxNumDayshifts.value
  }

  /** `max_shifts = max(min_shifts, 5 - reduce_shifts)`. */
  function MaxNightShifts(worker: Worker): (r: int)
    requires MinNightShifts(worker.status).Some?
    ensures r >= MinNightShifts(worker.status).value && r >= 5 - worker.reduceShifts
    ensures r == MinNightShifts(worker.status).value || r == 5 - worker.reduceShifts
  {
    var lo := MinNightShifts(worker.status).value;
    if lo >= 5 - worker.reduceShifts then lo else 5 - worker.reduceShifts
  }

  predicate NightCountBounds(worker: Worker, rows: seq<seq<bool>>)
    requires MinNightShifts(worker.status).Some? && MonthShaped(rows, |rows|)
  {
    WorksNightShifts(worker) ==>
      var lo, hi := MinNightShifts(worker.status).value, MaxNightShifts(worker);
      if hi < lo then TotalNightPosts(rows) == 0
      else lo <= TotalNightPosts(rows) <= hi
  }

  predicate KrozeciCount(worker: Worker, rows: seq<seq<bool>>, scheduled: int)
    requires MonthShaped(rows, |rows|)
  {
    IsKrozeci(worker) ==> TotalPosts(rows) == scheduled
  }

  predicate OmejenoCounts(worker: Worker, rows: seq<seq<bool>>)
    requires worker.included == Omejeno ==> worker.numDayshiftsOmejeno.Some? && worker.numNightshiftsOmejeno.Some?
    requires MonthShaped(rows, |rows|)
  {
    worker.included == Omejeno ==>
      TotalDayPosts(rows) == worker.numDayshiftsOmejeno.value &&
      TotalNightPosts(rows) == worker.numNightshiftsOmejeno.value
  }

  /** The domain [0, max_possible_work] of the workload variable `total`. */
  predicate WorkloadInDomain(inp: Inputs, worker: Worker, rows: seq<seq<bool>>)
    requires WorkerReady(inp, worker) && |inp.config.workplaceWeights| > 0 && MonthShaped(rows, |inp.days|)
  {
    !SkipsWorkload(worker) ==>
      var load := Workload.Workload(WeightsOf(inp.config.workplaceWeights, worker), inp.days, rows);
      0 <= load <= MaxPossibleWork(|inp.days|, inp.config.workplaceWeights)
  }

  predicate MonthRules(inp: Inputs, worker: Worker, rows: seq<seq<bool>>)
    requires WorkerReady(inp, worker) && |inp.config.workplaceWeights| > 0 && MonthShaped(rows, |inp.days|)
  {
    && QuotasMet(worker, inp.days, rows)
    && WeekendLimit(inp, worker, rows)
    && DayShiftCap(worker, rows)
    && NightCountBounds(worker, rows)
    && KrozeciCount(worker, rows, inp.config.krozeciScheduled)
    && OmejenoCounts(worker, rows)
    && WorkloadInDomain(inp, worker, rows)
  }

  predicate WorkerRules(inp: Inputs, worker: Worker, rows: seq<seq<bool>>)
    requires WorkerReady(inp, worker) && |inp.config.workplaceWeights| > 0 && MonthShaped(rows, |inp.days|)
  {
    (forall d :: 0 <= d < |inp.days| ==> DayRules(inp, worker, rows, d)) && MonthRules(inp, worker, rows)
  }

  /** Every hard constraint of the model. */
  predicate Valid(inp: Inputs, work: Assignment)
    requires Fits(inp, work)
  {
    && (forall d, p :: 0 <= d < |inp.days| && 0 <= p < NumWorkplaces ==> SlotCovered(inp, work, d, p))
    && (forall k :: 0 <= k < |inp.plan| ==> PlacedHonoured(inp, work, inp.plan[k]))
    && (forall w :: 0 <= w < |inp.workers| ==> WorkerRules(inp, inp.workers[w], work[w]))
  }

  // ---------------------------------------------------------------------
  // What a valid roster guarantees

  /** A post of a class whose count is zero is not worked. */
  lemma ClassEmpty(row: seq<bool>, p: nat)
    requires |row| == NumWorkplaces && p < NumWorkplaces
    ensures IsDayPost(p) && DayPosts(row) == 0 ==> !row[p]
    ensures IsNightPost(p) && NightPosts(row) == 0 ==> !row[p]
    ensures IsUnconnectedPost(p) && UnconnectedPosts(row) == 0 ==> !row[p]
    ensures AllPosts(row) == 0 ==> !row[p]
  {
    if row[p] {
      ClassCounts(row, p);
    }
  }

  /** Within a class counted at most once, a worked post is the only one worked. */
  lemma ClassAtMostOne(row: seq<bool>, p: nat, q: nat)
    requires |row| == NumWorkplaces && p < NumWorkplaces && q < NumWorkplaces && p != q && row[p]
    ensures IsDayPost(p) && IsDayPost(q) && DayPosts(row) <= 1 ==> !row[q]
    ensures IsNightPost(p) && IsNightPost(q) && NightPosts(row) <= 1 ==> !row[q]
  {
    ClassCounts(row, p);
    if IsDayPost(p) && IsDayPost(q) && DayPosts(row) <= 1 {
      assert row[..5][p] == row[p];
      CountOne(row[..5], p);
      assert row[..5][q] == row[q];
    }
    if IsNightPost(p) && IsNightPost(q) && NightPosts(row) <= 1 {
      assert row[5..8][p - 5] == row[p];
      CountOne(row[5..8], p - 5);
      assert row[5..8][q - 5] == row[q];
    }
  }

  /** Every open slot has exactly one holder and a closed slot none. */
  lemma SlotHolders(inp: Inputs, work: Assignment, d: nat, p: nat)
    requires Fits(inp, work) && Valid(inp, work) && d < |inp.days| && p < NumWorkplaces
    ensures SlotTotal(inp, d, p) == 0 <==> forall w :: 0 <= w < |work| ==> !work[w][d][p]
    ensures SlotTotal(inp, d, p) == 1 ==>
      exists w :: 0 <= w < |work| && work[w][d][p] && forall v :: 0 <= v < |work| && v != w ==> !work[v][d][p]
  {
    assert SlotCovered(inp, work, d, p);
    var c := Occupants(work, |inp.days|, d, p);
    CountZero(c);
    if SlotTotal(inp, d, p) == 1 {
      var w :| 0 <= w < |c| && c[w];
      CountOne(c, w);
    }
  }

  /** A prescheduled worker holds the slot, alone, and the slot is open. */
  lemma PrescheduleKept(inp: Inputs, work: Assignment, k: nat)
    requires Fits(inp, work) && Valid(inp, work) && k < |inp.plan| && inp.plan[k].worker.Some?
    ensures var e := inp.plan[k];
      && work[e.worker.value][e.day][e.place]
      && SlotTotal(inp, e.day, e.place) == 1
      && forall v :: 0 <= v < |work| && v != e.worker.value ==> !work[v][e.day][e.place]
  {
    var e := inp.plan[k];
    assert PlacedReady(inp, e) && PlacedHonoured(inp, work, e);
    SlotHolders(inp, work, e.day, e.place);
  }

  /** Nobody works a post on their NO list. */
  lemma NoListRespected(inp: Inputs, work: Assignment, w: nat, d: nat, p: nat)
    requires Fits(inp, work) && Valid(inp, work) && w < |work| && d < |inp.days| && p < NumWorkplaces
    requires p in inp.workers[w].workplaces.no
    ensures !work[w][d][p]
  {
    assert WorkerReady(inp, inp.workers[w]) && DayRules(inp, inp.workers[w], work[w], d);
  }

  /** No day post the day after a night post. */
  lemma NightThenNoDay(inp: Inputs, work: Assignment, w: nat, d: nat, pn: nat, pd: nat)
    requires Fits(inp, work) && Valid(inp, work) && w < |work| && d + 1 < |inp.days|
    requires IsNightPost(pn) && IsDayPost(pd)
    ensures work[w][d][pn] ==> !work[w][d + 1][pd]
  {
    var rows := work[w];
    assert WorkerReady(inp, inp.workers[w]) && DayRules(inp, inp.workers[w], rows, d);
    if rows[d][pn] {
      ClassCounts(rows[d], pn);
      ClassEmpty(rows[d + 1], pd);
    }
  }

  /** On a workday nobody works both a day post and a night post. */
  lemma WorkdayDayOrNight(inp: Inputs, work: Assignment, w: nat, d: nat, pd: nat, pn: nat)
    requires Fits(inp, work) && Valid(inp, work) && w < |work| && d < |inp.days| && inp.days[d].isWorkday
    requires IsDayPost(pd) && IsNightPost(pn)
    ensures work[w][d][pd] ==> !work[w][d][pn]
  {
    var rows := work[w];
    assert WorkerReady(inp, inp.workers[w]) && DayRules(inp, inp.workers[w], rows, d);
    if rows[d][pd] {
      ClassCounts(rows[d], pd);
      ClassEmpty(rows[d], pn);
    }
  }

  /** An unconnected post is the only post its holder works that day. */
  lemma UnconnectedExclusive(inp: Inputs, work: Assignment, w: nat, d: nat, u: nat, q: nat)
    requires Fits(inp, work) && Valid(inp, work) && w < |work| && d < |inp.days|
    requires IsUnconnectedPost(u) && q < NumWorkplaces && q != u
    ensures work[w][d][u] ==> !work[w][d][q]
  {
    var rows := work[w];
    assert WorkerReady(inp, inp.workers[w]) && DayRules(inp, inp.workers[w], rows, d);
    if rows[d][u] {
      ClassCounts(rows[d], u);
      CountOne(rows[d], u);
    }
  }

  /** Nobody works three consecutive days. */
  lemma NoThreeConsecutiveDays(inp: Inputs, work: Assignment, w: nat, d: nat, p1: nat, p2: nat, p3: nat)
    requires Fits(inp, work) && Valid(inp, work) && w < |work| && d + 2 < |inp.days|
    requires p1 < NumWorkplaces && p2 < NumWorkplaces && p3 < NumWorkplaces
    ensures work[w][d][p1] && work[w][d + 1][p2] ==> !work[w][d + 2][p3]
  {
    var rows := work[w];
    assert WorkerReady(inp, inp.workers[w]) && DayRules(inp, inp.workers[w], rows, d);
    if rows[d][p1] && rows[d + 1][p2] {
      ClassCounts(rows[d], p1);
      ClassCounts(rows[d + 1], p2);
      ClassEmpty(rows[d + 2], p3);
    }
  }

  /** Posts are worked only where the availability allows, at most one per class. */
  lemma AvailabilityRespected(inp: Inputs, work: Assignment, w: nat, d: nat, p: nat, q: nat)
    requires Fits(inp, work) && Valid(inp, work) && w < |work| && d < |inp.days|
    requires p < NumWorkplaces && q < NumWorkplaces && p != q
    ensures var a := inp.workers[w].workdates[d];
      && (work[w][d][p] && IsDayPost(p) ==> Available(a.day))
      && (work[w][d][p] && IsNightPost(p) ==> Available(a.night))
      && (work[w][d][p] && IsUnconnectedPost(p) ==> Available(a.day) && Available(a.night))
      && (work[w][d][p] && IsDayPost(p) && IsDayPost(q) ==> !work[w][d][q])
      && (work[w][d][p] && IsNightPost(p) && IsNightPost(q) ==> !work[w][d][q])
  {
    var rows := work[w];
    assert WorkerReady(inp, inp.workers[w]) && DayRules(inp, inp.workers[w], rows, d);
    if rows[d][p] {
      ClassCounts(rows[d], p);
      ClassAtMostOne(rows[d], p, q);
    }
  }

  /** A night worker's 24-hour MOP shift on a weekend or holiday. */
  lemma WeekendMop24(inp: Inputs, work: Assignment, w: nat, d: nat)
    requires Fits(inp, work) && Valid(inp, work) && w < |work| && d < |inp.days|
    requires WorksNightShifts(inp.workers[w]) && OnWeekend(inp.days[d])
    ensures var row := work[w][d];
      && (row[MopDayNdx] ==> row[AbdNightNdx] != row[BNightNdx])
      && (row[MopNightNdx] ==> row[AbdDayNdx] != row[BDayNdx])
      && (!row[MopDayNdx] ==> !(row[AbdNightNdx] && row[BNightNdx]))
      && (!row[MopNightNdx] ==> !(row[AbdDayNdx] && row[BDayNdx]))
    ensures WorksMop24(work[w][d]) && d + 1 < |inp.days| ==>
      var next := work[w][d + 1]; forall p :: 0 <= p < NumWorkplaces ==> !next[p]
    ensures WorksMop24(work[w][d]) && d > 0 ==>
      var prev := work[w][d - 1]; forall p :: 0 <= p < NumWorkplaces ==> !prev[p]
  {
    var rows := work[w];
    assert WorkerReady(inp, inp.workers[w]) && DayRules(inp, inp.workers[w], rows, d);
    if WorksMop24(rows[d]) && d + 1 < |rows| {
      CountZero(rows[d + 1]);
    }
    if WorksMop24(rows[d]) && d > 0 {
      CountZero(rows[d - 1]);
    }
  }

  /** A night worker gets at most one 24-hour MOP shift in the month. */
  lemma OneMop24(inp: Inputs, work: Assignment, w: nat, d1: nat, p1: nat, d2: nat, p2: nat)
    requires Fits(inp, work) && Valid(inp, work) && w < |work| && d1 < |inp.days| && d2 < |inp.days|
    requires WorksNightShifts(inp.workers[w]) && OnWeekend(inp.days[d1]) && OnWeekend(inp.days[d2])
    requires (p1 == MopDayNdx || p1 == MopNightNdx) && (p2 == MopDayNdx || p2 == MopNightNdx)
    requires d1 != d2 || p1 != p2
    ensures work[w][d1][p1] ==> !work[w][d2][p2]
  {
    var rows := work[w];
    assert WorkerReady(inp, inp.workers[w]) && MonthRules(inp, inp.workers[w], rows);
    var dayFlags, nightFlags := MopDayFlags(inp.days, rows), MopNightFlags(inp.days, rows);
    if rows[d1][p1] && rows[d2][p2] {
      if p1 == p2 {
        var flags := if p1 == MopDayNdx then dayFlags else nightFlags;
        CountTwo(flags, d1, d2);
      } else if p1 == MopDayNdx {
        CountPositive(dayFlags, d1);
        CountPositive(nightFlags, d2);
      } else {
        CountPositive(nightFlags, d1);
        CountPositive(dayFlags, d2);
      }
    }
  }

  /** A worker without night shifts works day posts on both days of at most one weekend. */
  lemma OneWeekendPair(inp: Inputs, work: Assignment, w: nat, i: nat, j: nat)
    requires Fits(inp, work) && Valid(inp, work) && w < |work| && !WorksNightShifts(inp.workers[w])
    requires i < |WeekendPairs(inp.days)| && j < |WeekendPairs(inp.days)| && i != j
    ensures PairWorked(work[w], WeekendPairs(inp.days)[i]) ==> !PairWorked(work[w], WeekendPairs(inp.days)[j])
  {
    var rows := work[w];
    assert WorkerReady(inp, inp.workers[w]) && MonthRules(inp, inp.workers[w], rows);
    var flags := PairFlags(WeekendPairs(inp.days), rows);
    if flags[i] && flags[j] {
      CountTwo(flags, i, j);
    }
  }

  /** The night-shift count of a night worker lies between its bounds. */
  lemma NightShiftsBounded(inp: Inputs, work: Assignment, w: nat)
    requires Fits(inp, work) && Valid(inp, work) && w < |work| && WorksNightShifts(inp.workers[w])
    ensures MinNightShifts(inp.workers[w].status).value <= TotalNightPosts(work[w]) <= MaxNightShifts(inp.workers[w])
    ensures TotalNightPosts(work[w]) <= 5 - inp.workers[w].reduceShifts
            || TotalNightPosts(work[w]) == MinNightShifts(inp.workers[w].status).value
  {
    assert WorkerReady(inp, inp.workers[w]) && MonthRules(inp, inp.workers[w], work[w]);
  }

  /** The fixed totals: quotas, the Krožeči count, the OMEJENO counts and the workload domain. */
  lemma FixedTotals(inp: Inputs, work: Assignment, w: nat)
    requires Fits(inp, work) && Valid(inp, work) && w < |work|
    ensures var worker, rows := inp.workers[w], work[w];
      && Count(PostDays(rows, AbdomenNdx)) == worker.worksAbdDez
      && Count(PostWorkdays(rows, inp.days, AbdPripNdx)) == worker.worksAbdPrip
      && Count(PostDays(rows, TravmaNdx)) == worker.worksTravmaPrip
      && (worker.maxNumDayshifts.Some? ==> TotalDayPosts(rows) <= worker.maxNumDayshifts.value)
      && (IsKrozeci(worker) ==> TotalPosts(rows) == inp.config.krozeciScheduled)
      && (worker.included == Omejeno ==>
            TotalDayPosts(rows) == worker.numDayshiftsOmejeno.value &&
            TotalNightPosts(rows) == worker.numNightshiftsOmejeno.value)
      && (!SkipsWorkload(worker) ==>
            0 <= Workload.Workload(WeightsOf(inp.config.workplaceWeights, worker), inp.days, rows)
              <= MaxPossibleWork(|inp.days|, inp.config.workplaceWeights))
  {
    assert WorkerReady(inp, inp.workers[w]) && MonthRules(inp, inp.workers[w], work[w]);
  }
}
