/** The soft constraints: the penalty and bonus terms of the objective that
    `construct_and_optimize` minimises, each a function of one assignment. */
module Objective {
  import opened Wrappers
  import opened Workplaces
  import opened Workers
  import opened Roster
  import opened Workload
  import opened Constraints

  // ---------------------------------------------------------------------
  // Sums

  function Sum(s: seq<int>): int
  {
    if |s| == 0 then 0 else Sum(s[..|s| - 1]) + s[|s| - 1]
  }

  /** Entry-wise bounds bound the sum. */
  lemma {:induction false} SumBounds(s: seq<int>, lo: int, hi: int)
    requires forall i :: 0 <= i < |s| ==> lo <= s[i] <= hi
    ensures lo * |s| <= Sum(s) <= hi * |s|
  {
    if |s| > 0 {
      var t := s[..|s| - 1];
      assert forall i :: 0 <= i < |t| ==> t[i] == s[i];
      SumBounds(t, lo, hi);
      DistributeOne(lo, |t|, 1);
      DistributeOne(hi, |t|, 1);
    }
  }

  lemma {:induction false} SumNonNegative(s: seq<int>)
    requires forall k :: 0 <= k < |s| ==> s[k] >= 0
    ensures Sum(s) >= 0
  {
    if |s| > 0 {
      var t := s[..|s| - 1];
      assert forall k :: 0 <= k < |t| ==> t[k] == s[k];
      SumNonNegative(t);
    }
  }

  /** A sum of non-negative entries is at least each entry. */
  lemma {:induction false} SumAtLeast(s: seq<int>, i: nat)
    requires forall k :: 0 <= k < |s| ==> s[k] >= 0
    requires i < |s|
    ensures Sum(s) >= s[i]
  {
    var t := s[..|s| - 1];
    assert forall k :: 0 <= k < |t| ==> t[k] == s[k];
    SumNonNegative(t);
    if i < |t| {
      SumAtLeast(t, i);
    }
  }

  /** A sum of non-negative entries is zero exactly when every entry is. */
  lemma {:induction false} SumZero(s: seq<int>)
    requires forall k :: 0 <= k < |s| ==> s[k] >= 0
    ensures Sum(s) == 0 <==> forall k :: 0 <= k < |s| ==> s[k] == 0
  {
    if forall k :: 0 <= k < |s| ==> s[k] == 0 {
      SumBounds(s, 0, 0);
    } else {
      var k :| 0 <= k < |s| && s[k] != 0;
      SumAtLeast(s, k);
    }
  }

  /** A pointwise weaker sequence counts no more. */
  lemma {:induction false} CountMono(s: seq<bool>, t: seq<bool>)
    requires |s| == |t| && forall i :: 0 <= i < |s| ==> s[i] ==> t[i]
    ensures Count(s) <= Count(t)
  {
    if |s| > 0 {
      var n := |s| - 1;
      assert forall i :: 0 <= i < n ==> s[..n][i] == s[i] && t[..n][i] == t[i];
      CountMono(s[..n], t[..n]);
    }
  }

  // ---------------------------------------------------------------------
  // penalty_preferential_assignment_day

  /** Posts held on a half-day the worker said they want to work. */
  function PrefDayOf(a: Availability, row: seq<bool>): nat
    requires |row| == NumWorkplaces
  {
    (if a.day == 1 then DayPosts(row) else 0) + (if a.night == 1 then NightPosts(row) else 0)
  }

  function PrefDayDays(worker: Worker, rows: seq<seq<bool>>): (s: seq<int>)
    requires MonthShaped(rows, |rows|) && |worker.workdates| >= |rows|
    ensures |s| == |rows| && forall d :: 0 <= d < |rows| ==> s[d] == PrefDayOf(worker.workdates[d], rows[d])
  {
    seq(|rows|, d requires 0 <= d < |rows| => PrefDayOf(worker.workdates[d], rows[d]))
  }

  function PrefDayWorkers(inp: Inputs, work: Assignment): (s: seq<int>)
    requires Fits(inp, work)
    ensures |s| == |work| && forall w :: 0 <= w < |work| ==> s[w] == Sum(PrefDayDays(inp.workers[w], work[w]))
  {
    seq(|work|, w requires 0 <= w < |work| => Sum(PrefDayDays(inp.workers[w], work[w])))
  }

  function PrefDay(inp: Inputs, work: Assignment): int
    requires Fits(inp, work)
  {
    Sum(PrefDayWorkers(inp, work))
  }

  /** One worker's share: at most one count per post and day, and nothing
      when the worker asked for no day. */
  lemma PrefDayOfWorkerBounds(worker: Worker, rows: seq<seq<bool>>)
    requires MonthShaped(rows, |rows|) && |worker.workdates| >= |rows|
    ensures 0 <= Sum(PrefDayDays(worker, rows)) <= |rows| * NumWorkplaces
    ensures (forall d :: 0 <= d < |rows| ==> worker.workdates[d].day != 1 && worker.workdates[d].night != 1)
            ==> Sum(PrefDayDays(worker, rows)) == 0
  {
    var s := PrefDayDays(worker, rows);
    forall d | 0 <= d < |rows| ensures 0 <= s[d] <= NumWorkplaces {
      PostClasses(rows[d]);
    }
    SumBounds(s, 0, NumWorkplaces);
    SumZero(s);
  }

  /** The term lies in its variable's domain, and it vanishes when nobody
      asked for any day. */
  lemma PrefDayBounds(inp: Inputs, work: Assignment)
    requires Fits(inp, work)
    ensures 0 <= PrefDay(inp, work) <= |inp.workers| * (|inp.days| * NumWorkplaces)
    ensures (forall w, d :: 0 <= w < |inp.workers| && 0 <= d < |inp.days| ==>
               inp.workers[w].workdates[d].day != 1 && inp.workers[w].workdates[d].night != 1)
            ==> PrefDay(inp, work) == 0
  {
    var s := PrefDayWorkers(inp, work);
    forall w | 0 <= w < |work|
      ensures 0 <= s[w] <= |inp.days| * NumWorkplaces
      ensures (forall d :: 0 <= d < |inp.days| ==> inp.workers[w].workdates[d].day != 1 && inp.workers[w].workdates[d].night != 1)
              ==> s[w] == 0
    {
      assert WorkerReady(inp, inp.workers[w]);
      PrefDayOfWorkerBounds(inp.workers[w], work[w]);
    }
    SumBounds(s, 0, |inp.days| * NumWorkplaces);
    SumZero(s);
  }

  // ---------------------------------------------------------------------
  // penalty_preferential_assignment_day_unconnected

  /** A Python value as it takes part in `==`: a list never equals a tuple. */
  datatype PyValue = PyList(items: seq<int>) | PyTuple(items: seq<int>)

  /** `parse_work_dates` stores each day's pair as a list. */
  function StoredPair(a: Availability): PyValue
  {
    PyList([a.day, a.night])
  }

  /** As written: `worker.workdates[dd] == (+1, +1)`. */
  function PrefUnconnectedOfAsWritten(a: Availability, row: seq<bool>): nat
    requires |row| == NumWorkplaces
  {
    if StoredPair(a) == PyTuple([1, 1]) then UnconnectedPosts(row) else 0
  }

  /** As intended: the worker wants both halves of the day. */
  function PrefUnconnectedOf(a: Availability, row: seq<bool>): nat
    requires |row| == NumWorkplaces
  {
    if a.day == 1 && a.night == 1 then UnconnectedPosts(row) else 0
  }

  function PrefUnconnectedDaysAsWritten(worker: Worker, rows: seq<seq<bool>>): (s: seq<int>)
    requires MonthShaped(rows, |rows|) && |worker.workdates| >= |rows|
    ensures |s| == |rows| && forall d :: 0 <= d < |rows| ==> s[d] == PrefUnconnectedOfAsWritten(worker.workdates[d], rows[d])
  {
    seq(|rows|, d requires 0 <= d < |rows| => PrefUnconnectedOfAsWritten(worker.workdates[d], rows[d]))
  }

  function PrefUnconnectedWorkersAsWritten(inp: Inputs, work: Assignment): (s: seq<int>)
    requires Fits(inp, work)
    ensures |s| == |work| && forall w :: 0 <= w < |work| ==> s[w] == Sum(PrefUnconnectedDaysAsWritten(inp.workers[w], work[w]))
  {
    seq(|work|, w requires 0 <= w < |work| => Sum(PrefUnconnectedDaysAsWritten(inp.workers[w], work[w])))
  }

  function PrefUnconnectedAsWritten(inp: Inputs, work: Assignment): int
    requires Fits(inp, work)
  {
    Sum(PrefUnconnectedWorkersAsWritten(inp, work))
  }

  function PrefUnconnectedDays(worker: Worker, rows: seq<seq<bool>>): (s: seq<int>)
    requires MonthShaped(rows, |rows|) && |worker.workdates| >= |rows|
    ensures |s| == |rows| && forall d :: 0 <= d < |rows| ==> s[d] == PrefUnconnectedOf(worker.workdates[d], rows[d])
  {
    seq(|rows|, d requires 0 <= d < |rows| => PrefUnconnectedOf(worker.workdates[d], rows[d]))
  }

  function PrefUnconnectedWorkers(inp: Inputs, work: Assignment): (s: seq<int>)
    requires Fits(inp, work)
    ensures |s| == |work| && forall w :: 0 <= w < |work| ==> s[w] == Sum(PrefUnconnectedDays(inp.workers[w], work[w]))
  {
    seq(|work|, w requires 0 <= w < |work| => Sum(PrefUnconnectedDays(inp.workers[w], work[w])))
  }

  function PrefUnconnected(inp: Inputs, work: Assignment): int
    requires Fits(inp, work)
  {
    Sum(PrefUnconnectedWorkers(inp, work))
  }

  /** As written the term is zero for every roster. */
  lemma UnconnectedAsWrittenIsZero(inp: Inputs, work: Assignment)
    requires Fits(inp, work)
    ensures PrefUnconnectedAsWritten(inp, work) == 0
  {
    var s := PrefUnconnectedWorkersAsWritten(inp, work);
    forall w | 0 <= w < |work| ensures s[w] == 0 {
      assert WorkerReady(inp, inp.workers[w]);
      SumZero(PrefUnconnectedDaysAsWritten(inp.workers[w], work[w]));
    }
    SumZero(s);
  }

  /** A worker who wants a whole day and gets TRAVMA on it: the term as
      written rewards nothing, the intended term rewards the post. */
  lemma UnconnectedCounterexample()
    ensures var row := seq(NumWorkplaces, p => p == TravmaNdx);
      PrefUnconnectedOfAsWritten(Availability(1, 1), row) == 0 &&
      PrefUnconnectedOf(Availability(1, 1), row) == 1
  {
    var row := seq(NumWorkplaces, p => p == TravmaNdx);
    assert row[8..] == [false, false, true];
    assert [false, false, true][..2] == [false, false];
    assert [false, false][..1] == [false];
    assert [false][..0] == [];
  }

  /** On a valid roster one worker's share counts at most one post a day,
      and nothing when the worker asked for no whole day. */
  lemma PrefUnconnectedOfWorkerBounds(inp: Inputs, worker: Worker, rows: seq<seq<bool>>)
    requires WorkerReady(inp, worker) && MonthShaped(rows, |inp.days|)
    requires forall d :: 0 <= d < |inp.days| ==> DayRules(inp, worker, rows, d)
    ensures 0 <= Sum(PrefUnconnectedDays(worker, rows)) <= |rows|
    ensures (forall d :: 0 <= d < |rows| ==> !(worker.workdates[d].day == 1 && worker.workdates[d].night == 1))
            ==> Sum(PrefUnconnectedDays(worker, rows)) == 0
  {
    var s := PrefUnconnectedDays(worker, rows);
    forall d | 0 <= d < |rows| ensures 0 <= s[d] <= 1 {
      assert DayRules(inp, worker, rows, d);
    }
    SumBounds(s, 0, 1);
    SumZero(s);
  }

  /** The intended term lies in its variable's domain on a valid roster,
      and vanishes when nobody asked for a whole day. */
  lemma PrefUnconnectedBounds(inp: Inputs, work: Assignment)
    requires Fits(inp, work) && Valid(inp, work)
    ensures 0 <= PrefUnconnected(inp, work) <= |inp.workers| * |inp.days|
    ensures (forall w, d :: 0 <= w < |inp.workers| && 0 <= d < |inp.days| ==>
               !(inp.workers[w].workdates[d].day == 1 && inp.workers[w].workdates[d].night == 1))
            ==> PrefUnconnected(inp, work) == 0
  {
    var s := PrefUnconnectedWorkers(inp, work);
    forall w | 0 <= w < |work|
      ensures 0 <= s[w] <= |inp.days|
      ensures (forall d :: 0 <= d < |inp.days| ==> !(inp.workers[w].workdates[d].day == 1 && inp.workers[w].workdates[d].night == 1))
              ==> s[w] == 0
    {
      assert WorkerReady(inp, inp.workers[w]) && WorkerRules(inp, inp.workers[w], work[w]);
      PrefUnconnectedOfWorkerBounds(inp, inp.workers[w], work[w]);
    }
    SumBounds(s, 0, |inp.days|);
    SumZero(s);
  }

  // ---------------------------------------------------------------------
  // penalty_preferential_workplace

  predicate InRange(ps: seq<int>)
  {
    forall k :: 0 <= k < |ps| ==> 0 <= ps[k] < NumWorkplaces
  }

  /** One flag per list entry: is that post worked? */
  function Hits(row: seq<bool>, ps: seq<int>): (s: seq<int>)
    requires |row| == NumWorkplaces && InRange(ps)
    ensures |s| == |ps| && forall k :: 0 <= k < |ps| ==> s[k] == B(row[ps[k]])
  {
    seq(|ps|, k requires 0 <= k < |ps| => B(row[ps[k]]))
  }

  /** MAYBE posts worked minus YES posts worked on one day. */
  function PrefWorkplaceOf(wp: WorkplaceLists, row: seq<bool>): int
    requires |row| == NumWorkplaces && InRange(wp.yes) && InRange(wp.maybe)
  {
    Sum(Hits(row, wp.maybe)) - Sum(Hits(row, wp.yes))
  }

  function PrefWorkplaceDays(wp: WorkplaceLists, rows: seq<seq<bool>>): (s: seq<int>)
    requires MonthShaped(rows, |rows|) && InRange(wp.yes) && InRange(wp.maybe)
    ensures |s| == |rows| && forall d :: 0 <= d < |rows| ==> s[d] == PrefWorkplaceOf(wp, rows[d])
  {
    seq(|rows|, d requires 0 <= d < |rows| => PrefWorkplaceOf(wp, rows[d]))
  }

  function PrefWorkplaceWorkers(inp: Inputs, work: Assignment): (s: seq<int>)
    requires Fits(inp, work)
    ensures |s| == |work| && forall w :: 0 <= w < |work| ==> s[w] == Sum(PrefWorkplaceDays(inp.workers[w].workplaces, work[w]))
  {
    seq(|work|, w requires 0 <= w < |work| =>
      assert WorkerReady(inp, inp.workers[w]);
      Sum(PrefWorkplaceDays(inp.workers[w].workplaces, work[w])))
  }

  function PrefWorkplace(inp: Inputs, work: Assignment): int
    requires Fits(inp, work)
  {
    Sum(PrefWorkplaceWorkers(inp, work))
  }

  /** A day's share lies between minus the YES list's length and the
      MAYBE list's length; it is never positive without a MAYBE post
      and never negative without a YES post. */
  lemma PrefWorkplaceOfBounds(wp: WorkplaceLists, row: seq<bool>)
    requires |row| == NumWorkplaces && InRange(wp.yes) && InRange(wp.maybe)
    ensures -|wp.yes| <= PrefWorkplaceOf(wp, row) <= |wp.maybe|
    ensures (forall k :: 0 <= k < |wp.maybe| ==> !row[wp.maybe[k]]) ==> PrefWorkplaceOf(wp, row) <= 0
    ensures (forall k :: 0 <= k < |wp.yes| ==> !row[wp.yes[k]]) ==> PrefWorkplaceOf(wp, row) >= 0
  {
    SumBounds(Hits(row, wp.maybe), 0, 1);
    SumBounds(Hits(row, wp.yes), 0, 1);
    SumZero(Hits(row, wp.maybe));
    SumZero(Hits(row, wp.yes));
  }

  /** The term lies in its variable's domain. */
  lemma PrefWorkplaceBounds(inp: Inputs, work: Assignment)
    requires Fits(inp, work)
    ensures -(|inp.workers| * (|inp.days| * NumWorkplaces)) <= PrefWorkplace(inp, work)
            <= |inp.workers| * (|inp.days| * NumWorkplaces)
  {
    var b := |inp.days| * NumWorkplaces;
    var s := PrefWorkplaceWorkers(inp, work);
    forall w | 0 <= w < |work| ensures -b <= s[w] <= b {
      assert WorkerReady(inp, inp.workers[w]);
      PrefWorkplaceMonthBounds(inp.workers[w].workplaces, work[w]);
    }
    SumBounds(s, -b, b);
    ScaledBounds(Sum(s), |s|, b);
  }

  /** One worker's month lies within eleven per day either way. */
  lemma PrefWorkplaceMonthBounds(wp: WorkplaceLists, rows: seq<seq<bool>>)
    requires MonthShaped(rows, |rows|) && InRange(wp.yes) && InRange(wp.maybe)
    requires |wp.yes| + |wp.maybe| <= NumWorkplaces
    ensures -(|rows| * NumWorkplaces) <= Sum(PrefWorkplaceDays(wp, rows)) <= |rows| * NumWorkplaces
  {
    var days := PrefWorkplaceDays(wp, rows);
    var m: int := NumWorkplaces;
    forall d | 0 <= d < |rows| ensures -m <= days[d] <= m {
      PrefWorkplaceOfBounds(wp, rows[d]);
    }
    SumBounds(days, -m, m);
  }

  lemma ScaledBounds(x: int, n: nat, b: int)
    requires (-b) * n <= x <= b * n
    ensures -(n * b) <= x <= n * b
  {
  }

  // ---------------------------------------------------------------------
  // bonus_weekend_travmaprip_senior

  function Pow2(n: nat): (r: nat)
    ensures r >= 1
  {
    if n == 0 then 1 else 2 * Pow2(n - 1)
  }

  lemma {:induction false} Pow2Mono(a: nat, b: nat)
    requires a <= b
    ensures Pow2(a) <= Pow2(b)
  {
    if a < b {
      Pow2Mono(a, b - 1);
    }
  }

  /** `2 ** (7 - (max_year - year))`. */
  function SeniorWeight(maxYear: int, year: int): nat
    requires 0 <= maxYear - year <= 7
  {
    Pow2(7 - (maxYear - year))
  }

  /** The weight lies in 4..128, is 128 for the most senior year and
      doubles with each year of seniority. */
  lemma SeniorWeightRange(maxYear: int, year: int)
    requires 1 <= year <= maxYear <= 6
    ensures 4 <= SeniorWeight(maxYear, year) <= 128
    ensures SeniorWeight(maxYear, maxYear) == 128
    ensures year < maxYear ==> SeniorWeight(maxYear, year + 1) == 2 * SeniorWeight(maxYear, year)
  {
    assert Pow2(2) == 4;
    assert Pow2(7) == 128 by {
      assert Pow2(3) == 8 && Pow2(4) == 16 && Pow2(5) == 32 && Pow2(6) == 64;
    }
    Pow2Mono(2, 7 - (maxYear - year));
    Pow2Mono(7 - (maxYear - year), 7);
  }

  function Years(inp: Inputs): (ys: seq<int>)
    requires Ready(inp)
    ensures |ys| == |inp.workers|
    ensures forall w :: 0 <= w < |inp.workers| ==> ys[w] == YearOfSpecialization(inp.workers[w].status).value
    ensures forall w :: 0 <= w < |inp.workers| ==> 1 <= ys[w] <= 6
  {
    seq(|inp.workers|, w requires 0 <= w < |inp.workers| =>
      assert WorkerReady(inp, inp.workers[w]);
      YearOfSpecialization(inp.workers[w].status).value)
  }

  /** `max_year`. */
  function MaxYear(inp: Inputs): (m: int)
    requires Ready(inp)
    ensures 1 <= m <= 6 && forall w :: 0 <= w < |inp.workers| ==> Years(inp)[w] <= m
    ensures exists w :: 0 <= w < |inp.workers| && Years(inp)[w] == m
  {
    var ys := Years(inp);
    var m := MaxOf(ys);
    assert exists w :: 0 <= w < |ys| && ys[w] == m;
    m
  }

  /** Worker holds TRAVMA on both days of a weekend pair. */
  predicate BothTravma(rows: seq<seq<bool>>, pair: (nat, nat))
    requires MonthShaped(rows, |rows|) && pair.0 < |rows| && pair.1 < |rows|
  {
    rows[pair.0][TravmaNdx] && rows[pair.1][TravmaNdx]
  }

  /** Years every one of which is within the senior weight's reach of the
      maximum. */
  predicate SeniorYears(years: seq<int>, maxYear: int)
  {
    1 <= maxYear <= 6 && forall w :: 0 <= w < |years| ==> 1 <= years[w] <= maxYear
  }

  predicate PairsWithin(pairs: seq<(nat, nat)>, numDays: nat)
  {
    forall k :: 0 <= k < |pairs| ==> pairs[k].0 < numDays && pairs[k].1 < numDays
  }

  /** One pair's `both * weight` per worker. */
  function PairTerms(work: Assignment, numDays: nat, years: seq<int>, maxYear: int, pair: (nat, nat)): (s: seq<int>)
    requires Shaped(work, |work|, numDays) && |years| == |work| && SeniorYears(years, maxYear)
    requires pair.0 < numDays && pair.1 < numDays
    ensures |s| == |work|
    ensures forall w :: 0 <= w < |work| ==> s[w] == B(BothTravma(work[w], pair)) * SeniorWeight(maxYear, years[w])
  {
    seq(|work|, w requires 0 <= w < |work| => B(BothTravma(work[w], pair)) * SeniorWeight(maxYear, years[w]))
  }

  /** Per weekend pair, the sum of its worker terms. */
  function PairBonuses(work: Assignment, numDays: nat, years: seq<int>, maxYear: int, pairs: seq<(nat, nat)>): (s: seq<int>)
    requires Shaped(work, |work|, numDays) && |years| == |work| && SeniorYears(years, maxYear)
    requires PairsWithin(pairs, numDays)
    ensures |s| == |pairs|
    ensures forall k :: 0 <= k < |s| ==> s[k] == Sum(PairTerms(work, numDays, years, maxYear, pairs[k]))
  {
    seq(|pairs|, k requires 0 <= k < |pairs| => Sum(PairTerms(work, numDays, years, maxYear, pairs[k])))
  }

  /** `bonus_weekend_travmaprip_senior`. */
  function SeniorBonus(inp: Inputs, work: Assignment): int
    requires Fits(inp, work)
  {
    Sum(PairBonuses(work, |inp.days|, Years(inp), MaxYear(inp), WeekendPairs(inp.days)))
  }

  /** One pair's bonus: at most 128 per worker, zero exactly when nobody
      holds TRAVMA on both of its days. */
  lemma PairBonusBounds(work: Assignment, numDays: nat, years: seq<int>, maxYear: int, pair: (nat, nat))
    requires Shaped(work, |work|, numDays) && |years| == |work| && SeniorYears(years, maxYear)
    requires pair.0 < numDays && pair.1 < numDays
    ensures 0 <= Sum(PairTerms(work, numDays, years, maxYear, pair)) <= 128 * |work|
    ensures Sum(PairTerms(work, numDays, years, maxYear, pair)) == 0 <==> forall w :: 0 <= w < |work| ==> !BothTravma(work[w], pair)
  {
    var s := PairTerms(work, numDays, years, maxYear, pair);
    forall w | 0 <= w < |work| ensures 0 <= s[w] <= 128 && (s[w] == 0 <==> !BothTravma(work[w], pair)) {
      SeniorWeightRange(maxYear, years[w]);
    }
    SumBounds(s, 0, 128);
    SumZero(s);
  }

  /** All pairs' bonuses: at most 128 per worker and pair, zero exactly when
      nobody holds TRAVMA on both days of any pair. */
  lemma BonusesBounds(work: Assignment, numDays: nat, years: seq<int>, maxYear: int, pairs: seq<(nat, nat)>)
    requires Shaped(work, |work|, numDays) && |years| == |work| && SeniorYears(years, maxYear)
    requires PairsWithin(pairs, numDays)
    ensures 0 <= Sum(PairBonuses(work, numDays, years, maxYear, pairs)) <= (|work| * 128) * |pairs|
    ensures Sum(PairBonuses(work, numDays, years, maxYear, pairs)) == 0 <==>
      forall k, w :: 0 <= k < |pairs| && 0 <= w < |work| ==> !BothTravma(work[w], pairs[k])
  {
    var s := PairBonuses(work, numDays, years, maxYear, pairs);
    forall k | 0 <= k < |pairs|
      ensures 0 <= s[k] <= |work| * 128
      ensures s[k] == 0 <==> forall w :: 0 <= w < |work| ==> !BothTravma(work[w], pairs[k])
    {
      PairBonusBounds(work, numDays, years, maxYear, pairs[k]);
    }
    SumBounds(s, 0, |work| * 128);
    SumZero(s);
  }

  /** The bonus lies in its variable's domain. */
  lemma SeniorBonusBounds(inp: Inputs, work: Assignment)
    requires Fits(inp, work)
    ensures 0 <= SeniorBonus(inp, work) <= (|inp.workers| * 128) * |WeekendPairs(inp.days)|
  {
    BonusesBounds(work, |inp.days|, Years(inp), MaxYear(inp), WeekendPairs(inp.days));
  }

  /** The bonus is zero exactly when nobody holds TRAVMA on both days of a
      weekend. */
  lemma SeniorBonusZero(inp: Inputs, work: Assignment)
    requires Fits(inp, work)
    ensures SeniorBonus(inp, work) == 0 <==>
      forall k, w :: 0 <= k < |WeekendPairs(inp.days)| && 0 <= w < |work| ==> !BothTravma(work[w], WeekendPairs(inp.days)[k])
  {
    BonusesBounds(work, |inp.days|, Years(inp), MaxYear(inp), WeekendPairs(inp.days));
  }

  /** The workers holding TRAVMA on both days of a pair. */
  function PairHolders(work: Assignment, numDays: nat, pair: (nat, nat)): (c: seq<bool>)
    requires Shaped(work, |work|, numDays) && pair.0 < numDays && pair.1 < numDays
    ensures |c| == |work| && forall w :: 0 <= w < |work| ==> c[w] == BothTravma(work[w], pair)
  {
    seq(|work|, w requires 0 <= w < |work| => BothTravma(work[w], pair))
  }

  function PairCounts(work: Assignment, numDays: nat, pairs: seq<(nat, nat)>): (s: seq<int>)
    requires Shaped(work, |work|, numDays) && PairsWithin(pairs, numDays)
    ensures |s| == |pairs|
    ensures forall k :: 0 <= k < |s| ==> s[k] == Count(PairHolders(work, numDays, pairs[k]))
  {
    seq(|pairs|, k requires 0 <= k < |pairs| => Count(PairHolders(work, numDays, pairs[k])))
  }

  /** `bonus_weekend_travmaprip`, the unweighted count. */
  function TravmaPairCount(inp: Inputs, work: Assignment): int
    requires Fits(inp, work)
  {
    Sum(PairCounts(work, |inp.days|, WeekendPairs(inp.days)))
  }

  /** When no TRAVMA slot has two holders, each pair counts at most once. */
  lemma PairCountsBounded(work: Assignment, numDays: nat, pairs: seq<(nat, nat)>)
    requires Shaped(work, |work|, numDays) && PairsWithin(pairs, numDays)
    requires forall d :: 0 <= d < numDays ==> Count(Occupants(work, numDays, d, TravmaNdx)) <= 1
    ensures 0 <= Sum(PairCounts(work, numDays, pairs)) <= |pairs|
  {
    var s := PairCounts(work, numDays, pairs);
    forall k | 0 <= k < |pairs| ensures 0 <= s[k] <= 1 {
      var pair := pairs[k];
      CountMono(PairHolders(work, numDays, pair), Occupants(work, numDays, pair.0, TravmaNdx));
    }
    SumBounds(s, 0, 1);
  }

  /** On a valid roster the unweighted count fits its domain
      [0, len(weekend_pairs)]: a TRAVMA slot has at most one holder. */
  lemma TravmaPairCountBounded(inp: Inputs, work: Assignment)
    requires Fits(inp, work) && Valid(inp, work)
    ensures 0 <= TravmaPairCount(inp, work) <= |WeekendPairs(inp.days)|
  {
    forall d | 0 <= d < |inp.days| ensures Count(Occupants(work, |inp.days|, d, TravmaNdx)) <= 1 {
      assert SlotCovered(inp, work, d, TravmaNdx);
    }
    PairCountsBounded(work, |inp.days|, WeekendPairs(inp.days));
  }

  // ---------------------------------------------------------------------
  // penalty_consecutive_nights

  predicate NightsInRow(rows: seq<seq<bool>>, d: nat)
    requires MonthShaped(rows, |rows|) && d + 1 < |rows|
  {
    NightPosts(rows[d]) >= 1 && NightPosts(rows[d + 1]) >= 1
  }

  function NightRuns(rows: seq<seq<bool>>): (c: seq<bool>)
    requires MonthShaped(rows, |rows|)
    ensures |c| == (if |rows| == 0 then 0 else |rows| - 1)
    ensures forall d :: 0 <= d < |c| ==> c[d] == NightsInRow(rows, d)
  {
    seq(if |rows| == 0 then 0 else |rows| - 1, d requires 0 <= d < |rows| - 1 => NightsInRow(rows, d))
  }

  function NightRunWorkers(work: Assignment, numDays: nat): (s: seq<int>)
    requires Shaped(work, |work|, numDays)
    ensures |s| == |work| && forall w :: 0 <= w < |work| ==> s[w] == Count(NightRuns(work[w]))
  {
    seq(|work|, w requires 0 <= w < |work| => Count(NightRuns(work[w])))
  }

  function ConsecutiveNights(inp: Inputs, work: Assignment): int
    requires Fits(inp, work)
  {
    Sum(NightRunWorkers(work, |inp.days|))
  }

  /** Each worker adds at most one per day, and the penalty is zero exactly
      when nobody works nights on two consecutive days. */
  lemma ConsecutiveNightsMeaning(inp: Inputs, work: Assignment)
    requires Fits(inp, work)
    ensures 0 <= ConsecutiveNights(inp, work) <= |inp.workers| * |inp.days|
    ensures ConsecutiveNights(inp, work) == 0 <==>
      forall w, d: nat :: 0 <= w < |work| && d + 1 < |inp.days| ==> !NightsInRow(work[w], d)
  {
    NightRunsBounds(work, |inp.days|);
  }

  lemma NightRunsBounds(work: Assignment, numDays: nat)
    requires Shaped(work, |work|, numDays)
    ensures 0 <= Sum(NightRunWorkers(work, numDays)) <= |work| * numDays
    ensures Sum(NightRunWorkers(work, numDays)) == 0 <==>
      forall w, d: nat :: 0 <= w < |work| && d + 1 < numDays ==> !NightsInRow(work[w], d)
  {
    var s := NightRunWorkers(work, numDays);
    forall w | 0 <= w < |work|
      ensures 0 <= s[w] <= numDays
      ensures s[w] == 0 <==> forall d: nat :: d + 1 < numDays ==> !NightsInRow(work[w], d)
    {
      var c := NightRuns(work[w]);
      CountZero(c);
      assert forall d: nat :: d + 1 < numDays ==> c[d] == NightsInRow(work[w], d);
    }
    SumBounds(s, 0, numDays);
    SumZero(s);
  }

  // ---------------------------------------------------------------------
  // penalty_workplace_distribution

  /** The YES list without the unconnected workplaces, in order. */
  function ConnectedYes(yes: seq<int>): (r: seq<int>)
    ensures |r| <= |yes|
    ensures forall x :: x in r <==> x in yes && !IsUnconnectedPost(x)
    ensures InRange(yes) ==> InRange(r)
  {
    if |yes| == 0 then []
    else
      var rest := ConnectedYes(yes[1..]);
      assert forall x :: x in yes <==> x == yes[0] || x in yes[1..];
      if IsUnconnectedPost(yes[0]) then rest else [yes[0]] + rest
  }

  /** How often each listed post is held over the month. */
  function PostCounts(rows: seq<seq<bool>>, ps: seq<int>): (s: seq<int>)
    requires MonthShaped(rows, |rows|) && InRange(ps)
    ensures |s| == |ps|
    ensures forall k :: 0 <= k < |ps| ==> s[k] == Count(PostDays(rows, ps[k]))
    ensures forall k :: 0 <= k < |ps| ==> 0 <= s[k] <= |rows|
  {
    seq(|ps|, k requires 0 <= k < |ps| => Count(PostDays(rows, ps[k])))
  }

  function DistributionOf(wp: WorkplaceLists, rows: seq<seq<bool>>): int
    requires MonthShaped(rows, |rows|) && InRange(wp.yes)
  {
    var ps := ConnectedYes(wp.yes);
    if |ps| <= 1 then 0 else Spread(PostCounts(rows, ps))
  }

  /** One worker's spread lies in [0, num_days], and it is zero exactly
      when the connected YES posts are held equally often. */
  lemma DistributionOfMeaning(wp: WorkplaceLists, rows: seq<seq<bool>>)
    requires MonthShaped(rows, |rows|) && InRange(wp.yes)
    ensures 0 <= DistributionOf(wp, rows) <= |rows|
    ensures var ps := ConnectedYes(wp.yes);
      DistributionOf(wp, rows) == 0 <==>
        (|ps| <= 1 || forall i, j :: 0 <= i < |ps| && 0 <= j < |ps| ==>
           Count(PostDays(rows, ps[i])) == Count(PostDays(rows, ps[j])))
  {
    var ps := ConnectedYes(wp.yes);
    if |ps| > 1 {
      PostCountsSpread(rows, ps);
    }
  }

  /** The spread of how often each listed post is held lies in
      [0, num_days], and it is zero exactly when all are held equally often. */
  lemma PostCountsSpread(rows: seq<seq<bool>>, ps: seq<int>)
    requires MonthShaped(rows, |rows|) && InRange(ps) && |ps| > 0
    ensures 0 <= Spread(PostCounts(rows, ps)) <= |rows|
    ensures Spread(PostCounts(rows, ps)) == 0 <==>
      forall i, j :: 0 <= i < |ps| && 0 <= j < |ps| ==> Count(PostDays(rows, ps[i])) == Count(PostDays(rows, ps[j]))
  {
    var counts := PostCounts(rows, ps);
    SpreadProperties(counts);
    var a :| 0 <= a < |counts| && counts[a] == MaxOf(counts);
    var b :| 0 <= b < |counts| && counts[b] == MinOf(counts);
    assert Spread(counts) <= |rows|;
  }

  function DistributionWorkers(inp: Inputs, work: Assignment): (s: seq<int>)
    requires Fits(inp, work)
    ensures |s| == |work|
    ensures forall w :: 0 <= w < |work| ==> InRange(inp.workers[w].workplaces.yes) && s[w] == DistributionOf(inp.workers[w].workplaces, work[w])
  {
    seq(|work|, w requires 0 <= w < |work| =>
      assert WorkerReady(inp, inp.workers[w]);
      DistributionOf(inp.workers[w].workplaces, work[w]))
  }

  function WorkplaceDistribution(inp: Inputs, work: Assignment): int
    requires Fits(inp, work)
  {
    Sum(DistributionWorkers(inp, work))
  }

  /** Every `range_var` fits its domain, so the penalty lies in
      [0, workers * days]; it is zero exactly when every worker's spread is. */
  lemma WorkplaceDistributionBounds(inp: Inputs, work: Assignment)
    requires Fits(inp, work)
    ensures 0 <= WorkplaceDistribution(inp, work) <= |inp.workers| * |inp.days|
    ensures WorkplaceDistribution(inp, work) == 0 <==>
      forall w :: 0 <= w < |work| ==> DistributionOf(inp.workers[w].workplaces, work[w]) == 0
  {
    var s := DistributionWorkers(inp, work);
    forall w | 0 <= w < |work| ensures 0 <= s[w] <= |inp.days| {
      DistributionOfMeaning(inp.workers[w].workplaces, work[w]);
    }
    SumBounds(s, 0, |inp.days|);
    SumZero(s);
  }

  // ---------------------------------------------------------------------
  // The balance objective: max_workload - min_workload

  /** What the workload terms read: the assignment's shape and the
      weights of every worker who is not Krožeči. */
  predicate LoadsReady(inp: Inputs, work: Assignment)
  {
    && Shaped(work, |inp.workers|, |inp.days|)
    && forall w :: 0 <= w < |inp.workers| && !SkipsWorkload(inp.workers[w]) ==>
         HasWorkerWeights(inp.config.workplaceWeights, inp.workers[w])
  }

  lemma FitsLoadsReady(inp: Inputs, work: Assignment)
    requires Fits(inp, work)
    ensures LoadsReady(inp, work)
  {
    forall w | 0 <= w < |inp.workers| && !SkipsWorkload(inp.workers[w])
      ensures HasWorkerWeights(inp.config.workplaceWeights, inp.workers[w])
    {
      assert WorkerReady(inp, inp.workers[w]);
    }
  }

  /** `total` of worker w, who is not Krožeči. */
  function LoadAt(inp: Inputs, work: Assignment, w: nat): int
    requires LoadsReady(inp, work) && w < |work| && !SkipsWorkload(inp.workers[w])
  {
    Workload.Workload(WeightsOf(inp.config.workplaceWeights, inp.workers[w]), inp.days, work[w])
  }

  /** `worker_list_for_workload` among the first n workers: the indices of
      the workers who are not Krožeči, in order. */
  function LoadWorkers(workers: seq<Worker>, n: nat): (ks: seq<nat>)
    requires n <= |workers|
    ensures forall k :: 0 <= k < |ks| ==> ks[k] < n && !SkipsWorkload(workers[ks[k]])
    ensures forall w: nat :: w < n && !SkipsWorkload(workers[w]) ==> w in ks
    ensures forall i, j :: 0 <= i < j < |ks| ==> ks[i] < ks[j]
  {
    if n == 0 then []
    else
      var ks := LoadWorkers(workers, n - 1);
      if SkipsWorkload(workers[n - 1]) then ks else ks + [n - 1]
  }

  /** `total_workloads`: one entry per worker who is not Krožeči. */
  function Loads(inp: Inputs, work: Assignment): (r: seq<int>)
    requires Fits(inp, work)
    ensures var ks := LoadWorkers(inp.workers, |work|);
      |r| == |ks| && forall k :: 0 <= k < |ks| ==> r[k] == LoadAt(inp, work, ks[k])
  {
    var ks := LoadWorkers(inp.workers, |work|);
    seq(|ks|, k requires 0 <= k < |ks| => LoadAt(inp, work, ks[k]))
  }

  function WorkloadBalance(inp: Inputs, work: Assignment): int
    requires Fits(inp, work)
  {
    Spread(Loads(inp, work))
  }

  /** A spread of entries within [0, top] lies within [0, top]. */
  lemma SpreadBounds(r: seq<int>, top: int)
    requires forall k :: 0 <= k < |r| ==> 0 <= r[k] <= top
    ensures 0 <= Spread(r) <= top || |r| == 0
    ensures Spread(r) >= 0
  {
    SpreadProperties(r);
    if |r| > 0 {
      var a :| 0 <= a < |r| && r[a] == MaxOf(r);
      var b :| 0 <= b < |r| && r[b] == MinOf(r);
    }
  }

  /** On a valid roster every workload lies in [0, max_possible_work]. */
  lemma LoadInDomain(inp: Inputs, work: Assignment, w: nat)
    requires Fits(inp, work) && Valid(inp, work) && w < |work| && !SkipsWorkload(inp.workers[w])
    ensures 0 <= LoadAt(inp, work, w) <= MaxPossibleWork(|inp.days|, inp.config.workplaceWeights)
  {
    assert WorkerReady(inp, inp.workers[w]) && MonthRules(inp, inp.workers[w], work[w]);
  }

  /** On a valid roster the balance fits the domain [0, max_possible_work]
      of `max_workload` and `min_workload`. */
  lemma WorkloadBalanceBounds(inp: Inputs, work: Assignment)
    requires Fits(inp, work) && Valid(inp, work)
    ensures 0 <= WorkloadBalance(inp, work)
    ensures (exists w: nat :: w < |work| && !SkipsWorkload(inp.workers[w])) ==>
      WorkloadBalance(inp, work) <= MaxPossibleWork(|inp.days|, inp.config.workplaceWeights)
  {
    var r, ks := Loads(inp, work), LoadWorkers(inp.workers, |work|);
    var top := MaxPossibleWork(|inp.days|, inp.config.workplaceWeights);
    forall k | 0 <= k < |r| ensures 0 <= r[k] <= top {
      LoadInDomain(inp, work, ks[k]);
    }
    SpreadBounds(r, top);
    if exists w: nat :: w < |work| && !SkipsWorkload(inp.workers[w]) {
      var w: nat :| w < |work| && !SkipsWorkload(inp.workers[w]);
      assert w in ks;
    }
  }

  /** The balance is zero exactly when all workers who are not Krožeči
      carry the same workload. */
  lemma WorkloadBalanceZero(inp: Inputs, work: Assignment)
    requires Fits(inp, work)
    ensures WorkloadBalance(inp, work) == 0 <==>
      forall v: nat, w: nat :: v < |work| && w < |work| && !SkipsWorkload(inp.workers[v]) && !SkipsWorkload(inp.workers[w]) ==>
        LoadAt(inp, work, v) == LoadAt(inp, work, w)
  {
    var r, ks := Loads(inp, work), LoadWorkers(inp.workers, |work|);
    SpreadProperties(r);
    if WorkloadBalance(inp, work) == 0 {
      forall v: nat, w: nat | v < |work| && w < |work| && !SkipsWorkload(inp.workers[v]) && !SkipsWorkload(inp.workers[w])
        ensures LoadAt(inp, work, v) == LoadAt(inp, work, w)
      {
        var i :| 0 <= i < |ks| && ks[i] == v;
        var j :| 0 <= j < |ks| && ks[j] == w;
        assert r[i] == LoadAt(inp, work, v) && r[j] == LoadAt(inp, work, w);
      }
    }
  }

  // ---------------------------------------------------------------------
  // The objective

  /** The values of the objective's terms for one roster. */
  datatype Terms = Terms(balance: int, nights: int, distribution: int, prefDay: int,
                         prefUnconnected: int, prefWorkplace: int, bonus: int)

  /** `model.Minimize(...)`: each term at its configured weight, the
      weekend bonus subtracted. */
  function WeightedSum(c: Config, t: Terms): int
  {
    c.weightEqualWorkload * t.balance
    + c.weightConsecutiveNights * t.nights
    + c.weightEquallyDistributedWorkplaces * t.distribution
    + c.weightPreferredDayAssignment * (t.prefDay + t.prefUnconnected)
    + c.weightPreferredWorkplaceAssignment * t.prefWorkplace
    - c.weightWeekendTravmaprip * t.bonus
  }

  /** The terms with the intended unconnected preference. */
  function TermsOf(inp: Inputs, work: Assignment): Terms
    requires Fits(inp, work)
  {
    Terms(WorkloadBalance(inp, work), ConsecutiveNights(inp, work), WorkplaceDistribution(inp, work),
          PrefDay(inp, work), PrefUnconnected(inp, work), PrefWorkplace(inp, work), SeniorBonus(inp, work))
  }

  /** The terms with the unconnected preference as written. */
  function TermsOfAsWritten(inp: Inputs, work: Assignment): Terms
    requires Fits(inp, work)
  {
    TermsOf(inp, work).(prefUnconnected := PrefUnconnectedAsWritten(inp, work))
  }

  function Objective(inp: Inputs, work: Assignment): int
    requires Fits(inp, work)
  {
    WeightedSum(inp.config, TermsOf(inp, work))
  }

  function ObjectiveAsWritten(inp: Inputs, work: Assignment): int
    requires Fits(inp, work)
  {
    WeightedSum(inp.config, TermsOfAsWritten(inp, work))
  }

  /** Zeroing the unconnected term removes exactly its weighted share. */
  lemma WeightedSumWithoutUnconnected(c: Config, t: Terms)
    ensures WeightedSum(c, t.(prefUnconnected := 0))
            == WeightedSum(c, t) - c.weightPreferredDayAssignment * t.prefUnconnected
  {
    DistributeOne(c.weightPreferredDayAssignment, t.prefDay, t.prefUnconnected);
  }

  /** Non-negative penalties at non-negative weights only add. */
  lemma WeightedSumLowerBound(c: Config, t: Terms)
    requires c.weightEqualWorkload >= 0 && c.weightConsecutiveNights >= 0
    requires c.weightEquallyDistributedWorkplaces >= 0 && c.weightPreferredDayAssignment >= 0
    requires t.balance >= 0 && t.nights >= 0 && t.distribution >= 0 && t.prefDay >= 0 && t.prefUnconnected >= 0
    ensures WeightedSum(c, t) >= c.weightPreferredWorkplaceAssignment * t.prefWorkplace - c.weightWeekendTravmaprip * t.bonus
  {
    assert c.weightEqualWorkload * t.balance >= 0;
    assert c.weightConsecutiveNights * t.nights >= 0;
    assert c.weightEquallyDistributedWorkplaces * t.distribution >= 0;
    assert c.weightPreferredDayAssignment * (t.prefDay + t.prefUnconnected) >= 0;
  }

  /** As written the objective never sees the unconnected preference. */
  lemma ObjectiveAsWrittenDropsUnconnected(inp: Inputs, work: Assignment)
    requires Fits(inp, work)
    ensures ObjectiveAsWritten(inp, work)
            == Objective(inp, work) - inp.config.weightPreferredDayAssignment * PrefUnconnected(inp, work)
  {
    UnconnectedAsWrittenIsZero(inp, work);
    var t := TermsOf(inp, work);
    assert TermsOfAsWritten(inp, work) == t.(prefUnconnected := 0);
    WeightedSumWithoutUnconnected(inp.config, t);
  }

  /** With non-negative weights the penalty terms only add: the objective
      is at least the workplace term minus the weekend bonus. */
  lemma ObjectiveLowerBound(inp: Inputs, work: Assignment)
    requires Fits(inp, work) && Valid(inp, work)
    requires inp.config.weightEqualWorkload >= 0 && inp.config.weightConsecutiveNights >= 0
    requires inp.config.weightEquallyDistributedWorkplaces >= 0 && inp.config.weightPreferredDayAssignment >= 0
    ensures Objective(inp, work) >= inp.config.weightPreferredWorkplaceAssignment * PrefWorkplace(inp, work)
                                   - inp.config.weightWeekendTravmaprip * SeniorBonus(inp, work)
  {
    WorkloadBalanceBounds(inp, work);
    ConsecutiveNightsMeaning(inp, work);
    WorkplaceDistributionBounds(inp, work);
    PrefDayBounds(inp, work);
    PrefUnconnectedBounds(inp, work);
    WeightedSumLowerBound(inp.config, TermsOf(inp, work));
  }
}
