/** The weighted workload of the balance objective: each day or night post
    a worker holds weighs `night_<year>` if it is a night post, otherwise
    `workday` or `weekend` by the kind of day. */
module Workload {
  import opened Wrappers
  import opened Workplaces
  import opened Workers
  import opened Roster

  /** Looking a key up in `workplace_weights`; `None` is a KeyError. */
  function Lookup(weights: seq<(string, int)>, key: string): (r: Option<int>)
    ensures r.None? <==> forall i :: 0 <= i < |weights| ==> weights[i].0 != key
    ensures r.Some? ==> exists i :: 0 <= i < |weights| && weights[i] == (key, r.value)
  {
    if |weights| == 0 then None
    else if weights[0].0 == key then Some(weights[0].1)
    else
      var r := Lookup(weights[1..], key);
      assert forall i :: 1 <= i < |weights| ==> weights[i] == weights[1..][i - 1];
      r
  }

  /** A JSON object: no key twice. */
  predicate DistinctKeys(weights: seq<(string, int)>)
  {
    forall i, j :: 0 <= i < j < |weights| ==> weights[i].0 != weights[j].0
  }

  lemma {:induction false} LookupFinds(weights: seq<(string, int)>, i: nat)
    requires DistinctKeys(weights) && i < |weights|
    ensures Lookup(weights, weights[i].0) == Some(weights[i].1)
  {
    if i > 0 {
      assert weights[1..][i - 1] == weights[i];
      LookupFinds(weights[1..], i - 1);
    }
  }

  function NightKey(year: nat): string
    requires 1 <= year <= 6
  {
    ["night_1", "night_2", "night_3", "night_4", "night_5", "night_6"][year - 1]
  }

  datatype WorkerWeights = WorkerWeights(night: int, workday: int, weekend: int)

  /** The three lookups of one worker succeed. */
  predicate HasWorkerWeights(weights: seq<(string, int)>, w: Worker)
  {
    && YearOfSpecialization(w.status).Some?
    && 1 <= YearOfSpecialization(w.status).value <= 6
    && Lookup(weights, NightKey(YearOfSpecialization(w.status).value)).Some?
    && Lookup(weights, "workday").Some?
    && Lookup(weights, "weekend").Some?
  }

  function WeightsOf(weights: seq<(string, int)>, w: Worker): WorkerWeights
    requires HasWorkerWeights(weights, w)
  {
    WorkerWeights(Lookup(weights, NightKey(YearOfSpecialization(w.status).value)).value,
                  Lookup(weights, "workday").value,
                  Lookup(weights, "weekend").value)
  }

  /** `wp_weight(day, p)`. */
  function PostWeight(ww: WorkerWeights, day: Day, p: nat): int
  {
    if IsNightPost(p) then ww.night else if day.isWorkday then ww.workday else ww.weekend
  }

  /** The weight of the first n connected posts of one day that are worked. */
  function DayLoad(ww: WorkerWeights, day: Day, row: seq<bool>, n: nat): int
    requires n <= 8 && |row| == NumWorkplaces
  {
    if n == 0 then 0 else DayLoad(ww, day, row, n - 1) + PostWeight(ww, day, n - 1) * B(row[n - 1])
  }

  /** The workload `total` of one worker over the month. */
  function Workload(ww: WorkerWeights, days: seq<Day>, rows: seq<seq<bool>>): int
    requires MonthShaped(rows, |days|)
  {
    if |rows| == 0 then 0
    else Workload(ww, days[..|rows| - 1], rows[..|rows| - 1]) + DayLoad(ww, days[|rows| - 1], rows[|rows| - 1], 8)
  }

  function DayWeight(ww: WorkerWeights, day: Day): int
  {
    if day.isWorkday then ww.workday else ww.weekend
  }

  lemma {:induction false} DayLoadDayPart(ww: WorkerWeights, day: Day, row: seq<bool>, n: nat)
    requires n <= 5 && |row| == NumWorkplaces
    ensures DayLoad(ww, day, row, n) == DayWeight(ww, day) * Count(row[..n])
  {
    if n == 0 {
      assert row[..0] == [];
    } else {
      DayLoadDayPart(ww, day, row, n - 1);
      assert row[..n] == row[..n - 1] + [row[n - 1]];
      CountAppend(row[..n - 1], [row[n - 1]]);
      DistributeOne(DayWeight(ww, day), Count(row[..n - 1]), B(row[n - 1]));
    }
  }

  lemma {:induction false} DayLoadNightPart(ww: WorkerWeights, day: Day, row: seq<bool>, n: nat)
    requires 5 <= n <= 8 && |row| == NumWorkplaces
    ensures DayLoad(ww, day, row, n) == DayWeight(ww, day) * Count(row[..5]) + ww.night * Count(row[5..n])
  {
    if n == 5 {
      DayLoadDayPart(ww, day, row, 5);
      assert row[5..n] == [];
    } else {
      DayLoadNightPart(ww, day, row, n - 1);
      assert row[5..n] == row[5..n - 1] + [row[n - 1]];
      CountAppend(row[5..n - 1], [row[n - 1]]);
      DistributeOne(ww.night, Count(row[5..n - 1]), B(row[n - 1]));
    }
  }

  lemma DistributeOne(k: int, a: int, b: int)
    ensures k * (a + b) == k * a + k * b
  {
  }

  /** One day's load: its night posts at the night weight, its day posts
      at the weight of the kind of day; unconnected posts weigh nothing. */
  lemma DayLoadDecomposes(ww: WorkerWeights, day: Day, row: seq<bool>)
    requires |row| == NumWorkplaces
    ensures DayLoad(ww, day, row, 8) == ww.night * NightPosts(row) + DayWeight(ww, day) * DayPosts(row)
  {
    DayLoadNightPart(ww, day, row, 8);
  }

  /** Day posts held on workdays (or on other days) over the month. */
  function DayPostsOn(days: seq<Day>, rows: seq<seq<bool>>, workday: bool): nat
    requires MonthShaped(rows, |days|)
  {
    if |rows| == 0 then 0
    else DayPostsOn(days[..|rows| - 1], rows[..|rows| - 1], workday)
         + (if days[|rows| - 1].isWorkday == workday then DayPosts(rows[|rows| - 1]) else 0)
  }

  /** The workload is the nights at the night weight plus the day posts at
      the workday or weekend weight. */
  lemma {:induction false} WorkloadDecomposes(ww: WorkerWeights, days: seq<Day>, rows: seq<seq<bool>>)
    requires MonthShaped(rows, |days|)
    ensures Workload(ww, days, rows) ==
      ww.night * TotalNightPosts(rows) + ww.workday * DayPostsOn(days, rows, true)
      + ww.weekend * DayPostsOn(days, rows, false)
  {
    if |rows| > 0 {
      var n := |rows| - 1;
      var days', rows' := days[..n], rows[..n];
      assert MonthShaped(rows', |days'|);
      WorkloadDecomposes(ww, days', rows');
      DayLoadDecomposes(ww, days[n], rows[n]);
      var a, b, c := TotalNightPosts(rows'), DayPostsOn(days', rows', true), DayPostsOn(days', rows', false);
      var x, y := NightPosts(rows[n]), DayPosts(rows[n]);
      assert TotalNightPosts(rows) == a + x;
      DistributeOne(ww.night, a, x);
      if days[n].isWorkday {
        assert DayPostsOn(days, rows, true) == b + y;
        assert DayPostsOn(days, rows, false) == c;
        DistributeOne(ww.workday, b, y);
      } else {
        assert DayPostsOn(days, rows, true) == b;
        assert DayPostsOn(days, rows, false) == c + y;
        DistributeOne(ww.weekend, c, y);
      }
    }
  }

  // ---------------------------------------------------------------------
  // max / min over a list

  function MaxOf(s: seq<int>): (m: int)
    requires |s| > 0
    ensures forall i :: 0 <= i < |s| ==> s[i] <= m
    ensures exists i :: 0 <= i < |s| && s[i] == m
  {
    if |s| == 1 then s[0]
    else
      var m := MaxOf(s[1..]);
      assert forall i :: 1 <= i < |s| ==> s[i] == s[1..][i - 1];
      if s[0] >= m then s[0] else m
  }

  function MinOf(s: seq<int>): (m: int)
    requires |s| > 0
    ensures forall i :: 0 <= i < |s| ==> m <= s[i]
    ensures exists i :: 0 <= i < |s| && s[i] == m
  {
    if |s| == 1 then s[0]
    else
      var m := MinOf(s[1..]);
      assert forall i :: 1 <= i < |s| ==> s[i] == s[1..][i - 1];
      if s[0] <= m then s[0] else m
  }

  /** max - min of a list; an empty list spreads nothing. */
  function Spread(s: seq<int>): int
  {
    if |s| == 0 then 0 else MaxOf(s) - MinOf(s)
  }

  /** The spread is never negative, and it is zero exactly when all
      entries are equal. */
  lemma SpreadProperties(s: seq<int>)
    ensures Spread(s) >= 0
    ensures Spread(s) == 0 <==> forall i, j :: 0 <= i < |s| && 0 <= j < |s| ==> s[i] == s[j]
  {
    if |s| > 0 && Spread(s) == 0 {
      forall i, j | 0 <= i < |s| && 0 <= j < |s| ensures s[i] == s[j] {
        assert MinOf(s) <= s[i] <= MaxOf(s) && MinOf(s) <= s[j] <= MaxOf(s);
      }
    }
    if |s| > 0 && forall i, j :: 0 <= i < |s| && 0 <= j < |s| ==> s[i] == s[j] {
      var a :| 0 <= a < |s| && s[a] == MaxOf(s);
      var b :| 0 <= b < |s| && s[b] == MinOf(s);
      assert s[a] == s[b];
    }
  }

  function Values(weights: seq<(string, int)>): (v: seq<int>)
    ensures |v| == |weights| && forall i :: 0 <= i < |weights| ==> v[i] == weights[i].1
  {
    seq(|weights|, i requires 0 <= i < |weights| => weights[i].1)
  }

  /** `max_possible_work`, the upper bound of every workload variable. */
  function MaxPossibleWork(numDays: nat, weights: seq<(string, int)>): int
    requires |weights| > 0
  {
    numDays * MaxOf(Values(weights))
  }
}
