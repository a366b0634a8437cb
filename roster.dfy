/** The objects `construct_and_optimize` works over: the calendar, the
    preschedule, the configuration and the assignment `work[w][d][p]`,
    with the counts every constraint and objective term is built from. */
module Roster {
  import opened Wrappers
  import opened Workplaces
  import opened Workers

  /** A calendar day, with the flags the optimizer reads and the text the
      output table prints for it. */
  datatype Day = Day(text: string, isWorkday: bool, isWeekend: bool, isHoliday: bool)

  /** One preschedule line: (name, day, workplace name). */
  datatype PreschedEntry = PreschedEntry(name: string, day: Day, workplace: string)

  /** A preschedule line with its day and workplace turned into indices and
      the index of the worker it names, or `None` if the name is not one
      of the workers (then nobody may take the slot). */
  datatype Placed = Placed(name: string, day: nat, place: nat, worker: Option<nat>)

  /** The configuration values `construct_and_optimize` reads; the
      workplace weights stay a key/value list because their keys are
      computed (`night_<year>`) and may be missing. */
  datatype Config = Config(
    krozeciScheduled: int,
    workplaceWeights: seq<(string, int)>,
    weightEqualWorkload: int,
    weightConsecutiveNights: int,
    weightEquallyDistributedWorkplaces: int,
    weightPreferredDayAssignment: int,
    weightPreferredWorkplaceAssignment: int,
    weightWeekendTravmaprip: int)

  /** Everything the constraints and the objective are stated over. */
  datatype Inputs = Inputs(workers: seq<Worker>, days: seq<Day>, plan: seq<Placed>, config: Config)

  /** The assignment: work[w][d][p] holds when worker w works post p on day d. */
  type Assignment = seq<seq<seq<bool>>>

  /** One worker's month: rows[d][p]. */
  predicate MonthShaped(rows: seq<seq<bool>>, numDays: nat)
  {
    |rows| == numDays && forall d :: 0 <= d < numDays ==> |rows[d]| == NumWorkplaces
  }

  predicate Shaped(work: Assignment, numWorkers: nat, numDays: nat)
  {
    |work| == numWorkers && forall w :: 0 <= w < numWorkers ==> MonthShaped(work[w], numDays)
  }

  const Krozeci: string := "Krožeči"
  const Omejeno: string := "OMEJENO"

  /** The Krožeči test of the exact-count rule: the master-sheet specialty. */
  predicate IsKrozeci(w: Worker) { w.specialtyMaster == Krozeci }

  /** The Krožeči test of the workload objective: either specialty. */
  predicate SkipsWorkload(w: Worker) { w.specialtyWishes == Krozeci || w.specialtyMaster == Krozeci }

  // ---------------------------------------------------------------------
  // Counting

  function B(b: bool): nat { if b then 1 else 0 }

  /** The number of true entries. */
  function Count(s: seq<bool>): (n: nat)
    ensures n <= |s|
  {
    if |s| == 0 then 0 else Count(s[..|s| - 1]) + B(s[|s| - 1])
  }

  lemma {:induction false} CountAppend(s: seq<bool>, t: seq<bool>)
    ensures Count(s + t) == Count(s) + Count(t)
  {
    if |t| > 0 {
      assert (s + t)[..|s + t| - 1] == s + t[..|t| - 1];
      CountAppend(s, t[..|t| - 1]);
    } else {
      assert s + t == s;
    }
  }

  /** Nothing is counted exactly when every entry is false. */
  lemma {:induction false} CountZero(s: seq<bool>)
    ensures Count(s) == 0 <==> forall i :: 0 <= i < |s| ==> !s[i]
  {
    if |s| > 0 {
      CountZero(s[..|s| - 1]);
      assert forall i :: 0 <= i < |s| - 1 ==> s[..|s| - 1][i] == s[i];
    }
  }

  /** A true entry is counted. */
  lemma CountPositive(s: seq<bool>, i: nat)
    requires i < |s| && s[i]
    ensures Count(s) >= 1
  {
    CountZero(s);
  }

  /** When the count is one, the true entry is the only one. */
  lemma {:induction false} CountOne(s: seq<bool>, i: nat)
    requires i < |s| && s[i] && Count(s) == 1
    ensures forall j :: 0 <= j < |s| && j != i ==> !s[j]
  {
    var n := |s| - 1;
    if i == n {
      CountZero(s[..n]);
      assert forall j :: 0 <= j < n ==> s[..n][j] == s[j];
    } else {
      assert s[..n][i] == s[i];
      CountPositive(s[..n], i);
      assert !s[n];
      CountOne(s[..n], i);
      assert forall j :: 0 <= j < n ==> s[..n][j] == s[j];
    }
  }

  /** Two true entries count at least two. */
  lemma CountTwo(s: seq<bool>, i: nat, j: nat)
    requires i < |s| && j < |s| && i != j && s[i] && s[j]
    ensures Count(s) >= 2
  {
    CountPositive(s, i);
    if Count(s) == 1 {
      CountOne(s, i);
    }
  }

  /** Posts of one day, by class. */
  function DayPosts(row: seq<bool>): nat requires |row| == NumWorkplaces { Count(row[..5]) }
  function NightPosts(row: seq<bool>): nat requires |row| == NumWorkplaces { Count(row[5..8]) }
  function UnconnectedPosts(row: seq<bool>): nat requires |row| == NumWorkplaces { Count(row[8..]) }
  function AllPosts(row: seq<bool>): nat requires |row| == NumWorkplaces { Count(row) }

  /** A day's posts are its day, night and unconnected posts. */
  lemma PostClasses(row: seq<bool>)
    requires |row| == NumWorkplaces
    ensures AllPosts(row) == DayPosts(row) + NightPosts(row) + UnconnectedPosts(row)
  {
    assert row == row[..5] + row[5..8] + row[8..];
    CountAppend(row[..5] + row[5..8], row[8..]);
    CountAppend(row[..5], row[5..8]);
  }

  /** Counting a class finds a post of that class that is worked. */
  lemma ClassCounts(row: seq<bool>, p: nat)
    requires |row| == NumWorkplaces && p < NumWorkplaces && row[p]
    ensures IsDayPost(p) ==> DayPosts(row) >= 1
    ensures IsNightPost(p) ==> NightPosts(row) >= 1
    ensures IsUnconnectedPost(p) ==> UnconnectedPosts(row) >= 1
    ensures AllPosts(row) >= 1
  {
    CountPositive(row, p);
    if IsDayPost(p) { assert row[..5][p] == row[p]; CountPositive(row[..5], p); }
    if IsNightPost(p) { assert row[5..8][p - 5] == row[p]; CountPositive(row[5..8], p - 5); }
    if IsUnconnectedPost(p) { assert row[8..][p - 8] == row[p]; CountPositive(row[8..], p - 8); }
  }

  /** Which workers hold slot (d, p). */
  function Occupants(work: Assignment, numDays: nat, d: nat, p: nat): (c: seq<bool>)
    requires Shaped(work, |work|, numDays) && d < numDays && p < NumWorkplaces
    ensures |c| == |work| && forall w :: 0 <= w < |work| ==> c[w] == work[w][d][p]
  {
    seq(|work|, w requires 0 <= w < |work| => work[w][d][p])
  }

  /** On which days a worker holds post p. */
  function PostDays(rows: seq<seq<bool>>, p: nat): (c: seq<bool>)
    requires MonthShaped(rows, |rows|) && p < NumWorkplaces
    ensures |c| == |rows| && forall d :: 0 <= d < |rows| ==> c[d] == rows[d][p]
  {
    seq(|rows|, d requires 0 <= d < |rows| => rows[d][p])
  }

  /** On which workdays a worker holds post p. */
  function PostWorkdays(rows: seq<seq<bool>>, days: seq<Day>, p: nat): (c: seq<bool>)
    requires MonthShaped(rows, |days|) && p < NumWorkplaces
    ensures |c| == |rows| && forall d :: 0 <= d < |rows| ==> c[d] == (days[d].isWorkday && rows[d][p])
  {
    seq(|rows|, d requires 0 <= d < |rows| => days[d].isWorkday && rows[d][p])
  }

  /** The class-count of each day, summed over the month. */
  function TotalDayPosts(rows: seq<seq<bool>>): nat
    requires MonthShaped(rows, |rows|)
  {
    if |rows| == 0 then 0 else TotalDayPosts(rows[..|rows| - 1]) + DayPosts(rows[|rows| - 1])
  }

  function TotalNightPosts(rows: seq<seq<bool>>): nat
    requires MonthShaped(rows, |rows|)
  {
    if |rows| == 0 then 0 else TotalNightPosts(rows[..|rows| - 1]) + NightPosts(rows[|rows| - 1])
  }

  function TotalPosts(rows: seq<seq<bool>>): nat
    requires MonthShaped(rows, |rows|)
  {
    if |rows| == 0 then 0 else TotalPosts(rows[..|rows| - 1]) + AllPosts(rows[|rows| - 1])
  }

  /** A night post on some day counts toward the month's nights. */
  lemma {:induction false} TotalNightPostsAtLeast(rows: seq<seq<bool>>, d: nat)
    requires MonthShaped(rows, |rows|) && d < |rows|
    ensures TotalNightPosts(rows) >= NightPosts(rows[d])
  {
    if d < |rows| - 1 {
      TotalNightPostsAtLeast(rows[..|rows| - 1], d);
    }
  }

  // ---------------------------------------------------------------------
  // weekend_pairs

  /** `weekend_pairs`: each (d, d+1) with both days on a weekend, in order. */
  function WeekendPairs(days: seq<Day>): (r: seq<(nat, nat)>)
    ensures forall k :: 0 <= k < |r| ==> IsWeekendPair(days, r[k])
    ensures forall d: nat :: d + 1 < |days| && days[d].isWeekend && days[d + 1].isWeekend ==> (d, d + 1) in r
    ensures forall i, j :: 0 <= i < j < |r| ==> r[i].0 < r[j].0
  {
    PairsFrom(days, 0)
  }

  predicate IsWeekendPair(days: seq<Day>, pair: (nat, nat))
  {
    pair.1 == pair.0 + 1 < |days| && days[pair.0].isWeekend && days[pair.1].isWeekend
  }

  function PairsFrom(days: seq<Day>, i: nat): (r: seq<(nat, nat)>)
    ensures forall k :: 0 <= k < |r| ==> IsWeekendPair(days, r[k]) && r[k].0 >= i
    ensures forall d: nat :: i <= d && d + 1 < |days| && days[d].isWeekend && days[d + 1].isWeekend ==> (d, d + 1) in r
    ensures forall a, b :: 0 <= a < b < |r| ==> r[a].0 < r[b].0
    decreases |days| - i
  {
    if i + 1 >= |days| then []
    else
      var rest := PairsFrom(days, i + 1);
      if days[i].isWeekend && days[i + 1].isWeekend then [(i, i + 1)] + rest else rest
  }
}
