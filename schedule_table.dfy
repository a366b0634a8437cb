/** The `schedule_array` the run writes out: a header row with the
    workplace names, then one row per day holding its date, the
    prescheduled names and the names of the workers the roster assigns. */
module ScheduleTable {
  import opened Wrappers
  import opened Workplaces
  import opened Workers
  import opened Roster
  import opened Constraints

  /** `ncols`: the date column, one column per workplace and one spare. */
  const Width: nat := NumWorkplaces + 2

  /** `["DATUM"] + ALL_WORKPLACES`. */
  function Header(): (h: seq<string>)
    ensures |h| == NumWorkplaces + 1 && h[0] == "DATUM"
    ensures forall p :: 0 <= p < NumWorkplaces ==> h[p + 1] == AllWorkplaces[p]
  {
    CatalogueShape();
    ["DATUM"] + AllWorkplaces
  }

  /** The last of the first n preschedule entries for slot (d, p). */
  function LastEntry(plan: seq<Placed>, d: nat, p: nat, n: nat): (r: Option<nat>)
    requires n <= |plan|
    ensures r.None? <==> forall k :: 0 <= k < n ==> !(plan[k].day == d && plan[k].place == p)
    ensures r.Some? ==> r.value < n && plan[r.value].day == d && plan[r.value].place == p
    ensures r.Some? ==> forall k :: r.value < k < n ==> !(plan[k].day == d && plan[k].place == p)
  {
    if n == 0 then None
    else if plan[n - 1].day == d && plan[n - 1].place == p then Some(n - 1)
    else LastEntry(plan, d, p, n - 1)
  }

  /** The last of the first n workers who holds slot (d, p). */
  function LastHolder(work: Assignment, numDays: nat, d: nat, p: nat, n: nat): (r: Option<nat>)
    requires Shaped(work, |work|, numDays) && d < numDays && p < NumWorkplaces && n <= |work|
    ensures r.None? <==> forall w :: 0 <= w < n ==> !work[w][d][p]
    ensures r.Some? ==> r.value < n && work[r.value][d][p]
    ensures r.Some? ==> forall w :: r.value < w < n ==> !work[w][d][p]
  {
    if n == 0 then None
    else if work[n - 1][d][p] then Some(n - 1)
    else LastHolder(work, numDays, d, p, n - 1)
  }

  /** A day row once its date is in. */
  function DatedCell(inp: Inputs, i: nat, c: nat): string
    requires 1 <= i <= |inp.days|
  {
    if c == 0 then inp.days[i - 1].text else ""
  }

  /** A day row after the first k preschedule entries. */
  function PlannedCell(inp: Inputs, k: nat, i: nat, c: nat): string
    requires k <= |inp.plan| && 1 <= i <= |inp.days|
  {
    if 1 <= c <= NumWorkplaces && LastEntry(inp.plan, i - 1, c - 1, k).Some?
    then inp.plan[LastEntry(inp.plan, i - 1, c - 1, k).value].name
    else DatedCell(inp, i, c)
  }

  /** A day row after the first n workers' assignments of that day. */
  function FilledCell(inp: Inputs, work: Assignment, n: nat, i: nat, c: nat): string
    requires Fits(inp, work) && n <= |work| && 1 <= i <= |inp.days|
  {
    if 1 <= c <= NumWorkplaces && LastHolder(work, |inp.days|, i - 1, c - 1, n).Some?
    then inp.workers[LastHolder(work, |inp.days|, i - 1, c - 1, n).value].name
    else PlannedCell(inp, |inp.plan|, i, c)
  }

  /** Cell (i, c) of a day row of the finished table: the date in column
      0, then per workplace the last worker who holds the slot, else the
      last name prescheduled into it, else nothing. */
  function TableCell(inp: Inputs, work: Assignment, i: nat, c: nat): (r: string)
    requires Fits(inp, work) && 1 <= i <= |inp.days|
    ensures c == 0 ==> r == inp.days[i - 1].text
    ensures c > NumWorkplaces ==> r == ""
  {
    FilledCell(inp, work, |work|, i, c)
  }

  /** The day rows as they stand after the first k preschedule entries. */
  predicate DayRowsAre(inp: Inputs, table: array<seq<string>>, k: nat)
    reads table
    requires k <= |inp.plan|
  {
    table.Length == |inp.days| + 1 &&
    forall j :: 1 <= j <= |inp.days| ==>
      |table[j]| == Width && forall c :: 0 <= c < Width ==> table[j][c] == PlannedCell(inp, k, j, c)
  }

  /** One more entry changes exactly its own slot. */
  lemma PlannedStep(inp: Inputs, k: nat, i: nat, c: nat)
    requires k < |inp.plan| && 1 <= i <= |inp.days|
    ensures PlannedCell(inp, k + 1, i, c) ==
      if i == inp.plan[k].day + 1 && c == inp.plan[k].place + 1 && c <= NumWorkplaces then inp.plan[k].name
      else PlannedCell(inp, k, i, c)
  {
  }

  /** The preschedule loop: each entry writes its name into its slot. */
  method AddPreschedule(inp: Inputs, table: array<seq<string>>)
    requires forall k :: 0 <= k < |inp.plan| ==> inp.plan[k].day < |inp.days| && inp.plan[k].place < NumWorkplaces
    requires DayRowsAre(inp, table, 0)
    modifies table
    ensures DayRowsAre(inp, table, |inp.plan|) && table[0] == old(table[0])
  {
    var k := 0;
    while k < |inp.plan|
      invariant 0 <= k <= |inp.plan|
      invariant DayRowsAre(inp, table, k) && table[0] == old(table[0])
    {
      var e := inp.plan[k];
      ghost var before := table[..];
      table[e.day + 1] := table[e.day + 1][e.place + 1 := e.name];
      forall j | 1 <= j <= |inp.days|
        ensures |table[j]| == Width && forall c :: 0 <= c < Width ==> table[j][c] == PlannedCell(inp, k + 1, j, c)
      {
        assert j != e.day + 1 ==> table[j] == before[j];
        forall c | 0 <= c < Width ensures table[j][c] == PlannedCell(inp, k + 1, j, c) {
          PlannedStep(inp, k, j, c);
        }
      }
      k := k + 1;
    }
  }

  /** The assignment loop over one day: every worker's posts of that day,
      later workers overwriting earlier ones. */
  method FillRow(inp: Inputs, work: Assignment, dd: nat, planned: seq<string>) returns (row: seq<string>)
    requires Fits(inp, work) && dd < |inp.days|
    requires |planned| == Width && forall c :: 0 <= c < Width ==> planned[c] == PlannedCell(inp, |inp.plan|, dd + 1, c)
    ensures |row| == Width && forall c :: 0 <= c < Width ==> row[c] == TableCell(inp, work, dd + 1, c)
  {
    row := planned;
    var ww := 0;
    while ww < |work|
      invariant 0 <= ww <= |work|
      invariant |row| == Width && forall c :: 0 <= c < Width ==> row[c] == FilledCell(inp, work, ww, dd + 1, c)
    {
      var pp := 0;
      while pp < NumWorkplaces
        invariant 0 <= pp <= NumWorkplaces
        invariant |row| == Width && forall c :: 0 <= c < Width ==>
          row[c] == FilledCell(inp, work, if 1 <= c <= pp then ww + 1 else ww, dd + 1, c)
      {
        if work[ww][dd][pp] {
          row := row[pp + 1 := inp.workers[ww].name];
        }
        pp := pp + 1;
      }
      ww := ww + 1;
    }
  }

  /** The date loop: each day row gets its date in column 0. */
  method AddDates(inp: Inputs, table: array<seq<string>>)
    requires table.Length == |inp.days| + 1
    requires forall j :: 1 <= j <= |inp.days| ==> table[j] == seq(Width, _ => "")
    modifies table
    ensures DayRowsAre(inp, table, 0) && table[0] == old(table[0])
  {
    var i := 1;
    while i <= |inp.days|
      invariant 1 <= i <= |inp.days| + 1 && table[0] == old(table[0])
      invariant forall j :: 1 <= j <= |inp.days| ==>
        |table[j]| == Width && forall c :: 0 <= c < Width ==> table[j][c] == (if j < i then DatedCell(inp, j, c) else "")
    {
      table[i] := table[i][0 := inp.days[i - 1].text];
      i := i + 1;
    }
  }

  /** The assignment loop over all days, one row at a time. */
  method AddAssignments(inp: Inputs, work: Assignment, table: array<seq<string>>)
    requires Fits(inp, work) && DayRowsAre(inp, table, |inp.plan|)
    modifies table
    ensures table[0] == old(table[0])
    ensures forall i :: 1 <= i < table.Length ==>
      |table[i]| == Width && forall c :: 0 <= c < Width ==> table[i][c] == TableCell(inp, work, i, c)
  {
    var nd := |inp.days|;
    var dd := 0;
    while dd < nd
      invariant 0 <= dd <= nd && table[0] == old(table[0])
      invariant forall j :: 1 <= j <= nd ==>
        |table[j]| == Width && forall c :: 0 <= c < Width ==>
          table[j][c] == (if j <= dd then TableCell(inp, work, j, c) else PlannedCell(inp, |inp.plan|, j, c))
    {
      var row := FillRow(inp, work, dd, table[dd + 1]);
      ghost var before := table[..];
      table[dd + 1] := row;
      assert forall j :: 0 <= j < table.Length && j != dd + 1 ==> table[j] == before[j];
      dd := dd + 1;
    }
  }

  /** The table fill: the header, the dates, the preschedule, then every
      assigned slot, each write overwriting the one before. */
  method FillSchedule(inp: Inputs, work: Assignment) returns (table: array<seq<string>>)
    requires Fits(inp, work)
    ensures fresh(table) && table.Length == |inp.days| + 1
    ensures table[0] == Header()
    ensures forall i :: 1 <= i < table.Length ==>
      |table[i]| == Width && forall c :: 0 <= c < Width ==> table[i][c] == TableCell(inp, work, i, c)
  {
    table := new seq<string>[|inp.days| + 1](_ => seq(Width, _ => ""));
    table[0] := Header();
    AddDates(inp, table);
    assert forall k :: 0 <= k < |inp.plan| ==> PlacedReady(inp, inp.plan[k]);
    AddPreschedule(inp, table);
    AddAssignments(inp, work, table);
  }

  /** In a valid roster a worker's slot shows that worker's name. */
  lemma TableShowsHolder(inp: Inputs, work: Assignment, d: nat, p: nat, w: nat)
    requires Fits(inp, work) && Valid(inp, work)
    requires d < |inp.days| && p < NumWorkplaces && w < |work| && work[w][d][p]
    ensures TableCell(inp, work, d + 1, p + 1) == inp.workers[w].name
  {
    SlotHolders(inp, work, d, p);
    var v :| 0 <= v < |work| && work[v][d][p] && forall u :: 0 <= u < |work| && u != v ==> !work[u][d][p];
    var last := LastHolder(work, |inp.days|, d, p, |work|);
    assert last.Some? && last.value == v == w;
  }

  /** A slot closed by an outsider's preschedule shows a name that was
      prescheduled into it. */
  lemma TableShowsOutsider(inp: Inputs, work: Assignment, d: nat, p: nat)
    requires Fits(inp, work) && Valid(inp, work)
    requires d < |inp.days| && p < NumWorkplaces && Blocked(inp.plan, d, p)
    ensures exists k :: 0 <= k < |inp.plan| && inp.plan[k].day == d && inp.plan[k].place == p &&
                        TableCell(inp, work, d + 1, p + 1) == inp.plan[k].name
  {
    SlotHolders(inp, work, d, p);
    var k :| 0 <= k < |inp.plan| && inp.plan[k].worker.None? && inp.plan[k].day == d && inp.plan[k].place == p;
    var last := LastEntry(inp.plan, d, p, |inp.plan|);
    assert last.Some?;
  }

  /** A slot nobody holds and nothing was prescheduled into stays empty. */
  lemma TableEmptyCell(inp: Inputs, work: Assignment, d: nat, p: nat)
    requires Fits(inp, work) && d < |inp.days| && p < NumWorkplaces
    requires forall w :: 0 <= w < |work| ==> !work[w][d][p]
    requires forall k :: 0 <= k < |inp.plan| ==> !(inp.plan[k].day == d && inp.plan[k].place == p)
    ensures TableCell(inp, work, d + 1, p + 1) == ""
  {
  }
}
