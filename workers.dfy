/** A worker record and the attributes the optimizer derives from it. */
module Workers {
  import opened Wrappers
  import opened Workplaces

  /** The `workplaces` dictionary: indices the worker works at (YES), may
      work at (MAYBE) and does not work at (NO). */
  datatype WorkplaceLists = WorkplaceLists(yes: seq<int>, maybe: seq<int>, no: seq<int>)

  /** One `workdates` entry: +1 wants to work, 0 does not care, -1 cannot,
      for the day shift and for the night shift. */
  datatype Availability = Availability(day: int, night: int)

  /** A worker as the constructor leaves it. Counts read as NaN are `None`. */
  datatype Worker = Worker(
    name: string,
    included: string,
    specialtyWishes: string,
    specialtyMaster: string,
    status: string,
    workplaces: WorkplaceLists,
    workdates: seq<Availability>,
    reduceShifts: int,
    worksAbdDez: int,
    worksAbdPrip: int,
    worksTravmaPrip: int,
    maxNumDayshifts: Option<int>,
    numDayshiftsOmejeno: Option<int>,
    numNightshiftsOmejeno: Option<int>)

  /** What `_resolve_workplaces` makes of the dictionary: each unconnected
      post whose quota is 0 is appended to NO, in the order ABDOMEN,
      ABD prip., TRAVMA; YES and MAYBE are left alone. */
  function ResolveWorkplaces(wp: WorkplaceLists, abdDez: int, abdPrip: int, travmaPrip: int): (r: WorkplaceLists)
    ensures r.yes == wp.yes && r.maybe == wp.maybe
    ensures |wp.no| <= |r.no| && r.no[..|wp.no|] == wp.no
    ensures forall i :: |wp.no| <= i < |r.no| ==> IsUnconnectedPost(r.no[i])
    ensures AbdomenNdx in r.no <==> (AbdomenNdx in wp.no || abdDez == 0)
    ensures AbdPripNdx in r.no <==> (AbdPripNdx in wp.no || abdPrip == 0)
    ensures TravmaNdx in r.no <==> (TravmaNdx in wp.no || travmaPrip == 0)
    ensures forall p :: !IsUnconnectedPost(p) ==> (p in r.no <==> p in wp.no)
  {
    var extra := ZeroQuotaPosts(abdDez, abdPrip, travmaPrip);
    var no := wp.no + extra;
    assert no[..|wp.no|] == wp.no;
    assert forall i :: |wp.no| <= i < |no| ==> no[i] == extra[i - |wp.no|];
    assert forall p :: p in no <==> p in wp.no || p in extra;
    WorkplaceLists(wp.yes, wp.maybe, no)
  }

  /** The unconnected posts whose quota is 0, in catalogue order. */
  function ZeroQuotaPosts(abdDez: int, abdPrip: int, travmaPrip: int): (r: seq<int>)
    ensures forall i :: 0 <= i < |r| ==> IsUnconnectedPost(r[i])
    ensures AbdomenNdx in r <==> abdDez == 0
    ensures AbdPripNdx in r <==> abdPrip == 0
    ensures TravmaNdx in r <==> travmaPrip == 0
    ensures |r| == (if abdDez == 0 then 1 else 0) + (if abdPrip == 0 then 1 else 0)
                   + (if travmaPrip == 0 then 1 else 0)
  {
    (if abdDez == 0 then [AbdomenNdx] else [])
    + (if abdPrip == 0 then [AbdPripNdx] else [])
    + (if travmaPrip == 0 then [TravmaNdx] else [])
  }

  /** The NO list grows by exactly one entry per zero quota. */
  lemma ResolveCount(wp: WorkplaceLists, abdDez: int, abdPrip: int, travmaPrip: int)
    ensures |ResolveWorkplaces(wp, abdDez, abdPrip, travmaPrip).no| ==
            |wp.no| + (if abdDez == 0 then 1 else 0) + (if abdPrip == 0 then 1 else 0)
                    + (if travmaPrip == 0 then 1 else 0)
  {
  }

  lemma ResolveUnfold(wp: WorkplaceLists, abdDez: int, abdPrip: int, travmaPrip: int)
    ensures ResolveWorkplaces(wp, abdDez, abdPrip, travmaPrip)
            == WorkplaceLists(wp.yes, wp.maybe, wp.no + ZeroQuotaPosts(abdDez, abdPrip, travmaPrip))
  {
  }

  /** The mutable dictionary that `_resolve_workplaces` receives and
      updates in place. */
  class WorkplaceDict {
    var yes: seq<int>
    var maybe: seq<int>
    var no: seq<int>

    function Value(): WorkplaceLists
      reads this
    {
      WorkplaceLists(yes, maybe, no)
    }

    constructor (wp: WorkplaceLists)
      ensures Value() == wp
    {
      yes, maybe, no := wp.yes, wp.maybe, wp.no;
    }

    /** `_resolve_workplaces`: appends to NO in place. */
    method Resolve(abdDez: int, abdPrip: int, travmaPrip: int)
      modifies this`no
      ensures Value() == ResolveWorkplaces(old(Value()), abdDez, abdPrip, travmaPrip)
    {
      ghost var before := Value();
      ghost var a, b, c := if abdDez == 0 then [AbdomenNdx] else [], if abdPrip == 0 then [AbdPripNdx] else [],
                           if travmaPrip == 0 then [TravmaNdx] else [];
      if abdDez == 0 {
        no := no + [AbdomenNdx];
      }
      assert no == before.no + a;
      if abdPrip == 0 {
        no := no + [AbdPripNdx];
      }
      assert no == before.no + a + b;
      if travmaPrip == 0 {
        no := no + [TravmaNdx];
      }
      assert no == before.no + (a + b + c);
      ResolveUnfold(before, abdDez, abdPrip, travmaPrip);
    }
  }

  /** `Worker.__init__`: the fields as given, with the workplaces resolved. */
  function NewWorker(
    name: string, included: string, specialtyWishes: string, specialtyMaster: string,
    status: string, workplaces: WorkplaceLists, workdates: seq<Availability>, reduceShifts: int,
    worksAbdDez: int, worksAbdPrip: int, worksTravmaPrip: int,
    maxNumDayshifts: Option<int>, numDayshiftsOmejeno: Option<int>, numNightshiftsOmejeno: Option<int>): Worker
  {
    Worker(name, included, specialtyWishes, specialtyMaster, status,
           ResolveWorkplaces(workplaces, worksAbdDez, worksAbdPrip, worksTravmaPrip),
           workdates, reduceShifts, worksAbdDez, worksAbdPrip, worksTravmaPrip,
           maxNumDayshifts, numDayshiftsOmejeno, numNightshiftsOmejeno)
  }

  /** Whether any index of the list is a night post (`any(...)`). */
  function AnyNightPost(s: seq<int>): (r: bool)
    ensures r <==> exists i :: 0 <= i < |s| && IsNightPost(s[i])
  {
    if |s| == 0 then false
    else if IsNightPost(s[0]) then true
    else
      var rest := AnyNightPost(s[1..]);
      assert forall i :: 1 <= i < |s| ==> s[i] == s[1..][i - 1];
      assert rest ==> exists i :: 0 <= i < |s| && IsNightPost(s[i]) by {
        if rest {
          var k :| 0 <= k < |s| - 1 && IsNightPost(s[1..][k]);
          assert IsNightPost(s[k + 1]);
        }
      }
      rest
  }

  /** `works_night_shifts`: some YES or MAYBE workplace is a night post. */
  function WorksNightShifts(w: Worker): bool
  {
    AnyNightPost(w.workplaces.yes + w.workplaces.maybe)
  }

  lemma WorksNightShiftsMeaning(w: Worker)
    ensures WorksNightShifts(w) <==>
      (exists i :: 0 <= i < |w.workplaces.yes| && IsNightPost(w.workplaces.yes[i])) ||
      (exists i :: 0 <= i < |w.workplaces.maybe| && IsNightPost(w.workplaces.maybe[i]))
  {
    var s := w.workplaces.yes + w.workplaces.maybe;
    var ny := |w.workplaces.yes|;
    if WorksNightShifts(w) {
      var k :| 0 <= k < |s| && IsNightPost(s[k]);
      if k < ny {
        assert IsNightPost(w.workplaces.yes[k]);
      } else {
        assert IsNightPost(w.workplaces.maybe[k - ny]);
      }
    }
    if exists i :: 0 <= i < ny && IsNightPost(w.workplaces.yes[i]) {
      var k :| 0 <= k < ny && IsNightPost(w.workplaces.yes[k]);
      assert s[k] == w.workplaces.yes[k];
    }
    if exists i :: 0 <= i < |w.workplaces.maybe| && IsNightPost(w.workplaces.maybe[i]) {
      var k :| 0 <= k < |w.workplaces.maybe| && IsNightPost(w.workplaces.maybe[k]);
      assert s[ny + k] == w.workplaces.maybe[k];
    }
  }

  const LessThanSixMonths: string := "Manj kot 6 mesecev do specialističnega izpita"
  const Specialist: string := "Specialist"

  /** The status string of the k-th year of specialization. */
  function YearStatus(k: nat): string
    requires 1 <= k <= 6
  {
    ["1. leto specializacije", "2. leto specializacije", "3. leto specializacije",
     "4. leto specializacije", "5. leto specializacije", "6. leto specializacije"][k - 1]
  }

  const MinShiftsTable: map<string, nat> := map[
    "1. leto specializacije" := 0,
    "2. leto specializacije" := 5,
    "3. leto specializacije" := 4,
    "4. leto specializacije" := 3,
    "5. leto specializacije" := 2,
    "6. leto specializacije" := 1,
    LessThanSixMonths := 0,
    Specialist := 0]

  const StatusToYearTable: map<string, nat> := map[
    "1. leto specializacije" := 1,
    "2. leto specializacije" := 2,
    "3. leto specializacije" := 3,
    "4. leto specializacije" := 4,
    "5. leto specializacije" := 5,
    "6. leto specializacije" := 6,
    LessThanSixMonths := 6,
    Specialist := 6]

  /** `min_night_shifts`; `None` where the dictionary lookup raises KeyError. */
  function MinNightShifts(status: string): Option<nat>
  {
    if status in MinShiftsTable then Some(MinShiftsTable[status]) else None
  }

  /** `year_of_specialization`; `None` where the lookup raises KeyError. */
  function YearOfSpecialization(status: string): Option<nat>
  {
    if status in StatusToYearTable then Some(StatusToYearTable[status]) else None
  }

  /** The statuses both tables know. */
  predicate KnownStatus(status: string)
  {
    status == LessThanSixMonths || status == Specialist ||
    exists k :: 1 <= k <= 6 && status == YearStatus(k)
  }

  /** Both tables know exactly the eight statuses, so the two lookups fail
      (raise KeyError) together. */
  lemma StatusLookupsAgree(status: string)
    ensures MinNightShifts(status).Some? <==> KnownStatus(status)
    ensures YearOfSpecialization(status).Some? <==> KnownStatus(status)
  {
    YearStatusNames();
    if status in MinShiftsTable {
      if status == "1. leto specializacije" { assert status == YearStatus(1); }
      else if status == "2. leto specializacije" { assert status == YearStatus(2); }
      else if status == "3. leto specializacije" { assert status == YearStatus(3); }
      else if status == "4. leto specializacije" { assert status == YearStatus(4); }
      else if status == "5. leto specializacije" { assert status == YearStatus(5); }
      else if status == "6. leto specializacije" { assert status == YearStatus(6); }
    }
    if exists k :: 1 <= k <= 6 && status == YearStatus(k) {
      var k :| 1 <= k <= 6 && status == YearStatus(k);
      if k == 1 {} else if k == 2 {} else if k == 3 {} else if k == 4 {} else if k == 5 {} else {}
    }
  }

  lemma YearStatusNames()
    ensures YearStatus(1) == "1. leto specializacije" && YearStatus(2) == "2. leto specializacije"
    ensures YearStatus(3) == "3. leto specializacije" && YearStatus(4) == "4. leto specializacije"
    ensures YearStatus(5) == "5. leto specializacije" && YearStatus(6) == "6. leto specializacije"
  {
  }

  /** The years lie in 1..6 and the minimum of nights in 0..5; from the
      second year on the minimum is 7 minus the year. */
  lemma StatusTables(status: string)
    ensures YearOfSpecialization(status).Some? ==> 1 <= YearOfSpecialization(status).value <= 6
    ensures MinNightShifts(status).Some? ==> MinNightShifts(status).value <= 5
    ensures YearOfSpecialization(LessThanSixMonths) == Some(6) && YearOfSpecialization(Specialist) == Some(6)
    ensures MinNightShifts(LessThanSixMonths) == Some(0) && MinNightShifts(Specialist) == Some(0)
    ensures MinNightShifts(YearStatus(1)) == Some(0) && YearOfSpecialization(YearStatus(1)) == Some(1)
  {
    assert YearStatus(1) == "1. leto specializacije";
  }

  lemma MinNightsByYear(k: nat)
    requires 2 <= k <= 6
    ensures MinNightShifts(YearStatus(k)) == Some(7 - k)
    ensures YearOfSpecialization(YearStatus(k)) == Some(k)
  {
    if k == 2 { assert YearStatus(k) == "2. leto specializacije"; }
    else if k == 3 { assert YearStatus(k) == "3. leto specializacije"; }
    else if k == 4 { assert YearStatus(k) == "4. leto specializacije"; }
    else if k == 5 { assert YearStatus(k) == "5. leto specializacije"; }
    else { assert YearStatus(k) == "6. leto specializacije"; }
  }
}
