/** What `construct_and_optimize` does before and between the constraint
    blocks that can stop it: resolving the preschedule into slots, the
    availability check of the unconnected workplaces, the quota and
    night-count warnings, and the exceptions raised while the model is
    being built. Every abort is an error value, in program order. */
module Prepare {
  import opened Wrappers
  import opened Workplaces
  import opened Workers
  import opened Roster
  import opened Workload
  import opened Constraints

  datatype RunError =
    | UnknownDay(entry: nat)                  // `day_list.index(day)` raises ValueError
    | UnknownWorkplace(entry: nat)            // `ALL_WORKPLACES.index(workplace)` raises ValueError
    | MissingWorkdates(day: nat)              // `worker.workdates[dd]` raises IndexError
    | NobodyAvailable(day: nat, place: nat)   // the warning followed by `exit()`
    | UnknownStatus(worker: nat)              // a status lookup raises KeyError
    | KrozeciTooFewDays(worker: nat)
    | OmejenoDayCountMissing(worker: nat)
    | OmejenoNightCountMissing(worker: nat)
    | NoWorkers                               // `max(years)` of an empty list
    | NoWeights                               // `max(workplace_weights.values())` of an empty dict
    | MissingWeight(worker: nat, key: string) // a `workplace_weights[...]` KeyError

  // ---------------------------------------------------------------------
  // The preschedule

  function Names(workers: seq<Worker>): (ns: seq<string>)
    ensures |ns| == |workers| && forall i :: 0 <= i < |workers| ==> ns[i] == workers[i].name
  {
    seq(|workers|, i requires 0 <= i < |workers| => workers[i].name)
  }

  /** One preschedule entry as a slot: its day and workplace indices, and
      the first worker of that name, if any. */
  function ResolveEntry(workers: seq<Worker>, days: seq<Day>, e: PreschedEntry, k: nat): Result<Placed, RunError>
  {
    match IndexOf(days, e.day)
    case None => Err(UnknownDay(k))
    case Some(d) =>
      match IndexOf(AllWorkplaces, e.workplace)
      case None => Err(UnknownWorkplace(k))
      case Some(p) =>
        CatalogueShape();
        Ok(Placed(e.name, d, p, IndexOf(Names(workers), e.name)))
  }

  /** An entry fails on an unknown day, then on an unknown workplace;
      otherwise its slot holds the day and workplace it names and the
      first worker of its name, `None` exactly when no worker has it. */
  lemma ResolveEntryMeaning(workers: seq<Worker>, days: seq<Day>, e: PreschedEntry, k: nat)
    ensures var r := ResolveEntry(workers, days, e, k);
      && (r == Err(UnknownDay(k)) <==> e.day !in days)
      && (r == Err(UnknownWorkplace(k)) <==> e.day in days && e.workplace !in AllWorkplaces)
      && (r.Ok? <==> e.day in days && e.workplace in AllWorkplaces)
    ensures var r := ResolveEntry(workers, days, e, k);
      r.Ok? ==>
        && r.value.name == e.name
        && r.value.day < |days| && days[r.value.day] == e.day
        && (forall j :: 0 <= j < r.value.day ==> days[j] != e.day)
        && r.value.place < NumWorkplaces && AllWorkplaces[r.value.place] == e.workplace
        && (r.value.worker.None? <==> forall i :: 0 <= i < |workers| ==> workers[i].name != e.name)
        && (r.value.worker.Some? ==> r.value.worker.value < |workers| && workers[r.value.worker.value].name == e.name)
        && (r.value.worker.Some? ==> forall i :: 0 <= i < r.value.worker.value ==> workers[i].name != e.name)
  {
    var names := Names(workers);
    if e.day in days && e.workplace in AllWorkplaces {
      if IndexOf(names, e.name).None? {
        forall i | 0 <= i < |workers| ensures workers[i].name != e.name {
          assert names[i] == workers[i].name;
        }
      } else {
        assert e.name in names;
        var i := IndexOf(names, e.name).value;
        forall j | 0 <= j < i ensures workers[j].name != e.name {
          assert names[j] == workers[j].name;
        }
      }
    }
  }

  /** Each entry's own resolution, in order. */
  function Resolved(workers: seq<Worker>, days: seq<Day>, entries: seq<PreschedEntry>): (rs: seq<Result<Placed, RunError>>)
    ensures |rs| == |entries|
    ensures forall k :: 0 <= k < |entries| ==> rs[k] == ResolveEntry(workers, days, entries[k], k)
  {
    seq(|entries|, k requires 0 <= k < |entries| => ResolveEntry(workers, days, entries[k], k))
  }

  /** The first n results collected, or the first error among them. */
  function Collect<T, E>(rs: seq<Result<T, E>>, n: nat): Result<seq<T>, E>
    requires n <= |rs|
  {
    if n == 0 then Ok([])
    else
      match Collect(rs, n - 1)
      case Err(e) => Err(e)
      case Ok(xs) =>
        match rs[n - 1]
        case Err(e) => Err(e)
        case Ok(x) => Ok(xs + [x])
  }

  /** Collecting succeeds exactly when every result is a success, and then
      it is their values in order. */
  lemma {:induction false} CollectOk<T, E>(rs: seq<Result<T, E>>, n: nat)
    requires n <= |rs|
    ensures Collect(rs, n).Ok? <==> forall k :: 0 <= k < n ==> rs[k].Ok?
    ensures Collect(rs, n).Ok? ==>
      |Collect(rs, n).value| == n && forall k :: 0 <= k < n ==> Collect(rs, n).value[k] == rs[k].value
  {
    if n > 0 {
      CollectOk(rs, n - 1);
      var prev := Collect(rs, n - 1);
      if prev.Ok? && rs[n - 1].Ok? {
        var xs := prev.value + [rs[n - 1].value];
        assert Collect(rs, n) == Ok(xs);
        forall k | 0 <= k < n ensures xs[k] == rs[k].value {
          if k < n - 1 {
            assert xs[k] == prev.value[k];
          }
        }
      }
    }
  }

  /** A failure is the error of the first failing result. */
  lemma {:induction false} CollectErr<T, E>(rs: seq<Result<T, E>>, n: nat)
    requires n <= |rs| && Collect(rs, n).Err?
    ensures exists k :: 0 <= k < n && rs[k].Err? && Collect(rs, n).error == rs[k].error &&
              forall j :: 0 <= j < k ==> rs[j].Ok?
  {
    var prev := Collect(rs, n - 1);
    if prev.Err? {
      assert Collect(rs, n) == prev;
      CollectErr(rs, n - 1);
      var k :| 0 <= k < n - 1 && rs[k].Err? && prev.error == rs[k].error && forall j :: 0 <= j < k ==> rs[j].Ok?;
      assert 0 <= k < n && rs[k].Err? && Collect(rs, n).error == rs[k].error;
    } else {
      CollectOk(rs, n - 1);
      assert rs[n - 1].Err? && Collect(rs, n) == Err(rs[n - 1].error);
      assert forall j :: 0 <= j < n - 1 ==> rs[j].Ok?;
    }
  }

  /** Once a result fails, the later results are not looked at. */
  lemma {:induction false} CollectStops<T, E>(rs: seq<Result<T, E>>, k: nat, n: nat)
    requires k <= n <= |rs| && Collect(rs, k).Err?
    ensures Collect(rs, n) == Collect(rs, k)
  {
    if n > k {
      CollectStops(rs, k, n - 1);
    }
  }

  /** The first n entries resolved, or the first one that fails. */
  function ResolveAll(workers: seq<Worker>, days: seq<Day>, entries: seq<PreschedEntry>, n: nat): Result<seq<Placed>, RunError>
    requires n <= |entries|
  {
    Collect(Resolved(workers, days, entries), n)
  }

  /** The resolution succeeds exactly when every entry resolves, and then
      it is the entries' slots in order. */
  lemma ResolveAllOk(workers: seq<Worker>, days: seq<Day>, entries: seq<PreschedEntry>, n: nat)
    requires n <= |entries|
    ensures ResolveAll(workers, days, entries, n).Ok? <==>
      forall k :: 0 <= k < n ==> ResolveEntry(workers, days, entries[k], k).Ok?
    ensures ResolveAll(workers, days, entries, n).Ok? ==>
      var plan := ResolveAll(workers, days, entries, n).value;
      |plan| == n && forall k :: 0 <= k < n ==> plan[k] == ResolveEntry(workers, days, entries[k], k).value
  {
    CollectOk(Resolved(workers, days, entries), n);
  }

  /** A failure is the error of the first entry that does not resolve. */
  lemma ResolveAllErr(workers: seq<Worker>, days: seq<Day>, entries: seq<PreschedEntry>, n: nat)
    requires n <= |entries|
    requires ResolveAll(workers, days, entries, n).Err?
    ensures exists k :: 0 <= k < n && ResolveEntry(workers, days, entries[k], k).Err? &&
              ResolveAll(workers, days, entries, n).error == ResolveEntry(workers, days, entries[k], k).error &&
              forall j :: 0 <= j < k ==> ResolveEntry(workers, days, entries[j], j).Ok?
  {
    var rs := Resolved(workers, days, entries);
    CollectErr(rs, n);
    var k :| 0 <= k < n && rs[k].Err? && Collect(rs, n).error == rs[k].error && forall j :: 0 <= j < k ==> rs[j].Ok?;
    assert forall j :: 0 <= j < k ==> ResolveEntry(workers, days, entries[j], j).Ok?;
  }

  /** Once an entry fails, the later entries are not looked at. */
  lemma ResolveAllStops(workers: seq<Worker>, days: seq<Day>, entries: seq<PreschedEntry>, k: nat, n: nat)
    requires k <= n <= |entries| && ResolveAll(workers, days, entries, k).Err?
    ensures ResolveAll(workers, days, entries, n) == ResolveAll(workers, days, entries, k)
  {
    CollectStops(Resolved(workers, days, entries), k, n);
  }

  /** One more entry extends the resolved prefix by its slot, or fails. */
  lemma ResolveStep(workers: seq<Worker>, days: seq<Day>, entries: seq<PreschedEntry>, k: nat, plan: seq<Placed>)
    requires k < |entries| && ResolveAll(workers, days, entries, k) == Ok(plan)
    ensures var x := ResolveEntry(workers, days, entries[k], k);
      ResolveAll(workers, days, entries, k + 1) == if x.Err? then Err(x.error) else Ok(plan + [x.value])
  {
    var rs := Resolved(workers, days, entries);
    assert Collect(rs, k + 1) == match rs[k] case Err(e) => Err(e) case Ok(x) => Ok(plan + [x]);
  }

  /** The body of the loop over `preschedule`: one line's day and workplace
      indices and the worker it names. */
  method ResolveLine(workers: seq<Worker>, days: seq<Day>, names: seq<string>, e: PreschedEntry, k: nat)
    returns (r: Result<Placed, RunError>)
    requires names == Names(workers)
    ensures r == ResolveEntry(workers, days, e, k)
  {
    var dayNdx := IndexOf(days, e.day);
    if dayNdx.None? {
      return Err(UnknownDay(k));
    }
    var placeNdx := IndexOf(AllWorkplaces, e.workplace);
    if placeNdx.None? {
      return Err(UnknownWorkplace(k));
    }
    return Ok(Placed(e.name, dayNdx.value, placeNdx.value, IndexOf(names, e.name)));
  }

  /** The loop over `preschedule`: the slots of all entries, in order. */
  method ResolvePreschedule(workers: seq<Worker>, days: seq<Day>, entries: seq<PreschedEntry>)
    returns (r: Result<seq<Placed>, RunError>)
    ensures r == ResolveAll(workers, days, entries, |entries|)
  {
    var names := Names(workers);
    var plan: seq<Placed> := [];
    for k := 0 to |entries|
      invariant ResolveAll(workers, days, entries, k) == Ok(plan)
    {
      var next := ResolveNext(workers, days, names, entries, k, plan);
      if next.Err? {
        return next;
      }
      plan := next.value;
    }
    return Ok(plan);
  }

  /** One pass of the loop: the slots so far extended by entry k's, or its error. */
  method ResolveNext(workers: seq<Worker>, days: seq<Day>, names: seq<string>, entries: seq<PreschedEntry>,
                     k: nat, plan: seq<Placed>) returns (r: Result<seq<Placed>, RunError>)
    requires names == Names(workers) && k < |entries| && ResolveAll(workers, days, entries, k) == Ok(plan)
    ensures r == ResolveAll(workers, days, entries, k + 1)
    ensures r.Err? ==> r == ResolveAll(workers, days, entries, |entries|)
  {
    var x := ResolveLine(workers, days, names, entries[k], k);
    ResolveStep(workers, days, entries, k, plan);
    if x.Err? {
      ResolveAllStops(workers, days, entries, k + 1, |entries|);
      return Err(x.error);
    }
    return Ok(plan + [x.value]);
  }

  // ---------------------------------------------------------------------
  // Availability of the unconnected workplaces

  /** Both halves of the day are +1 or 0. */
  predicate FullyAvailable(a: Availability) { Available(a.day) && Available(a.night) }

  predicate HasWorkdate(workers: seq<Worker>, d: nat)
  {
    forall i :: 0 <= i < |workers| ==> d < |workers[i].workdates|
  }

  predicate OffersAbdomen(w: Worker, d: nat)
    requires d < |w.workdates|
  {
    FullyAvailable(w.workdates[d]) && w.worksAbdDez > 0
  }

  predicate OffersAbdPrip(w: Worker, d: nat)
    requires d < |w.workdates|
  {
    FullyAvailable(w.workdates[d]) && w.worksAbdPrip > 0
  }

  predicate OffersTravma(w: Worker, d: nat)
    requires d < |w.workdates|
  {
    FullyAvailable(w.workdates[d]) && w.worksTravmaPrip > 0
  }

  /** `avail_workers_abd` is not empty. */
  predicate AbdomenCovered(workers: seq<Worker>, plan: seq<Placed>, d: nat)
    requires HasWorkdate(workers, d)
  {
    Blocked(plan, d, AbdomenNdx) || exists i :: 0 <= i < |workers| && OffersAbdomen(workers[i], d)
  }

  /** As written, `avail_workers_abd_prip`: on a non-workday the placeholder
      `None` goes in only for a worker who is free all day. */
  predicate AbdPripCoveredAsWritten(workers: seq<Worker>, day: Day, plan: seq<Placed>, d: nat)
    requires HasWorkdate(workers, d)
  {
    || Blocked(plan, d, AbdPripNdx)
    || exists i :: 0 <= i < |workers| && FullyAvailable(workers[i].workdates[d]) &&
                   (day.isWorkday ==> workers[i].worksAbdPrip > 0)
  }

  /** As intended: ABD prip. is only staffed on workdays. */
  predicate AbdPripCovered(workers: seq<Worker>, day: Day, plan: seq<Placed>, d: nat)
    requires HasWorkdate(workers, d)
  {
    Blocked(plan, d, AbdPripNdx) || !day.isWorkday || exists i :: 0 <= i < |workers| && OffersAbdPrip(workers[i], d)
  }

  /** As written, `avail_workers_travma`: the preschedule marker goes to
      `empty_days_travma_prip` instead. */
  predicate TravmaCoveredAsWritten(workers: seq<Worker>, plan: seq<Placed>, d: nat)
    requires HasWorkdate(workers, d)
  {
    exists i :: 0 <= i < |workers| && OffersTravma(workers[i], d)
  }

  /** As intended: a slot prescheduled to an outsider needs nobody. */
  predicate TravmaCovered(workers: seq<Worker>, plan: seq<Placed>, d: nat)
    requires HasWorkdate(workers, d)
  {
    Blocked(plan, d, TravmaNdx) || exists i :: 0 <= i < |workers| && OffersTravma(workers[i], d)
  }

  /** The first failure of one day: the workdates, then ABDOMEN, ABD prip.
      and TRAVMA in the order of the three exits. */
  function DayVerdict(d: nat, hasDate: bool, abd: bool, prip: bool, travma: bool): (r: Option<RunError>)
    ensures r.None? <==> hasDate && abd && prip && travma
  {
    if !hasDate then Some(MissingWorkdates(d))
    else if !abd then Some(NobodyAvailable(d, AbdomenNdx))
    else if !prip then Some(NobodyAvailable(d, AbdPripNdx))
    else if !travma then Some(NobodyAvailable(d, TravmaNdx))
    else None
  }

  function DayCheckAsWritten(workers: seq<Worker>, days: seq<Day>, plan: seq<Placed>, d: nat): Option<RunError>
    requires d < |days|
  {
    var ok := HasWorkdate(workers, d);
    DayVerdict(d, ok, ok && AbdomenCovered(workers, plan, d),
               ok && AbdPripCoveredAsWritten(workers, days[d], plan, d), ok && TravmaCoveredAsWritten(workers, plan, d))
  }

  function DayCheck(workers: seq<Worker>, days: seq<Day>, plan: seq<Placed>, d: nat): Option<RunError>
    requires d < |days|
  {
    var ok := HasWorkdate(workers, d);
    DayVerdict(d, ok, ok && AbdomenCovered(workers, plan, d),
               ok && AbdPripCovered(workers, days[d], plan, d), ok && TravmaCovered(workers, plan, d))
  }

  /** The first failing day among the first n, as written. */
  function AvailabilityCheckAsWritten(workers: seq<Worker>, days: seq<Day>, plan: seq<Placed>, n: nat): Option<RunError>
    requires n <= |days|
  {
    if n == 0 then None
    else
      var earlier := AvailabilityCheckAsWritten(workers, days, plan, n - 1);
      if earlier.Some? then earlier else DayCheckAsWritten(workers, days, plan, n - 1)
  }

  /** The first failing day among the first n. */
  function AvailabilityCheck(workers: seq<Worker>, days: seq<Day>, plan: seq<Placed>, n: nat): Option<RunError>
    requires n <= |days|
  {
    if n == 0 then None
    else
      var earlier := AvailabilityCheck(workers, days, plan, n - 1);
      if earlier.Some? then earlier else DayCheck(workers, days, plan, n - 1)
  }

  /** The check passes exactly when every day has its workdates and all
      three unconnected workplaces covered; otherwise it names the first
      failing day. */
  lemma {:induction false} AvailabilityCheckMeaning(workers: seq<Worker>, days: seq<Day>, plan: seq<Placed>, n: nat)
    requires n <= |days|
    ensures AvailabilityCheck(workers, days, plan, n).None? <==>
      forall d :: 0 <= d < n ==> DayCheck(workers, days, plan, d).None?
    ensures AvailabilityCheck(workers, days, plan, n).Some? ==>
      exists d :: 0 <= d < n && AvailabilityCheck(workers, days, plan, n) == DayCheck(workers, days, plan, d)
        && forall e :: 0 <= e < d ==> DayCheck(workers, days, plan, e).None?
  {
    if n > 0 {
      AvailabilityCheckMeaning(workers, days, plan, n - 1);
    }
  }

  /** The check as written is stricter: whatever it lets through, the
      corrected check lets through. */
  lemma {:induction false} AsWrittenIsStricter(workers: seq<Worker>, days: seq<Day>, plan: seq<Placed>, n: nat)
    requires n <= |days|
    ensures AvailabilityCheckAsWritten(workers, days, plan, n).None? ==> AvailabilityCheck(workers, days, plan, n).None?
  {
    if n > 0 {
      AsWrittenIsStricter(workers, days, plan, n - 1);
      var d := n - 1;
      if AvailabilityCheckAsWritten(workers, days, plan, n).None? {
        assert DayCheckAsWritten(workers, days, plan, d).None?;
        if exists i :: 0 <= i < |workers| && FullyAvailable(workers[i].workdates[d]) &&
                       (days[d].isWorkday ==> workers[i].worksAbdPrip > 0) {
          var i :| 0 <= i < |workers| && FullyAvailable(workers[i].workdates[d]) &&
                   (days[d].isWorkday ==> workers[i].worksAbdPrip > 0);
          if days[d].isWorkday {
            assert OffersAbdPrip(workers[i], d);
          }
        }
        assert DayCheck(workers, days, plan, d).None?;
      }
    }
  }

  /** One worker who could take ABDOMEN and ABD prip. but not TRAVMA. */
  function SampleWorker(workdates: seq<Availability>, travma: int): Worker
  {
    Worker("NOVAK JANEZ", "DA", "", "", "Specialist", WorkplaceLists([], [], []), workdates,
           0, 1, 1, travma, None, None, None)
  }

  /** TRAVMA prescheduled to an outsider on a workday, with nobody else
      offering TRAVMA: the run stops, although the slot needs nobody. */
  lemma TravmaPrescheduleStops()
    ensures var workers := [SampleWorker([Availability(1, 1)], 0)];
      var days := [Day("1.3.2025", true, false, false)];
      var plan := [Placed("ZUNANJI", 0, TravmaNdx, None)];
      && AvailabilityCheckAsWritten(workers, days, plan, 1) == Some(NobodyAvailable(0, TravmaNdx))
      && AvailabilityCheck(workers, days, plan, 1) == None
  {
    var workers := [SampleWorker([Availability(1, 1)], 0)];
    var days := [Day("1.3.2025", true, false, false)];
    var plan := [Placed("ZUNANJI", 0, TravmaNdx, None)];
    assert OffersAbdomen(workers[0], 0) && OffersAbdPrip(workers[0], 0);
    assert !TravmaCoveredAsWritten(workers, plan, 0);
    assert plan[0].worker.None? && plan[0].day == 0 && plan[0].place == TravmaNdx;
  }

  /** A weekend day on which ABDOMEN and TRAVMA are both prescheduled to
      outsiders and nobody is free all day: the run stops over ABD prip.,
      which is not staffed on that day at all. */
  lemma AbdPripWeekendStops()
    ensures var workers := [SampleWorker([Availability(-1, -1)], 1)];
      var days := [Day("2.3.2025", false, true, false)];
      var plan := [Placed("ZUNANJI", 0, AbdomenNdx, None), Placed("ZUNANJI", 0, TravmaNdx, None)];
      && AvailabilityCheckAsWritten(workers, days, plan, 1) == Some(NobodyAvailable(0, AbdPripNdx))
      && AvailabilityCheck(workers, days, plan, 1) == None
  {
    var workers := [SampleWorker([Availability(-1, -1)], 1)];
    var days := [Day("2.3.2025", false, true, false)];
    var plan := [Placed("ZUNANJI", 0, AbdomenNdx, None), Placed("ZUNANJI", 0, TravmaNdx, None)];
    assert plan[0].worker.None? && plan[0].day == 0 && plan[0].place == AbdomenNdx;
    assert plan[1].worker.None? && plan[1].day == 0 && plan[1].place == TravmaNdx;
    assert !Blocked(plan, 0, AbdPripNdx);
    assert !FullyAvailable(workers[0].workdates[0]);
  }

  /** Whoever holds an unconnected post in a valid roster is free all day
      and has a quota for that post. */
  lemma UnconnectedHolderOffers(inp: Inputs, work: Assignment, w: nat, d: nat, p: nat)
    requires Fits(inp, work) && Valid(inp, work)
    requires w < |inp.workers| && d < |inp.days| && IsUnconnectedPost(p) && work[w][d][p]
    ensures FullyAvailable(inp.workers[w].workdates[d])
    ensures p == AbdomenNdx ==> inp.workers[w].worksAbdDez > 0
    ensures p == AbdPripNdx && inp.days[d].isWorkday ==> inp.workers[w].worksAbdPrip > 0
    ensures p == TravmaNdx ==> inp.workers[w].worksTravmaPrip > 0
  {
    var worker, rows := inp.workers[w], work[w];
    assert WorkerRules(inp, worker, rows);
    assert DayRules(inp, worker, rows, d);
    ClassCounts(rows[d], p);
    assert QuotasMet(worker, inp.days, rows);
    if p == AbdPripNdx {
      if inp.days[d].isWorkday {
        CountPositive(PostWorkdays(rows, inp.days, p), d);
      }
    } else {
      CountPositive(PostDays(rows, p), d);
    }
  }

  /** An open unconnected slot of a valid roster has a holder who offers
      that post on that day. */
  lemma OpenSlotOffered(inp: Inputs, work: Assignment, d: nat, p: nat)
    requires Fits(inp, work) && Valid(inp, work) && d < |inp.days| && IsUnconnectedPost(p)
    requires SlotTotal(inp, d, p) == 1
    ensures exists w :: 0 <= w < |inp.workers| && d < |inp.workers[w].workdates| &&
                        FullyAvailable(inp.workers[w].workdates[d]) &&
                        (p == AbdomenNdx ==> inp.workers[w].worksAbdDez > 0) &&
                        (p == AbdPripNdx ==> inp.workers[w].worksAbdPrip > 0) &&
                        (p == TravmaNdx ==> inp.workers[w].worksTravmaPrip > 0)
  {
    SlotHolders(inp, work, d, p);
    var w :| 0 <= w < |work| && work[w][d][p];
    assert WorkerReady(inp, inp.workers[w]);
    UnconnectedHolderOffers(inp, work, w, d, p);
  }

  /** A day whose workdates exist and whose three open posts are offered
      passes the check. */
  lemma DayCheckOk(workers: seq<Worker>, days: seq<Day>, plan: seq<Placed>, d: nat)
    requires d < |days| && HasWorkdate(workers, d)
    requires AbdomenCovered(workers, plan, d)
    requires AbdPripCovered(workers, days[d], plan, d)
    requires TravmaCovered(workers, plan, d)
    ensures DayCheck(workers, days, plan, d).None?
  {
  }

  /** On a day of a valid roster, every open unconnected slot has a
      holder who offers it, so the day passes the check. */
  lemma DayCheckPasses(inp: Inputs, work: Assignment, d: nat)
    requires Fits(inp, work) && Valid(inp, work) && d < |inp.days|
    ensures DayCheck(inp.workers, inp.days, inp.plan, d).None?
  {
    var workers, days, plan := inp.workers, inp.days, inp.plan;
    assert HasWorkdate(workers, d) by {
      forall i | 0 <= i < |workers| ensures d < |workers[i].workdates| {
        assert WorkerReady(inp, workers[i]);
      }
    }
    if !Blocked(plan, d, AbdomenNdx) {
      OpenSlotOffered(inp, work, d, AbdomenNdx);
      var w :| 0 <= w < |workers| && d < |workers[w].workdates| && FullyAvailable(workers[w].workdates[d]) && workers[w].worksAbdDez > 0;
      assert OffersAbdomen(workers[w], d);
    }
    if !Blocked(plan, d, AbdPripNdx) && days[d].isWorkday {
      OpenSlotOffered(inp, work, d, AbdPripNdx);
      var w :| 0 <= w < |workers| && d < |workers[w].workdates| && FullyAvailable(workers[w].workdates[d]) && workers[w].worksAbdPrip > 0;
      assert OffersAbdPrip(workers[w], d);
    }
    if !Blocked(plan, d, TravmaNdx) {
      OpenSlotOffered(inp, work, d, TravmaNdx);
      var w :| 0 <= w < |workers| && d < |workers[w].workdates| && FullyAvailable(workers[w].workdates[d]) && workers[w].worksTravmaPrip > 0;
      assert OffersTravma(workers[w], d);
    }
    DayCheckOk(workers, days, plan, d);
  }

  /** The corrected check is necessary: if the month has a valid roster,
      the check never stops the run. */
  lemma AvailabilityNecessary(inp: Inputs, work: Assignment)
    requires Fits(inp, work) && Valid(inp, work)
    ensures AvailabilityCheck(inp.workers, inp.days, inp.plan, |inp.days|) == None
  {
    forall d | 0 <= d < |inp.days| ensures DayCheck(inp.workers, inp.days, inp.plan, d).None? {
      DayCheckPasses(inp, work, d);
    }
    AvailabilityCheckMeaning(inp.workers, inp.days, inp.plan, |inp.days|);
  }

  // ---------------------------------------------------------------------
  // The quota warnings

  datatype Warning =
    | AbdDezTotal(total: int, expected: int)
    | AbdPripTotal(total: int, expected: int)
    | TravmaPripTotal(total: int, expected: int)
    | NightMaxTooSmall(total: int, places: int)
    | NightMinTooLarge(total: int, places: int)

  /** The quota of one worker for an unconnected post. */
  function QuotaOf(w: Worker, p: nat): int
  {
    if p == AbdomenNdx then w.worksAbdDez else if p == AbdPripNdx then w.worksAbdPrip else w.worksTravmaPrip
  }

  /** `sum_abd_dez`, `sum_abd_prip` and `sum_travma_prip`, by post. */
  function QuotaTotal(workers: seq<Worker>, p: nat): int
  {
    if |workers| == 0 then 0 else QuotaTotal(workers[..|workers| - 1], p) + QuotaOf(workers[|workers| - 1], p)
  }

  /** Which days are workdays. */
  function WorkdayFlags(days: seq<Day>): (f: seq<bool>)
    ensures |f| == |days| && forall d :: 0 <= d < |days| ==> f[d] == days[d].isWorkday
  {
    seq(|days|, d requires 0 <= d < |days| => days[d].isWorkday)
  }

  /** `num_workdays`. */
  function NumWorkdays(days: seq<Day>): nat
  {
    Count(WorkdayFlags(days))
  }

  /** As written: the TRAVMA warning is guarded by `sum_abd_dez != num_days`. */
  function QuotaWarningsAsWritten(workers: seq<Worker>, days: seq<Day>): seq<Warning>
  {
    var abd, prip, travma := QuotaTotal(workers, AbdomenNdx), QuotaTotal(workers, AbdPripNdx), QuotaTotal(workers, TravmaNdx);
    (if abd != |days| then [AbdDezTotal(abd, |days|)] else [])
    + (if prip != NumWorkdays(days) then [AbdPripTotal(prip, NumWorkdays(days))] else [])
    + (if abd != |days| then [TravmaPripTotal(travma, |days|)] else [])
  }

  /** As intended: each total is compared with its own target. */
  function QuotaWarnings(workers: seq<Worker>, days: seq<Day>): (r: seq<Warning>)
    ensures AbdDezTotal(QuotaTotal(workers, AbdomenNdx), |days|) in r <==> QuotaTotal(workers, AbdomenNdx) != |days|
    ensures AbdPripTotal(QuotaTotal(workers, AbdPripNdx), NumWorkdays(days)) in r <==> QuotaTotal(workers, AbdPripNdx) != NumWorkdays(days)
    ensures TravmaPripTotal(QuotaTotal(workers, TravmaNdx), |days|) in r <==> QuotaTotal(workers, TravmaNdx) != |days|
    ensures r == [] <==>
      QuotaTotal(workers, AbdomenNdx) == |days| && QuotaTotal(workers, AbdPripNdx) == NumWorkdays(days) && QuotaTotal(workers, TravmaNdx) == |days|
  {
    var abd, prip, travma := QuotaTotal(workers, AbdomenNdx), QuotaTotal(workers, AbdPripNdx), QuotaTotal(workers, TravmaNdx);
    (if abd != |days| then [AbdDezTotal(abd, |days|)] else [])
    + (if prip != NumWorkdays(days) then [AbdPripTotal(prip, NumWorkdays(days))] else [])
    + (if travma != |days| then [TravmaPripTotal(travma, |days|)] else [])
  }

  /** The ABDOMEN total matches the month but the TRAVMA total does not:
      as written nothing is reported about TRAVMA. */
  lemma TravmaWarningMissed()
    ensures var workers := [SampleWorker([Availability(1, 1)], 0)];
      var days := [Day("1.3.2025", true, false, false)];
      && QuotaWarningsAsWritten(workers, days) == []
      && QuotaWarnings(workers, days) == [TravmaPripTotal(0, 1)]
  {
    var workers := [SampleWorker([Availability(1, 1)], 0)];
    var days := [Day("1.3.2025", true, false, false)];
    var flags := WorkdayFlags(days);
    assert flags == [true];
    assert flags[..0] == [];
    assert NumWorkdays(days) == 1;
    assert workers[..0] == [];
  }

  // ---------------------------------------------------------------------
  // The night-count totals

  /** The `total_min_shifts`/`total_max_shifts` accumulation over the first
      n workers, or the KeyError of the first night worker whose status the
      minimum table does not know. */
  function NightTotalsOf(workers: seq<Worker>, n: nat): Result<(int, int), RunError>
    requires n <= |workers|
  {
    if n == 0 then Ok((0, 0))
    else
      match NightTotalsOf(workers, n - 1)
      case Err(e) => Err(e)
      case Ok(totals) =>
        var w := workers[n - 1];
        if !WorksNightShifts(w) then Ok(totals)
        else
          match MinNightShifts(w.status)
          case None => Err(UnknownStatus(n - 1))
          case Some(lo) => Ok((totals.0 + lo, totals.1 + MaxNightShifts(w)))
  }

  /** The bracket exists exactly when every night worker's status is
      known; the minimum never exceeds the maximum; a failure names a
      night worker whose status is unknown. */
  lemma {:induction false} NightTotalsOfMeaning(workers: seq<Worker>, n: nat)
    requires n <= |workers|
    ensures var r := NightTotalsOf(workers, n);
      && (r.Ok? <==> forall i :: 0 <= i < n && WorksNightShifts(workers[i]) ==> MinNightShifts(workers[i].status).Some?)
      && (r.Ok? ==> r.value.0 <= r.value.1)
      && (r.Err? ==> exists i :: 0 <= i < n && r.error == UnknownStatus(i) &&
                          WorksNightShifts(workers[i]) && MinNightShifts(workers[i].status).None?)
  {
    if n > 0 {
      NightTotalsOfMeaning(workers, n - 1);
    }
  }

  lemma {:induction false} NightTotalsStop(workers: seq<Worker>, k: nat, n: nat)
    requires k <= n <= |workers| && NightTotalsOf(workers, k).Err?
    ensures NightTotalsOf(workers, n) == NightTotalsOf(workers, k)
  {
    if n > k {
      NightTotalsStop(workers, k, n - 1);
    }
  }

  /** The first loop of the night block. */
  method NightTotals(workers: seq<Worker>) returns (r: Result<(int, int), RunError>)
    ensures r == NightTotalsOf(workers, |workers|)
  {
    var totalMin, totalMax := 0, 0;
    for i := 0 to |workers|
      invariant NightTotalsOf(workers, i) == Ok((totalMin, totalMax))
    {
      var next := AddNightBounds(workers, i, totalMin, totalMax);
      if next.Err? {
        return next;
      }
      totalMin, totalMax := next.value.0, next.value.1;
    }
    return Ok((totalMin, totalMax));
  }

  /** One pass of the loop: worker i's minimum and maximum added, or the
      KeyError of its status. */
  method AddNightBounds(workers: seq<Worker>, i: nat, totalMin: int, totalMax: int) returns (r: Result<(int, int), RunError>)
    requires i < |workers| && NightTotalsOf(workers, i) == Ok((totalMin, totalMax))
    ensures r == NightTotalsOf(workers, i + 1)
    ensures r.Err? ==> r == NightTotalsOf(workers, |workers|)
  {
    var w := workers[i];
    if !WorksNightShifts(w) {
      return Ok((totalMin, totalMax));
    }
    var lo := MinNightShifts(w.status);
    if lo.None? {
      NightTotalsStop(workers, i + 1, |workers|);
      return Err(UnknownStatus(i));
    }
    var hi := if lo.value >= 5 - w.reduceShifts then lo.value else 5 - w.reduceShifts;
    return Ok((totalMin + lo.value, totalMax + hi));
  }

  /** The two night-count warnings against `total_night_places`. */
  function NightWarnings(totalMin: int, totalMax: int, numDays: nat): (r: seq<Warning>)
    ensures NightMaxTooSmall(totalMax, 3 * numDays) in r <==> totalMax < 3 * numDays
    ensures NightMinTooLarge(totalMin, 3 * numDays) in r <==> totalMin > 3 * numDays
    ensures |r| <= 2
  {
    var places := 3 * numDays;
    (if totalMax < places then [NightMaxTooSmall(totalMax, places)] else [])
    + (if totalMin > places then [NightMinTooLarge(totalMin, places)] else [])
  }

  /** With the minimum below the maximum, both night warnings never appear
      together. */
  lemma NightWarningsExclusive(workers: seq<Worker>, numDays: nat)
    requires NightTotalsOf(workers, |workers|).Ok?
    ensures var t := NightTotalsOf(workers, |workers|).value; |NightWarnings(t.0, t.1, numDays)| <= 1
  {
    NightTotalsOfMeaning(workers, |workers|);
  }

  // ---------------------------------------------------------------------
  // Exceptions raised while the constraints are added

  /** Days whose day half is +1 or 0 (`eligible_days`). */
  function EligibleDays(w: Worker, numDays: nat): nat
  {
    Count(seq(numDays, d requires 0 <= d < numDays => d < |w.workdates| && Available(w.workdates[d].day)))
  }

  function KrozeciCheck(workers: seq<Worker>, numDays: nat, scheduled: int, n: nat): (r: Option<RunError>)
    requires n <= |workers|
    ensures r.None? <==> forall i :: 0 <= i < n && IsKrozeci(workers[i]) ==> EligibleDays(workers[i], numDays) >= scheduled
    ensures r.Some? ==> (exists i :: 0 <= i < n && r.value == KrozeciTooFewDays(i) &&
                           IsKrozeci(workers[i]) && EligibleDays(workers[i], numDays) < scheduled &&
                           forall j :: 0 <= j < i ==> !(IsKrozeci(workers[j]) && EligibleDays(workers[j], numDays) < scheduled))
  {
    if n == 0 then None
    else
      var earlier := KrozeciCheck(workers, numDays, scheduled, n - 1);
      if earlier.Some? then earlier
      else if IsKrozeci(workers[n - 1]) && EligibleDays(workers[n - 1], numDays) < scheduled then Some(KrozeciTooFewDays(n - 1))
      else None
  }

  function OmejenoCheck(workers: seq<Worker>, n: nat): (r: Option<RunError>)
    requires n <= |workers|
    ensures r.None? <==> forall i :: 0 <= i < n && workers[i].included == Omejeno ==>
                           workers[i].numDayshiftsOmejeno.Some? && workers[i].numNightshiftsOmejeno.Some?
    ensures r.Some? ==> (exists i :: 0 <= i < n && workers[i].included == Omejeno &&
                           ((workers[i].numDayshiftsOmejeno.None? && r.value == OmejenoDayCountMissing(i)) ||
                            (workers[i].numDayshiftsOmejeno.Some? && workers[i].numNightshiftsOmejeno.None? &&
                             r.value == OmejenoNightCountMissing(i))) &&
                           forall j :: 0 <= j < i && workers[j].included == Omejeno ==>
                             workers[j].numDayshiftsOmejeno.Some? && workers[j].numNightshiftsOmejeno.Some?)
  {
    if n == 0 then None
    else
      var earlier := OmejenoCheck(workers, n - 1);
      var w := workers[n - 1];
      if earlier.Some? then earlier
      else if w.included != Omejeno then None
      else if w.numDayshiftsOmejeno.None? then Some(OmejenoDayCountMissing(n - 1))
      else if w.numNightshiftsOmejeno.None? then Some(OmejenoNightCountMissing(n - 1))
      else None
  }

  /** `years = [worker.year_of_specialization ...]`. */
  function YearCheck(workers: seq<Worker>, n: nat): (r: Option<RunError>)
    requires n <= |workers|
    ensures r.None? <==> forall i :: 0 <= i < n ==> YearOfSpecialization(workers[i].status).Some?
    ensures r.Some? ==> exists i :: 0 <= i < n && r.value == UnknownStatus(i) && YearOfSpecialization(workers[i].status).None? &&
                          forall j :: 0 <= j < i ==> YearOfSpecialization(workers[j].status).Some?
  {
    if n == 0 then None
    else
      var earlier := YearCheck(workers, n - 1);
      if earlier.Some? then earlier
      else if YearOfSpecialization(workers[n - 1].status).None? then Some(UnknownStatus(n - 1))
      else None
  }

  /** The three weight lookups of one worker, in order. */
  function WeightError(weights: seq<(string, int)>, w: Worker, i: nat): (r: Option<RunError>)
    requires YearOfSpecialization(w.status).Some?
    ensures r.None? <==> SkipsWorkload(w) || HasWorkerWeights(weights, w)
  {
    StatusTables(w.status);
    var year := YearOfSpecialization(w.status).value;
    if SkipsWorkload(w) then None
    else if Lookup(weights, NightKey(year)).None? then Some(MissingWeight(i, NightKey(year)))
    else if Lookup(weights, "workday").None? then Some(MissingWeight(i, "workday"))
    else if Lookup(weights, "weekend").None? then Some(MissingWeight(i, "weekend"))
    else None
  }

  function WeightsCheck(weights: seq<(string, int)>, workers: seq<Worker>, n: nat): (r: Option<RunError>)
    requires n <= |workers| && forall i :: 0 <= i < |workers| ==> YearOfSpecialization(workers[i].status).Some?
    ensures r.None? <==> forall i :: 0 <= i < n && !SkipsWorkload(workers[i]) ==> HasWorkerWeights(weights, workers[i])
  {
    if n == 0 then None
    else
      var earlier := WeightsCheck(weights, workers, n - 1);
      if earlier.Some? then earlier else WeightError(weights, workers[n - 1], n - 1)
  }

  // ---------------------------------------------------------------------
  // The whole preparation

  /** Everything up to the solver call that can stop the run, in program
      order; on success, the resolved preschedule. */
  function Prepare(workers: seq<Worker>, days: seq<Day>, entries: seq<PreschedEntry>, config: Config): Result<seq<Placed>, RunError>
  {
    var resolved := ResolveAll(workers, days, entries, |entries|);
    if resolved.Err? then Err(resolved.error)
    else LaterChecks(workers, days, config, resolved.value, AvailabilityCheck(workers, days, resolved.value, |days|))
  }

  /** The same run with the availability test as the code writes it. */
  function PrepareAsWritten(workers: seq<Worker>, days: seq<Day>, entries: seq<PreschedEntry>, config: Config): Result<seq<Placed>, RunError>
  {
    var resolved := ResolveAll(workers, days, entries, |entries|);
    if resolved.Err? then Err(resolved.error)
    else LaterChecks(workers, days, config, resolved.value, AvailabilityCheckAsWritten(workers, days, resolved.value, |days|))
  }

  /** The checks after the preschedule, given the availability verdict. */
  function LaterChecks(workers: seq<Worker>, days: seq<Day>, config: Config, plan: seq<Placed>,
                       available: Option<RunError>): Result<seq<Placed>, RunError>
  {
    var nights := NightTotalsOf(workers, |workers|);
    var krozeci := KrozeciCheck(workers, |days|, config.krozeciScheduled, |workers|);
    var omejeno := OmejenoCheck(workers, |workers|);
    var years := YearCheck(workers, |workers|);
    if available.Some? then Err(available.value)
    else if nights.Err? then Err(nights.error)
    else if krozeci.Some? then Err(krozeci.value)
    else if omejeno.Some? then Err(omejeno.value)
    else if years.Some? then Err(years.value)
    else if |workers| == 0 then Err(NoWorkers)
    else if |config.workplaceWeights| == 0 then Err(NoWeights)
    else
      var weights := WeightsCheck(config.workplaceWeights, workers, |workers|);
      if weights.Some? then Err(weights.value) else Ok(plan)
  }

  /** Whatever the code as written lets through, the corrected run lets
      through with the same plan. */
  lemma PrepareAsWrittenStricter(workers: seq<Worker>, days: seq<Day>, entries: seq<PreschedEntry>, config: Config)
    ensures PrepareAsWritten(workers, days, entries, config).Ok? ==>
              Prepare(workers, days, entries, config) == PrepareAsWritten(workers, days, entries, config)
  {
    var resolved := ResolveAll(workers, days, entries, |entries|);
    if resolved.Ok? {
      AsWrittenIsStricter(workers, days, resolved.value, |days|);
    }
  }


  /** What the parser guarantees of a worker's lists. */
  predicate ParsedLists(wp: WorkplaceLists)
  {
    && (forall i :: 0 <= i < |wp.yes| ==> 0 <= wp.yes[i] < NumWorkplaces)
    && (forall i :: 0 <= i < |wp.maybe| ==> 0 <= wp.maybe[i] < NumWorkplaces)
    && |wp.yes| + |wp.maybe| <= NumWorkplaces
  }

  /** The slots of a resolved preschedule lie inside the month and name
      their worker. */
  lemma PlanReady(inp: Inputs, entries: seq<PreschedEntry>)
    requires ResolveAll(inp.workers, inp.days, entries, |entries|) == Ok(inp.plan)
    ensures forall k :: 0 <= k < |inp.plan| ==> PlacedReady(inp, inp.plan[k])
  {
    ResolveAllOk(inp.workers, inp.days, entries, |entries|);
    forall k | 0 <= k < |inp.plan| ensures PlacedReady(inp, inp.plan[k]) {
      assert inp.plan[k] == ResolveEntry(inp.workers, inp.days, entries[k], k).value;
      ResolveEntryMeaning(inp.workers, inp.days, entries[k], k);
    }
  }

  /** A passed availability check means every worker has a workdate for
      every day. */
  lemma WorkdatesReady(workers: seq<Worker>, days: seq<Day>, plan: seq<Placed>)
    requires AvailabilityCheck(workers, days, plan, |days|).None?
    ensures forall i :: 0 <= i < |workers| ==> |workers[i].workdates| >= |days|
  {
    AvailabilityCheckMeaning(workers, days, plan, |days|);
    if |days| > 0 {
      assert DayCheck(workers, days, plan, |days| - 1).None?;
      assert HasWorkdate(workers, |days| - 1);
    }
  }

  /** A run that gets past its checks meets every assumption the
      constraints are stated under. */
  lemma PrepareReady(workers: seq<Worker>, days: seq<Day>, entries: seq<PreschedEntry>, config: Config)
    requires forall i :: 0 <= i < |workers| ==> ParsedLists(workers[i].workplaces)
    requires DistinctKeys(config.workplaceWeights)
    requires Prepare(workers, days, entries, config).Ok?
    ensures Ready(Inputs(workers, days, Prepare(workers, days, entries, config).value, config))
  {
    PreparePasses(workers, days, entries, config);
    ChecksReady(Inputs(workers, days, Prepare(workers, days, entries, config).value, config), entries);
  }

  /** A successful preparation passed every one of its checks. */
  lemma PreparePasses(workers: seq<Worker>, days: seq<Day>, entries: seq<PreschedEntry>, config: Config)
    requires Prepare(workers, days, entries, config).Ok?
    ensures var plan := Prepare(workers, days, entries, config).value;
      && ResolveAll(workers, days, entries, |entries|) == Ok(plan)
      && AvailabilityCheck(workers, days, plan, |days|).None?
      && NightTotalsOf(workers, |workers|).Ok?
      && KrozeciCheck(workers, |days|, config.krozeciScheduled, |workers|).None?
      && OmejenoCheck(workers, |workers|).None?
      && YearCheck(workers, |workers|).None?
      && |workers| > 0 && |config.workplaceWeights| > 0
      && WeightsCheck(config.workplaceWeights, workers, |workers|).None?
  {
  }

  /** Inputs that pass the checks meet every assumption the constraints
      are stated under. */
  lemma ChecksReady(inp: Inputs, entries: seq<PreschedEntry>)
    requires forall i :: 0 <= i < |inp.workers| ==> ParsedLists(inp.workers[i].workplaces)
    requires DistinctKeys(inp.config.workplaceWeights)
    requires ResolveAll(inp.workers, inp.days, entries, |entries|) == Ok(inp.plan)
    requires AvailabilityCheck(inp.workers, inp.days, inp.plan, |inp.days|).None?
    requires NightTotalsOf(inp.workers, |inp.workers|).Ok?
    requires OmejenoCheck(inp.workers, |inp.workers|).None?
    requires YearCheck(inp.workers, |inp.workers|).None?
    requires |inp.workers| > 0 && |inp.config.workplaceWeights| > 0
    requires WeightsCheck(inp.config.workplaceWeights, inp.workers, |inp.workers|).None?
    ensures Ready(inp)
  {
    PlanReady(inp, entries);
    WorkdatesReady(inp.workers, inp.days, inp.plan);
    forall i | 0 <= i < |inp.workers| ensures WorkerReady(inp, inp.workers[i]) {
      var w := inp.workers[i];
      assert ParsedLists(w.workplaces);
      StatusLookupsAgree(w.status);
      StatusTables(w.status);
    }
  }
}
