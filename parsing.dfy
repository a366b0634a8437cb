/** The cell decoders used while reading the two input sheets. A cell of a
    pandas row is text, a number, or NaN for an empty cell. */
module Parsing {
  import opened Wrappers
  import opened Workplaces
  import opened Workers

  datatype Cell = Text(s: string) | Number(x: real) | NaN

  datatype ParseError =
    | MissingColumn(column: string)     // KeyError on `row[column]`
    | UnknownChoice(cell: Cell)          // KeyError on `wp_dict[wp_data]`
    | UnrecognizedEntry(entry: string)   // the exception of `parse_work_dates`
    | NotText(cell: Cell)                // AttributeError: a number has no `lower`
    | NotANumber(cell: Cell)             // TypeError from `math.isnan` on text
    | NoAvailabilityColumns              // StopIteration from `next(...)`

  type Row = map<string, Cell>

  /** `transform_nan`: a NaN cell becomes `to`, anything else is kept. */
  function TransformNan(c: Cell, to: Cell): (r: Cell)
    ensures c.NaN? ==> r == to
    ensures !c.NaN? ==> r == c
  {
    if c.NaN? then to else c
  }

  lemma TransformNanIdempotent(c: Cell, to: Cell)
    ensures TransformNan(TransformNan(c, to), to) == TransformNan(c, to)
  {
  }

  /** Python's `int()` on a float: truncation toward zero. */
  function Truncate(x: real): (r: int)
    ensures 0.0 <= x ==> r as real <= x < r as real + 1.0
    ensures x < 0.0 ==> r as real - 1.0 < x <= r as real
  {
    if x >= 0.0 then x.Floor else -((-x).Floor)
  }

  lemma TruncateIntegral(n: int)
    ensures Truncate(n as real) == n
  {
  }

  /** `to_int_or_nan`: NaN stays NaN (`None`), a number is truncated. */
  function ToIntOrNan(c: Cell): (r: Result<Option<int>, ParseError>)
    ensures c.NaN? ==> r == Ok(None)
    ensures c.Number? ==> r.Ok? && r.value.Some? && r.value.value == Truncate(c.x)
    ensures c.Text? ==> r == Err(NotANumber(c))
  {
    match c
    case NaN => Ok(None)
    case Number(x) => Ok(Some(Truncate(x)))
    case Text(_) => Err(NotANumber(c))
  }

  const ReduceShiftsColumn: string := "ŠTEVILO DEŽURSTEV (OPROŠČENO ŠTEVILO)"

  /** `parse_reduce_shifts`: a missing count means 0. */
  function ParseReduceShifts(row: Row): (r: Result<int, ParseError>)
    ensures ReduceShiftsColumn !in row ==> r == Err(MissingColumn(ReduceShiftsColumn))
    ensures ReduceShiftsColumn in row && row[ReduceShiftsColumn].NaN? ==> r == Ok(0)
    ensures ReduceShiftsColumn in row && row[ReduceShiftsColumn].Number? ==>
              r == Ok(Truncate(row[ReduceShiftsColumn].x))
    ensures ReduceShiftsColumn in row && row[ReduceShiftsColumn].Text? ==> r.Err?
  {
    if ReduceShiftsColumn !in row then Err(MissingColumn(ReduceShiftsColumn))
    else match row[ReduceShiftsColumn]
      case NaN => Ok(0)
      case Number(x) => Ok(Truncate(x))
      case Text(_) => Err(NotANumber(row[ReduceShiftsColumn]))
  }

  // ---------------------------------------------------------------------
  // parse_workplaces

  datatype Choice = Yes | Maybe | No

  /** The list one standard workplace column sends its index to. */
  function ChoiceAt(row: Row, i: nat): (r: Result<Choice, ParseError>)
    requires i < |StandardWorkplaces|
    ensures StandardWorkplaces[i] !in row ==> r == Err(MissingColumn(StandardWorkplaces[i]))
    ensures StandardWorkplaces[i] in row ==>
      (r == Ok(Yes) <==> row[StandardWorkplaces[i]] == Text("YES")) &&
      (r == Ok(Maybe) <==> row[StandardWorkplaces[i]] == Text("MAYBE")) &&
      (r == Ok(No) <==> row[StandardWorkplaces[i]] in {Text("NO"), NaN})
    ensures StandardWorkplaces[i] in row && row[StandardWorkplaces[i]] !in {Text("YES"), Text("MAYBE"), Text("NO"), NaN} ==>
      r == Err(UnknownChoice(row[StandardWorkplaces[i]]))
  {
    var column := StandardWorkplaces[i];
    if column !in row then Err(MissingColumn(column))
    else
      var v := TransformNan(row[column], Text("NO"));
      if v == Text("YES") then Ok(Yes)
      else if v == Text("MAYBE") then Ok(Maybe)
      else if v == Text("NO") then Ok(No)
      else Err(UnknownChoice(v))
  }

  /** `s` is strictly increasing, so it lists its elements once, in order. */
  predicate Ascending(s: seq<int>)
  {
    forall i, j :: 0 <= i < j < |s| ==> s[i] < s[j]
  }

  /** The three lists a sequence of choices sorts the indices 0.. into,
      each in index order. */
  function Split(cs: seq<Choice>): WorkplaceLists
  {
    if |cs| == 0 then WorkplaceLists([], [], [])
    else
      var l, i := Split(cs[..|cs| - 1]), |cs| - 1;
      match cs[i]
      case Yes => l.(yes := l.yes + [i])
      case Maybe => l.(maybe := l.maybe + [i])
      case No => l.(no := l.no + [i])
  }

  /** One more choice appends its index to the list it names. */
  lemma SplitStep(cs: seq<Choice>, c: Choice)
    ensures var l, n := Split(cs), |cs|;
      Split(cs + [c]) == match c
        case Yes => l.(yes := l.yes + [n])
        case Maybe => l.(maybe := l.maybe + [n])
        case No => l.(no := l.no + [n])
  {
    assert (cs + [c])[..|cs|] == cs;
  }

  /** Appending an index above every entry keeps a list ascending. */
  lemma AppendAbove(s: seq<int>, n: int)
    requires Ascending(s) && forall x :: x in s ==> x < n
    ensures Ascending(s + [n])
  {
    forall i, j | 0 <= i < j < |s| + 1 ensures (s + [n])[i] < (s + [n])[j] {
      if j == |s| {
        assert (s + [n])[i] == s[i] && s[i] in s;
      }
    }
  }

  /** Every index lands in the list its choice names and in no other, and
      the lists hold nothing else. */
  lemma {:induction false} SplitMembers(cs: seq<Choice>)
    ensures var l := Split(cs);
      && (forall j :: 0 <= j < |cs| ==>
            (j in l.yes <==> cs[j] == Yes) && (j in l.maybe <==> cs[j] == Maybe) && (j in l.no <==> cs[j] == No))
      && (forall x :: x in l.yes || x in l.maybe || x in l.no ==> 0 <= x < |cs|)
  {
    if |cs| > 0 {
      var n := |cs| - 1;
      var prev := Split(cs[..n]);
      SplitMembers(cs[..n]);
      assert forall j :: 0 <= j < n ==> cs[..n][j] == cs[j];
      var l := Split(cs);
      assert l.yes == prev.yes + (if cs[n] == Yes then [n] else []);
      assert l.maybe == prev.maybe + (if cs[n] == Maybe then [n] else []);
      assert l.no == prev.no + (if cs[n] == No then [n] else []);
    }
  }

  /** The lists ascend and hold |cs| entries in all. */
  lemma {:induction false} SplitShape(cs: seq<Choice>)
    ensures var l := Split(cs);
      Ascending(l.yes) && Ascending(l.maybe) && Ascending(l.no) && |l.yes| + |l.maybe| + |l.no| == |cs|
  {
    if |cs| > 0 {
      var n := |cs| - 1;
      var prev := Split(cs[..n]);
      SplitShape(cs[..n]);
      SplitMembers(cs[..n]);
      match cs[n]
      case Yes => AppendAbove(prev.yes, n);
      case Maybe => AppendAbove(prev.maybe, n);
      case No => AppendAbove(prev.no, n);
    }
  }

  /** `parse_workplaces`: each standard workplace index goes to the list
      its cell names; an empty cell means NO. The first unreadable column
      stops the parse. */
  method ParseWorkplaces(row: Row) returns (r: Result<WorkplaceLists, ParseError>)
    ensures r.Ok? <==> forall i :: 0 <= i < 8 ==> ChoiceAt(row, i).Ok?
    ensures r.Err? ==> exists i :: 0 <= i < 8 && ChoiceAt(row, i).Err? && r.error == ChoiceAt(row, i).error &&
                        forall j :: 0 <= j < i ==> ChoiceAt(row, j).Ok?
    ensures r.Ok? ==> forall i :: 0 <= i < 8 ==>
      (i in r.value.yes <==> ChoiceAt(row, i) == Ok(Yes)) &&
      (i in r.value.maybe <==> ChoiceAt(row, i) == Ok(Maybe)) &&
      (i in r.value.no <==> ChoiceAt(row, i) == Ok(No))
    ensures r.Ok? ==> Ascending(r.value.yes) && Ascending(r.value.maybe) && Ascending(r.value.no)
    ensures r.Ok? ==> forall x :: x in r.value.yes || x in r.value.maybe || x in r.value.no ==> 0 <= x < 8
    ensures r.Ok? ==> |r.value.yes| + |r.value.maybe| + |r.value.no| == 8
  {
    var yes, maybe, no := [], [], [];
    ghost var cs: seq<Choice> := [];
    for i := 0 to 8
      invariant |cs| == i && forall j :: 0 <= j < i ==> ChoiceAt(row, j) == Ok(cs[j])
      invariant WorkplaceLists(yes, maybe, no) == Split(cs)
    {
      var c := ChoiceAt(row, i);
      match c {
        case Err(e) =>
          return Err(e);
        case Ok(Yes) =>
          yes := yes + [i];
        case Ok(Maybe) =>
          maybe := maybe + [i];
        case Ok(No) =>
          no := no + [i];
      }
      SplitStep(cs, c.value);
      cs := cs + [c.value];
    }
    SplitMembers(cs);
    SplitShape(cs);
    r := Ok(WorkplaceLists(yes, maybe, no));
  }

  // ---------------------------------------------------------------------
  // parse_work_dates

  /** `str.lower` on the letters the input sheets use: ASCII and the
      Slovene letters with a caron or an acute. */
  function LowerChar(c: char): char
  {
    if c < 'A' then c
    else if c <= 'Z' then ((c as int) + 32) as char
    else if c < 'Ć' then c
    else if c == 'Č' then 'č'
    else if c == 'Š' then 'š'
    else if c == 'Ž' then 'ž'
    else if c == 'Ć' then 'ć'
    else if c == 'Đ' then 'đ'
    else c
  }

  function Lower(s: string): (r: string)
    ensures |r| == |s| && forall i :: 0 <= i < |s| ==> r[i] == LowerChar(s[i])
  {
    seq(|s|, i requires 0 <= i < |s| => LowerChar(s[i]))
  }

  lemma LowerIdempotent(s: string)
    ensures Lower(Lower(s)) == Lower(s)
  {
  }

  const DefaultEntry: string := "Mi je vseeno"

  /** The answer a lower-cased availability entry stands for. */
  function EntryMeaning(e: string): Result<Availability, ParseError>
  {
    if e == "da (želim delati)" then Ok(Availability(1, 1))
    else if e == "ld (letni dopust)" || e == "dežurstvo, matični dan" then Ok(Availability(-1, -1))
    else if e == "mi je vseeno" then Ok(Availability(0, 0))
    else if e == "samo podnevi (do 24.00)" then Ok(Availability(0, -1))
    else if e == "samo ponoči (po 19.00)" then Ok(Availability(-1, 0))
    else Err(UnrecognizedEntry(e))
  }

  /** One availability cell, after the NaN default and lower-casing. */
  function DecodeEntry(c: Cell): (r: Result<Availability, ParseError>)
  {
    match TransformNan(c, Text(DefaultEntry))
    case Text(s) => EntryMeaning(Lower(s))
    case _ => Err(NotText(c))
  }

  predicate InUnitRange(x: int) { -1 <= x <= 1 }

  /** Every decoded pair lies in {-1, 0, 1} x {-1, 0, 1}; an empty cell
      means "does not care"; matching ignores case. */
  lemma DecodeEntryProperties(c: Cell)
    ensures DecodeEntry(c).Ok? ==> InUnitRange(DecodeEntry(c).value.day) && InUnitRange(DecodeEntry(c).value.night)
    ensures DecodeEntry(NaN) == Ok(Availability(0, 0))
    ensures c.Number? ==> DecodeEntry(c) == Err(NotText(c))
    ensures c.Text? ==> DecodeEntry(c) == DecodeEntry(Text(Lower(c.s)))
  {
    if c.Text? {
      LowerIdempotent(c.s);
    }
    assert Lower(DefaultEntry) == "mi je vseeno";
  }

  /** The form's answers, as the form capitalises them, and what they
      decode to. */
  lemma DecodeYes()
    ensures DecodeEntry(Text("Da (želim delati)")) == Ok(Availability(1, 1))
  {
    var e := Lower("Da (želim delati)");
    assert e == "da (želim delati)";
    assert EntryMeaning("da (želim delati)") == Ok(Availability(1, 1));
  }

  lemma DecodeLeave()
    ensures DecodeEntry(Text("LD (letni dopust)")) == Ok(Availability(-1, -1))
  {
    var e := Lower("LD (letni dopust)");
    assert e == "ld (letni dopust)";
    assert EntryMeaning("ld (letni dopust)") == Ok(Availability(-1, -1));
  }

  lemma DecodeOnDuty()
    ensures DecodeEntry(Text("Dežurstvo, matični dan")) == Ok(Availability(-1, -1))
  {
    var e := Lower("Dežurstvo, matični dan");
    assert e == "dežurstvo, matični dan";
    assert EntryMeaning("dežurstvo, matični dan") == Ok(Availability(-1, -1));
  }

  lemma DecodeDontCare()
    ensures DecodeEntry(Text("Mi je vseeno")) == Ok(Availability(0, 0))
  {
    var e := Lower("Mi je vseeno");
    assert e == "mi je vseeno";
    assert EntryMeaning("mi je vseeno") == Ok(Availability(0, 0));
  }

  lemma DecodeDayOnly()
    ensures DecodeEntry(Text("Samo podnevi (do 24.00)")) == Ok(Availability(0, -1))
  {
    var e := Lower("Samo podnevi (do 24.00)");
    assert e == "samo podnevi (do 24.00)";
    assert EntryMeaning("samo podnevi (do 24.00)") == Ok(Availability(0, -1));
  }

  lemma DecodeNightOnly()
    ensures DecodeEntry(Text("Samo ponoči (po 19.00)")) == Ok(Availability(-1, 0))
  {
    LowerNightOnly();
    MeaningNightOnly();
  }

  lemma LowerNightOnly()
    ensures Lower("Samo ponoči (po 19.00)") == "samo ponoči (po 19.00)"
  {
    var e := Lower("Samo ponoči (po 19.00)");
    assert e == "samo ponoči (po 19.00)";
  }

  lemma MeaningNightOnly()
    ensures EntryMeaning("samo ponoči (po 19.00)") == Ok(Availability(-1, 0))
  {
  }

  const AvailabilityPrefix: string := "Razpolo"

  predicate IsAvailabilityColumn(name: string)
  {
    AvailabilityPrefix <= name
  }

  /** `next(i for i, s in enumerate(columns) if s.startswith("Razpolo"))`. */
  function FirstAvailabilityColumn(columns: seq<string>): (r: Option<nat>)
    ensures r.Some? ==> r.value < |columns| && IsAvailabilityColumn(columns[r.value])
    ensures r.Some? ==> forall j :: 0 <= j < r.value ==> !IsAvailabilityColumn(columns[j])
    ensures r.None? ==> forall j :: 0 <= j < |columns| ==> !IsAvailabilityColumn(columns[j])
  {
    if |columns| == 0 then None
    else if IsAvailabilityColumn(columns[0]) then Some(0)
    else match FirstAvailabilityColumn(columns[1..])
      case None => None
      case Some(i) => Some(i + 1)
  }

  /** `max(i for i, s in enumerate(columns) if s.startswith("Razpolo"))`. */
  function LastAvailabilityColumn(columns: seq<string>): (r: Option<nat>)
    ensures r.Some? ==> r.value < |columns| && IsAvailabilityColumn(columns[r.value])
    ensures r.Some? ==> forall j :: r.value < j < |columns| ==> !IsAvailabilityColumn(columns[j])
    ensures r.None? ==> forall j :: 0 <= j < |columns| ==> !IsAvailabilityColumn(columns[j])
  {
    if |columns| == 0 then None
    else if IsAvailabilityColumn(columns[|columns| - 1]) then Some(|columns| - 1)
    else LastAvailabilityColumn(columns[..|columns| - 1])
  }

  /** Python's `entries[lo:hi]` for 0 <= lo <= hi, which clips at the end. */
  function Slice<T>(s: seq<T>, lo: nat, hi: nat): (r: seq<T>)
    requires lo <= hi
    ensures hi <= |s| ==> r == s[lo..hi]
    ensures |r| <= hi - lo
  {
    if hi <= |s| then s[lo..hi] else if lo <= |s| then s[lo..] else []
  }

  /** The availability cells of a row, as `parse_work_dates` slices them. */
  function AvailabilityCells(entries: seq<Cell>, columns: seq<string>): Option<seq<Cell>>
  {
    match FirstAvailabilityColumn(columns)
    case None => None
    case Some(first) =>
      var last := LastAvailabilityColumn(columns).value;
      Some(Slice(entries, first, last + 1))
  }

  /** `parse_work_dates`: one decoded pair per availability column, in
      column order; the first unrecognised cell stops the parse. */
  method ParseWorkDates(entries: seq<Cell>, columns: seq<string>) returns (r: Result<seq<Availability>, ParseError>)
    ensures AvailabilityCells(entries, columns).None? ==> r == Err(NoAvailabilityColumns)
    ensures AvailabilityCells(entries, columns).Some? ==>
      var cells := AvailabilityCells(entries, columns).value;
      (r.Ok? <==> forall k :: 0 <= k < |cells| ==> DecodeEntry(cells[k]).Ok?) &&
      (r.Ok? ==> |r.value| == |cells| && forall k :: 0 <= k < |cells| ==> r.value[k] == DecodeEntry(cells[k]).value) &&
      (r.Err? ==> exists k :: 0 <= k < |cells| && DecodeEntry(cells[k]).Err? && r.error == DecodeEntry(cells[k]).error &&
                              forall j :: 0 <= j < k ==> DecodeEntry(cells[j]).Ok?)
  {
    var first := FirstAvailabilityColumn(columns);
    if first.None? {
      assert AvailabilityCells(entries, columns).None?;
      return Err(NoAvailabilityColumns);
    }
    var last := LastAvailabilityColumn(columns).value;
    var cells := Slice(entries, first.value, last + 1);
    assert AvailabilityCells(entries, columns) == Some(cells);
    r := DecodeEach(cells, DecodeEntry);
  }

  /** Decodes the cells in order and stops at the first one that fails. */
  method DecodeEach<A, B, E>(cells: seq<A>, decode: A -> Result<B, E>) returns (r: Result<seq<B>, E>)
    ensures r.Ok? <==> forall k :: 0 <= k < |cells| ==> decode(cells[k]).Ok?
    ensures r.Ok? ==> |r.value| == |cells| && forall k :: 0 <= k < |cells| ==> r.value[k] == decode(cells[k]).value
    ensures r.Err? ==> exists k :: 0 <= k < |cells| && decode(cells[k]).Err? && r.error == decode(cells[k]).error &&
                                 forall j :: 0 <= j < k ==> decode(cells[j]).Ok?
  {
    var result := [];
    for k := 0 to |cells|
      invariant |result| == k
      invariant forall j :: 0 <= j < k ==> decode(cells[j]).Ok? && result[j] == decode(cells[j]).value
    {
      var res := decode(cells[k]);
      if res.Err? {
        return Err(res.error);
      }
      result := result + [res.value];
    }
    r := Ok(result);
  }

  /** Every pair `parse_work_dates` returns lies in {-1, 0, 1} x {-1, 0, 1}. */
  lemma WorkDatesInRange(cells: seq<Cell>, result: seq<Availability>)
    requires |result| == |cells|
    requires forall k :: 0 <= k < |cells| ==> DecodeEntry(cells[k]) == Ok(result[k])
    ensures forall k :: 0 <= k < |result| ==> InUnitRange(result[k].day) && InUnitRange(result[k].night)
  {
    forall k | 0 <= k < |result|
      ensures InUnitRange(result[k].day) && InUnitRange(result[k].night)
    {
      DecodeEntryProperties(cells[k]);
    }
  }
}
