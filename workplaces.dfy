/** The workplace catalogue: eight connected posts (five day posts, three
    night posts) followed by three unconnected 24-hour posts. A workplace
    is identified everywhere by its index into `AllWorkplaces`. */
module Workplaces {
  import opened Wrappers

  const StandardWorkplaces: seq<string> :=
    ["KRG 1", "KRG 2", "KRG 3", "KRG 4", "KRG 5", "KRG N - B", "KRG N - MOP", "KRG N - ABD"]

  const UnconnectedWorkplaces: seq<string> := ["ABDOMEN", "ABD prip.", "TRAVMA"]

  const AllWorkplaces: seq<string> := StandardWorkplaces + UnconnectedWorkplaces

  /** The slice `ALL_WORKPLACES[5:8]`. */
  const NightWorkplaces: seq<string> := AllWorkplaces[5..8]

  const NumWorkplaces: nat := 11

  /** `range_day_workplaces` = range(0, 5) */
  predicate IsDayPost(p: int) { 0 <= p < 5 }

  /** `range_night_workplaces` = range(5, 8) */
  predicate IsNightPost(p: int) { 5 <= p < 8 }

  /** `range_connected_workplaces` = range(0, 8) */
  predicate IsConnectedPost(p: int) { 0 <= p < 8 }

  /** `range_unconnected_workplaces` = range(8, 11) */
  predicate IsUnconnectedPost(p: int) { 8 <= p < 11 }

  /** Python's `list.index`: the first position holding `x`, or `None`
      where Python raises ValueError. */
  function IndexOf<T(==)>(s: seq<T>, x: T): (r: Option<nat>)
    ensures r.Some? ==> r.value < |s| && s[r.value] == x
    ensures r.Some? ==> forall j :: 0 <= j < r.value ==> s[j] != x
    ensures r.None? <==> x !in s
  {
    if |s| == 0 then None
    else if s[0] == x then Some(0)
    else match IndexOf(s[1..], x)
      case None => None
      case Some(i) => Some(i + 1)
  }

  /** `get_ndx`: the index of a workplace name; `None` for an unknown name. */
  function GetNdx(name: string): (r: Option<nat>)
    ensures r.Some? ==> r.value < NumWorkplaces && AllWorkplaces[r.value] == name
    ensures r.None? <==> name !in AllWorkplaces
  {
    IndexOf(AllWorkplaces, name)
  }

  // The named indices of the module.
  const BDayNdx: nat := 0       // "KRG 1"
  const AbdDayNdx: nat := 1     // "KRG 2"
  const MopDayNdx: nat := 2     // "KRG 3"
  const BNightNdx: nat := 5     // "KRG N - B"
  const MopNightNdx: nat := 6   // "KRG N - MOP"
  const AbdNightNdx: nat := 7   // "KRG N - ABD"
  const AbdomenNdx: nat := 8    // "ABDOMEN"
  const AbdPripNdx: nat := 9    // "ABD prip."
  const TravmaNdx: nat := 10    // "TRAVMA"

  /** No two workplaces share a name. */
  predicate Distinct<T(==)>(s: seq<T>) {
    forall i, j :: 0 <= i < j < |s| ==> s[i] != s[j]
  }

  lemma CatalogueShape()
    ensures |StandardWorkplaces| == 8 && |UnconnectedWorkplaces| == 3
    ensures |AllWorkplaces| == NumWorkplaces
    ensures AllWorkplaces[..8] == StandardWorkplaces && AllWorkplaces[8..] == UnconnectedWorkplaces
    ensures Distinct(AllWorkplaces)
  {
  }

  /** NIGHT_WORKPLACES holds exactly the names at the night indices. */
  lemma NightNames()
    ensures |NightWorkplaces| == 3
    ensures forall p :: 0 <= p < NumWorkplaces ==> (IsNightPost(p) <==> AllWorkplaces[p] in NightWorkplaces)
  {
    CatalogueShape();
  }

  /** The day, night and unconnected ranges partition 0..10, and the
      connected range is day plus night. */
  lemma RangesPartition(p: int)
    ensures 0 <= p < NumWorkplaces <==> (IsDayPost(p) || IsNightPost(p) || IsUnconnectedPost(p))
    ensures !(IsDayPost(p) && IsNightPost(p)) && !(IsDayPost(p) && IsUnconnectedPost(p))
    ensures !(IsNightPost(p) && IsUnconnectedPost(p))
    ensures IsConnectedPost(p) <==> (IsDayPost(p) || IsNightPost(p))
  {
  }

  /** A position holding `x` that no earlier position holds is what `IndexOf` finds. */
  lemma {:induction false} IndexOfFirst<T>(s: seq<T>, i: nat, x: T)
    requires i < |s| && s[i] == x
    requires forall j :: 0 <= j < i ==> s[j] != x
    ensures IndexOf(s, x) == Some(i)
  {
    if i > 0 {
      assert s[1..][i - 1] == x;
      IndexOfFirst(s[1..], i - 1, x);
    }
  }

  /** Because the names are distinct, `get_ndx` inverts indexing. */
  lemma GetNdxInverse(p: nat)
    requires p < NumWorkplaces
    ensures GetNdx(AllWorkplaces[p]) == Some(p)
  {
    CatalogueShape();
    IndexOfFirst(AllWorkplaces, p, AllWorkplaces[p]);
  }

  /** The named constants are what `get_ndx` returns for their names, and
      lie in the ranges their names suggest. */
  lemma NamedIndices()
    ensures GetNdx("KRG 1") == Some(BDayNdx) && GetNdx("KRG 2") == Some(AbdDayNdx)
    ensures GetNdx("KRG 3") == Some(MopDayNdx)
    ensures GetNdx("KRG N - B") == Some(BNightNdx) && GetNdx("KRG N - MOP") == Some(MopNightNdx)
    ensures GetNdx("KRG N - ABD") == Some(AbdNightNdx)
    ensures GetNdx("ABDOMEN") == Some(AbdomenNdx) && GetNdx("ABD prip.") == Some(AbdPripNdx)
    ensures GetNdx("TRAVMA") == Some(TravmaNdx)
    ensures IsDayPost(BDayNdx) && IsDayPost(AbdDayNdx) && IsDayPost(MopDayNdx)
    ensures IsNightPost(BNightNdx) && IsNightPost(MopNightNdx) && IsNightPost(AbdNightNdx)
    ensures IsUnconnectedPost(AbdomenNdx) && IsUnconnectedPost(AbdPripNdx) && IsUnconnectedPost(TravmaNdx)
  {
    GetNdxInverse(0); GetNdxInverse(1); GetNdxInverse(2);
    GetNdxInverse(5); GetNdxInverse(6); GetNdxInverse(7);
    GetNdxInverse(8); GetNdxInverse(9); GetNdxInverse(10);
  }
}
