/** The pure parts of the client's dashboard page: the status label and the
    text of a point's remaining days, the table of critical points, the
    colour cycle of the charts and the manufacturer chart's top eight. */
module ClientDashboard {
  import opened Wrappers
  import opened Seqs
  import opened Text
  import opened JsValues
  import opened Query
  import opened ClientUtils

  // ---------------------------------------------------------------------------
  // Status and remaining days of one point

  /** `getCalibrationStatus(diasRestantes)`; `None` is `null` or `undefined`. */
  function GetCalibrationStatus(dias: Option<int>): (r: ClientStatus)
    ensures r == SemData <==> dias.None?
    ensures r != DataInvalida
    ensures dias.Some? ==>
      && (r == Vencido <==> dias.value < 0)
      && (r == ProximoVencimento <==> 0 <= dias.value <= NearDays)
      && (r == Vigente <==> dias.value > NearDays)
  {
    match dias
    case None => SemData
    case Some(d) => if d < 0 then Vencido else if d <= NearDays then ProximoVencimento else Vigente
  }

  /** The dashboard's classifier of a day count and the one of a date agree:
      a date `target` seen on day `today` gets the label of `target - today`
      days, and a missing date or count gets "Sem Data" from both. */
  lemma CalibrationStatusAgrees(input: JsValue, target: int, today: int)
    ensures Truthy(input) ==>
      GetCalibrationStatus(Some(target - today)) == GetStatusCalibacao(input, Some(target), today)
    ensures !Truthy(input) ==> GetCalibrationStatus(None) == GetStatusCalibacao(input, Some(target), today)
  {
  }

  const DiasAtras := " dias atrás"
  const DiasSuffix := " dias"

  /** `formatDaysRemaining(dias)`. */
  function FormatDaysRemaining(dias: Option<int>): (s: string)
    ensures dias.None? <==> s == "-"
    ensures dias == Some(0) <==> s == "Hoje"
    ensures dias == Some(1) <==> s == "1 dia"
  {
    match dias
    case None => "-"
    case Some(d) =>
      if d < 0 then NatToString(-d) + DiasAtras
      else if d == 0 then "Hoje"
      else if d == 1 then "1 dia"
      else NatToString(d) + DiasSuffix
  }

  /** Reads a remaining-days text back: `None` for a text the formatter
      never produces. */
  function ParseDaysRemaining(s: string): (r: Option<Option<int>>)
    ensures r == Some(None) <==> s == "-"
  {
    if s == "-" then Some(None)
    else if s == "Hoje" then Some(Some(0))
    else if s == "1 dia" then Some(Some(1))
    else if |s| > |DiasAtras| && s[|s| - |DiasAtras|..] == DiasAtras && AllDigits(s[..|s| - |DiasAtras|]) then
      Some(Some(-(ParseNat(s[..|s| - |DiasAtras|]) as int)))
    else if |s| > |DiasSuffix| && s[|s| - |DiasSuffix|..] == DiasSuffix && AllDigits(s[..|s| - |DiasSuffix|]) then
      Some(Some(ParseNat(s[..|s| - |DiasSuffix|])))
    else None
  }

  lemma FormatPast(d: int)
    requires d < 0
    ensures ParseDaysRemaining(FormatDaysRemaining(Some(d))) == Some(Some(d))
  {
    var s := FormatDaysRemaining(Some(d));
    var digits := NatToString(-d);
    assert s[|s| - |DiasAtras|..] == DiasAtras;
    assert s[..|s| - |DiasAtras|] == digits;
    ParseNatToString(-d);
    assert s != "-" && s != "Hoje" && s != "1 dia" by {
      assert s[|s| - 1] == 's' && s[|s| - 2] == 'á';
    }
  }

  lemma FormatFuture(d: int)
    requires d > 1
    ensures ParseDaysRemaining(FormatDaysRemaining(Some(d))) == Some(Some(d))
  {
    var s := FormatDaysRemaining(Some(d));
    var digits := NatToString(d);
    assert s[|s| - |DiasSuffix|..] == DiasSuffix;
    assert s[..|s| - |DiasSuffix|] == digits;
    ParseNatToString(d);
    assert s[|s| - 2] == 'a';
    assert !(|s| > |DiasAtras| && s[|s| - |DiasAtras|..] == DiasAtras);
    assert s != "-" && s != "Hoje" && s != "1 dia" by {
      assert |s| >= 6;
    }
  }

  /** The remaining-days text determines the day count: reading it back
      gives the count that was formatted, so no two counts share a text. */
  lemma FormatDaysRoundTrip(dias: Option<int>)
    ensures ParseDaysRemaining(FormatDaysRemaining(dias)) == Some(dias)
  {
    if dias.Some? && dias.value < 0 {
      FormatPast(dias.value);
    } else if dias.Some? && dias.value > 1 {
      FormatFuture(dias.value);
    }
  }

  // ---------------------------------------------------------------------------
  // Critical points

  /** A row of the critical-points response; only the remaining days take
      part in the table's ordering. */
  datatype CriticalPoint = CriticalPoint(tag: string, nome: string, dias: Option<int>)

  /** `ponto.dias_restantes || 0`. */
  function DiasKey(p: CriticalPoint): int {
    p.dias.GetOr(0)
  }

  /** The comparator `(a, b) => key(a) - key(b)` as an order. */
  function DiasLe(): (CriticalPoint, CriticalPoint) -> bool {
    (a: CriticalPoint, b: CriticalPoint) => DiasKey(a) <= DiasKey(b)
  }

  lemma DiasLePreorder()
    ensures TotalPreorder(DiasLe())
  {
  }

  /** Rows the dashboard shows at most. */
  const CriticalRowsShown := 10

  /** The rows of `renderCriticalPoints`: overdue then near-due points,
      stably sorted by remaining days (missing counts as 0), the first ten. */
  function CriticalRows(vencidos: seq<CriticalPoint>, proximos: seq<CriticalPoint>): (r: seq<CriticalPoint>)
    ensures |r| == if |vencidos| + |proximos| < CriticalRowsShown then |vencidos| + |proximos| else CriticalRowsShown
    ensures r <= SortBy(vencidos + proximos, DiasLe())
  {
    Take(SortBy(vencidos + proximos, DiasLe()), CriticalRowsShown)
  }

  predicate AscendingDays(s: seq<CriticalPoint>) {
    forall i, j :: 0 <= i < j < |s| ==> DiasKey(s[i]) <= DiasKey(s[j])
  }

  /** In a list ascending by remaining days, the first `n` elements are
      ascending too, and every element past them has at least as many days
      as each of them. */
  lemma SortedPrefixSmallest(s: seq<CriticalPoint>, n: nat)
    requires n <= |s| && AscendingDays(s)
    ensures AscendingDays(s[..n])
    ensures multiset(s[..n]) <= multiset(s)
    ensures forall x, i :: x in multiset(s) - multiset(s[..n]) && 0 <= i < n ==> DiasKey(s[i]) <= DiasKey(x)
  {
    assert s == s[..n] + s[n..];
    assert multiset(s) == multiset(s[..n]) + multiset(s[n..]);
    forall x, i | x in multiset(s) - multiset(s[..n]) && 0 <= i < n
      ensures DiasKey(s[i]) <= DiasKey(x)
    {
      assert x in multiset(s[n..]);
      var k :| 0 <= k < |s[n..]| && s[n..][k] == x;
      assert s[n + k] == x;
    }
  }

  /** Sorting with the table's comparator orders by remaining days. */
  lemma SortedByDias(all: seq<CriticalPoint>)
    ensures AscendingDays(SortBy(all, DiasLe()))
  {
    var s := SortBy(all, DiasLe());
    DiasLePreorder();
    SortBySorted(all, DiasLe());
    forall i, j | 0 <= i < j < |s|
      ensures DiasKey(s[i]) <= DiasKey(s[j])
    {
      assert DiasLe()(s[i], s[j]);
    }
  }

  /** The first `n` of the sorted points are the `n` most critical. */
  lemma SortedTakeMostCritical(all: seq<CriticalPoint>, n: int)
    ensures var r := Take(SortBy(all, DiasLe()), n);
      && AscendingDays(r)
      && multiset(r) <= multiset(all)
      && (forall x, i :: x in multiset(all) - multiset(r) && 0 <= i < |r| ==> DiasKey(r[i]) <= DiasKey(x))
  {
    var s := SortBy(all, DiasLe());
    SortedByDias(all);
    var r := Take(s, n);
    assert r == s[..|r|];
    SortedPrefixSmallest(s, |r|);
    assert multiset(s) == multiset(all);
  }

  /** The table holds the most critical points: its rows are in ascending
      order of remaining days, each is one of the given points, and every
      point left out has at least as many remaining days as every row shown. */
  lemma CriticalRowsMostCritical(vencidos: seq<CriticalPoint>, proximos: seq<CriticalPoint>)
    ensures var r := CriticalRows(vencidos, proximos);
      && AscendingDays(r)
      && multiset(r) <= multiset(vencidos + proximos)
      && (forall x, i :: x in multiset(vencidos + proximos) - multiset(r) && 0 <= i < |r| ==> DiasKey(r[i]) <= DiasKey(x))
  {
    SortedTakeMostCritical(vencidos + proximos, CriticalRowsShown);
  }

  // ---------------------------------------------------------------------------
  // Charts

  /** The eight base colours of `generateColors`. */
  const BaseColors: seq<string> := ["#2563eb", "#dc2626", "#059669", "#d97706", "#7c3aed", "#db2777", "#0891b2", "#65a30d"]

  lemma BaseColorsDistinct()
    ensures |BaseColors| == 8 && Distinct(BaseColors)
  {
  }

  /** `generateColors(count)`: the base colours, cycled. */
  method GenerateColors(count: int) returns (colors: seq<string>)
    ensures |colors| == if count < 0 then 0 else count
    ensures forall i :: 0 <= i < |colors| ==> colors[i] == BaseColors[i % |BaseColors|]
  {
    colors := [];
    var i := 0;
    while i < count
      invariant 0 <= i && |colors| == i
      invariant count >= 0 ==> i <= count
      invariant count < 0 ==> i == 0
      invariant forall k :: 0 <= k < i ==> colors[k] == BaseColors[k % |BaseColors|]
    {
      colors := colors + [BaseColors[i % |BaseColors|]];
      i := i + 1;
    }
  }

  /** Up to eight slices get eight different colours; beyond that the
      colours repeat every eight slices. */
  lemma ColorsDistinctUpToEight(colors: seq<string>)
    requires forall i :: 0 <= i < |colors| ==> colors[i] == BaseColors[i % |BaseColors|]
    ensures |colors| <= |BaseColors| ==> Distinct(colors)
    ensures forall i :: 0 <= i < |colors| - |BaseColors| ==> colors[i] == colors[i + |BaseColors|]
  {
    BaseColorsDistinct();
    assert forall i :: 0 <= i < |colors| - 8 ==> (i + 8) % 8 == i % 8;
  }

  /** A manufacturer group of the statistics response. */
  datatype GroupStat = GroupStat(nome: string, count: int)

  /** The data of the manufacturer chart. */
  datatype ChartData = ChartData(labels: seq<string>, counts: seq<int>, colors: seq<string>)

  /** Groups the manufacturer chart shows at most. */
  const ChartGroups := 8

  /** The data `renderFabricantesChart` hands to the chart: the first eight
      groups, labels and counts in parallel, one distinct colour per slice. */
  method FabricantesChart(groups: seq<GroupStat>) returns (c: ChartData)
    ensures |c.labels| == |c.counts| == |c.colors| == if |groups| < ChartGroups then |groups| else ChartGroups
    ensures forall i :: 0 <= i < |c.labels| ==> c.labels[i] == groups[i].nome && c.counts[i] == groups[i].count
    ensures Distinct(c.colors)
  {
    var top := Take(groups, ChartGroups);
    var labels := seq(|top|, i requires 0 <= i < |top| => top[i].nome);
    var counts := seq(|top|, i requires 0 <= i < |top| => top[i].count);
    var colors := GenerateColors(|top|);
    ColorsDistinctUpToEight(colors);
    c := ChartData(labels, counts, colors);
  }
}
