/** The dashboard endpoints (`/api/dashboard`): the overall summary, the
    grouped equipment statistics, the monthly calibration schedule, the
    critical points, the latest activities and the performance indicators.
    Every date test here is a text comparison of the stored value. */
module Dashboard {
  import opened Wrappers
  import opened Seqs
  import opened Text
  import opened Calendar
  import opened Values
  import opened Calibration
  import opened Store
  import opened Query
  import opened Points

  // ---------------------------------------------------------------------------
  // Summary

  datatype Resumo = Resumo(
    equipamentos: nat, pontos: nat, certificados: nat,
    vencidos: nat, proximos: nat, totalAlertas: nat)

  /** `resumo_geral`: table sizes and the two 30-day buckets; None is the
      500 of a date overflow. */
  function ResumoGeral(db: Db, now: Now): (r: Option<Resumo>)
    requires ValidNow(now)
    ensures r.None? <==> AlertWindow(now, AlertDays).None?
    ensures r.Some? ==>
              var (today, limit) := AlertWindow(now, AlertDays).value;
              && r.value.equipamentos == |db.equipamentos| && r.value.pontos == |db.pontos|
              && r.value.certificados == |db.certificados|
              && r.value.vencidos == |OverdueRows(db, today)|
              && r.value.proximos == |NearDueRows(db, today, limit)|
              && r.value.totalAlertas == r.value.vencidos + r.value.proximos
  {
    match AlertWindow(now, AlertDays)
    case None => None
    case Some((today, limit)) =>
      var v := |OverdueRows(db, today)|;
      var p := |NearDueRows(db, today, limit)|;
      Some(Resumo(|db.equipamentos|, |db.pontos|, |db.certificados|, v, p, v + p))
  }

  /** The summary counts are the lengths of the default alert lists, and the
      alerts never exceed the points. */
  lemma ResumoMatchesAlertas(db: Db, now: Now)
    requires ValidNow(now) && AlertWindow(now, AlertDays).Some?
    ensures var r := ResumoGeral(db, now).value;
            var a := Alertas(db, now, AlertDays).value;
            && r.vencidos == a.totalVencidos && r.proximos == a.totalProximos
            && r.totalAlertas <= r.pontos
  {
    AlertasDisjoint(db, now, AlertDays);
  }

  // ---------------------------------------------------------------------------
  // Grouped statistics

  /** `ORDER BY count DESC`. */
  function ByCountDesc(): (Group, Group) -> bool {
    (a: Group, b: Group) => a.count >= b.count
  }

  /** The groups ordered by count, largest first (ties in table order). */
  function SortGroups(gs: seq<Group>): (r: seq<Group>)
    ensures multiset(r) == multiset(gs)
    ensures forall g :: g in r <==> g in gs
    ensures Sorted(r, ByCountDesc())
  {
    SortBySorted(gs, ByCountDesc());
    var r := SortBy(gs, ByCountDesc());
    SameMembers(r, gs);
    r
  }

  datatype Estatisticas = Estatisticas(porFabricante: seq<Group>, porTipo: seq<Group>, porPolo: seq<Group>)

  /** A grouped count as the dashboard reports it: non-empty groups only,
      one per referenced row of `keys`, largest first. */
  predicate GroupedDesc(r: seq<Group>, keys: Table, rows: Table, fk: string) {
    && Sorted(r, ByCountDesc())
    && multiset(r) == multiset(GroupBy(keys, rows, fk))
    && (forall g :: g in r ==> g.count > 0)
    && (forall i :: 0 <= i < |keys| && RefCount(rows, fk, keys[i]) > 0 ==>
          Group(Col(keys[i], Nome), RefCount(rows, fk, keys[i])) in r)
  }

  /** `estatisticas_equipamentos` of the dashboard: equipment per
      manufacturer and per type, points per polo. */
  function EstatisticasEquipamentos(db: Db): (r: Estatisticas)
    ensures GroupedDesc(r.porFabricante, Lookup(db, Fabricantes), db.equipamentos, FabricanteId)
    ensures GroupedDesc(r.porTipo, Lookup(db, TiposEquipamento), db.equipamentos, TipoId)
    ensures GroupedDesc(r.porPolo, Lookup(db, Polos), db.pontos, PoloId)
  {
    Estatisticas(
      SortGroups(GroupBy(Lookup(db, Fabricantes), db.equipamentos, FabricanteId)),
      SortGroups(GroupBy(Lookup(db, TiposEquipamento), db.equipamentos, TipoId)),
      SortGroups(GroupBy(Lookup(db, Polos), db.pontos, PoloId)))
  }

  // ---------------------------------------------------------------------------
  // Monthly schedule

  const MonthNames: seq<string> := ["Jan", "Fev", "Mar", "Abr", "Mai", "Jun", "Jul", "Ago", "Set", "Out", "Nov", "Dez"]

  /** `f"{ano}-{i:02d}-01"`: the year is not padded. */
  function MonthStart(ano: int, m: nat): string {
    IntToString(ano) + ("-" + (Pad(m, 2) + "-01"))
  }

  /** The exclusive upper bound of month `m`: the next month's start, and
      `f"{ano + 1}-01-01"` for December. */
  function MonthEnd(ano: int, m: nat): string {
    if m == 12 then IntToString(ano + 1) + "-01-01" else MonthStart(ano, m + 1)
  }

  /** The stored value lies in the half-open text interval `[lo, hi)`. */
  function InRange(lo: string, hi: string): Row -> bool {
    (row: Row) => SqlGe(Col(row, ProximaCal), lo) && SqlLt(Col(row, ProximaCal), hi)
  }

  datatype MonthEntry = MonthEntry(mes: string, numeroMes: int, calibracoes: nat)

  datatype Cronograma = Cronograma(ano: int, meses: seq<MonthEntry>, totalAno: int)

  function SumEntries(es: seq<MonthEntry>): int
    decreases |es|
  {
    if |es| == 0 then 0 else es[0].calibracoes + SumEntries(es[1..])
  }

  /** `cronograma_calibracoes` for year `ano`. */
  function CronogramaCalibracoes(db: Db, ano: int): (r: Cronograma)
    ensures r.ano == ano && |r.meses| == 12
    ensures forall i :: 0 <= i < 12 ==>
              && r.meses[i].numeroMes == i + 1 && r.meses[i].mes == MonthNames[i]
              && r.meses[i].calibracoes == Count(db.pontos, InRange(MonthStart(ano, i + 1), MonthEnd(ano, i + 1)))
    ensures r.totalAno == SumEntries(r.meses)
  {
    var meses := seq(12, i requires 0 <= i < 12 =>
                       MonthEntry(MonthNames[i], i + 1, Count(db.pontos, InRange(MonthStart(ano, i + 1), MonthEnd(ano, i + 1)))));
    Cronograma(ano, meses, SumEntries(meses))
  }

  /** For a four-digit year the month bounds are ISO dates. */
  lemma MonthStartIso(ano: int, m: nat)
    requires 1000 <= ano <= 9999 && 1 <= m <= 12
    ensures MonthStart(ano, m) == FormatIso(Date(ano, m, 1))
  {
    YearIsPad(ano);
    assert Pad(1, 2) == "01" by {
      Pad2(1);
    }
  }

  lemma YearEndIso(ano: int)
    requires 1000 <= ano <= 9998
    ensures MonthEnd(ano, 12) == FormatIso(Date(ano + 1, 1, 1))
  {
    MonthStartIso(ano + 1, 1);
  }

  /** A well-formed stored date is counted in month `m` of `ano` exactly when
      it falls in that calendar month. */
  lemma MonthIsCalendarMonth(ano: int, m: nat, t: Date, row: Row)
    requires 1000 <= ano <= 9998 && 1 <= m <= 12 && ValidDate(t)
    requires Col(row, ProximaCal) == Str(FormatIso(t))
    ensures InRange(MonthStart(ano, m), MonthEnd(ano, m))(row) <==> t.year == ano && t.month == m
  {
    MonthStartIso(ano, m);
    MonthEndIso(ano, m);
    DateInRange(Date(ano, m, 1), NextMonth(ano, m), t, row);
  }

  /** The first day of the month after month `m` of `ano`. */
  function NextMonth(ano: int, m: nat): Date {
    if m == 12 then Date(ano + 1, 1, 1) else Date(ano, m + 1, 1)
  }

  lemma MonthEndIso(ano: int, m: nat)
    requires 1000 <= ano <= 9998 && 1 <= m <= 12
    ensures ValidDate(NextMonth(ano, m)) && MonthEnd(ano, m) == FormatIso(NextMonth(ano, m))
  {
    if m == 12 {
      YearEndIso(ano);
    } else {
      MonthEndIsNextStart(ano, m);
      MonthStartIso(ano, m + 1);
    }
  }

  lemma MonthEndIsNextStart(ano: int, m: nat)
    requires 1 <= m < 12
    ensures MonthEnd(ano, m) == MonthStart(ano, m + 1)
  {
  }

  /** A stored ISO date lies in a text interval of ISO bounds exactly when
      the date lies in the date interval. */
  lemma DateInRange(lo: Date, hi: Date, t: Date, row: Row)
    requires ValidDate(lo) && ValidDate(hi) && ValidDate(t)
    requires Col(row, ProximaCal) == Str(FormatIso(t))
    ensures InRange(FormatIso(lo), FormatIso(hi))(row) <==> !Before(t, lo) && Before(t, hi)
  {
    IsoOrder(lo, t);
    IsoOrder(t, lo);
    IsoOrder(t, hi);
  }

  /** Splitting a text interval at an inner bound splits its count. */
  lemma CountSplit(rows: Table, lo: string, mid: string, hi: string)
    requires LexLe(lo, mid) && LexLe(mid, hi)
    ensures Count(rows, InRange(lo, hi)) == Count(rows, InRange(lo, mid)) + Count(rows, InRange(mid, hi))
  {
    forall row: Row
      ensures InRange(lo, hi)(row) <==> InRange(lo, mid)(row) || InRange(mid, hi)(row)
      ensures !(InRange(lo, mid)(row) && InRange(mid, hi)(row))
    {
      var v := Col(row, ProximaCal);
      if v.Str? {
        LexTrichotomy(v.s, mid);
        if LexLess(v.s, mid) && mid != hi {
          LexLessTransitive(v.s, mid, hi);
        }
        if LexLe(mid, v.s) {
          LexLeTransitive(lo, mid, v.s);
        }
      }
    }
    CountDisjoint(rows, InRange(lo, mid), InRange(mid, hi), InRange(lo, hi));
  }

  /** The month starts of a four-digit year increase. */
  lemma MonthStartsIncrease(ano: int, k: nat)
    requires 1000 <= ano <= 9998 && 1 <= k < 12
    ensures LexLe(MonthStart(ano, k), MonthStart(ano, k + 1))
  {
    var a, b := Date(ano, k, 1), Date(ano, k + 1, 1);
    assert ValidDate(a) && ValidDate(b) && Before(a, b);
    MonthStartIso(ano, k);
    MonthStartIso(ano, k + 1);
    IsoOrder(a, b);
  }

  /** Every month start of a four-digit year precedes the next year's start. */
  lemma MonthStartBeforeYearEnd(ano: int, k: nat)
    requires 1000 <= ano <= 9998 && 1 <= k <= 12
    ensures LexLe(MonthStart(ano, k), MonthEnd(ano, 12))
  {
    var a, b := Date(ano, k, 1), Date(ano + 1, 1, 1);
    assert ValidDate(a) && ValidDate(b) && Before(a, b);
    MonthStartIso(ano, k);
    YearEndIso(ano);
    IsoOrder(a, b);
  }

  /** Adjacent half-open intervals add up: when entry `i` counts the values
      in `[b[i], b[i + 1])` and the bounds increase, the entries from `j` on
      count the values in `[b[j], b[|es|])`. */
  lemma {:induction false} Telescope(rows: Table, es: seq<MonthEntry>, b: seq<string>, j: nat)
    requires |b| == |es| + 1 && j < |es|
    requires forall i :: 0 <= i < |es| ==> es[i].calibracoes == Count(rows, InRange(b[i], b[i + 1]))
    requires forall i :: 0 <= i < |es| ==> LexLe(b[i], b[i + 1])
    ensures LexLe(b[j], b[|es|])
    ensures SumEntries(es[j..]) == Count(rows, InRange(b[j], b[|es|]))
    decreases |es| - j
  {
    SumEntriesSplit(es, j);
    if j + 1 == |es| {
      assert es[j + 1..] == [];
    } else {
      Telescope(rows, es, b, j + 1);
      LexLeTransitive(b[j], b[j + 1], b[|es|]);
      CountSplit(rows, b[j], b[j + 1], b[|es|]);
    }
  }

  /** The thirteen bounds of the schedule: the twelve month starts and the
      next year's start. */
  function MonthBound(ano: int, i: nat): string {
    if i < 12 then MonthStart(ano, i + 1) else MonthEnd(ano, 12)
  }

  /** Entry `i` of the schedule counts the values between bounds `i` and
      `i + 1`, and those bounds increase. */
  lemma MonthInterval(db: Db, ano: int, i: nat)
    requires 1000 <= ano <= 9998 && i < 12
    ensures CronogramaCalibracoes(db, ano).meses[i].calibracoes
            == Count(db.pontos, InRange(MonthBound(ano, i), MonthBound(ano, i + 1)))
    ensures LexLe(MonthBound(ano, i), MonthBound(ano, i + 1))
  {
    MonthCount(db, ano, i + 1);
    if i < 11 {
      MonthEndIsNextStart(ano, i + 1);
      MonthStartsIncrease(ano, i + 1);
    } else {
      MonthStartBeforeYearEnd(ano, 12);
    }
  }

  /** The total of a suffix is its first entry plus the total of the rest. */
  lemma SumEntriesSplit(es: seq<MonthEntry>, i: nat)
    requires i < |es|
    ensures SumEntries(es[i..]) == es[i].calibracoes + SumEntries(es[i + 1..])
  {
    assert es[i..][1..] == es[i + 1..];
  }

  /** Month `k` of the schedule counts the values of its own interval. */
  lemma MonthCount(db: Db, ano: int, k: nat)
    requires 1 <= k <= 12
    ensures CronogramaCalibracoes(db, ano).meses[k - 1].calibracoes
            == Count(db.pontos, InRange(MonthStart(ano, k), MonthEnd(ano, k)))
  {
  }

  /** For a four-digit year below 9999 the twelve intervals tile the year:
      `total_ano` counts exactly the values in `[ano-01-01, (ano+1)-01-01)`. */
  lemma CronogramaTotal(db: Db, ano: int)
    requires 1000 <= ano <= 9998
    ensures CronogramaCalibracoes(db, ano).totalAno
            == Count(db.pontos, InRange(FormatIso(Date(ano, 1, 1)), FormatIso(Date(ano + 1, 1, 1))))
  {
    var es := CronogramaCalibracoes(db, ano).meses;
    var b := seq(13, i requires 0 <= i < 13 => MonthBound(ano, i));
    forall i | 0 <= i < 12
      ensures es[i].calibracoes == Count(db.pontos, InRange(b[i], b[i + 1]))
      ensures LexLe(b[i], b[i + 1])
    {
      MonthInterval(db, ano, i);
    }
    Telescope(db.pontos, es, b, 0);
    assert es[0..] == es;
    assert b[0] == MonthStart(ano, 1) && b[12] == MonthEnd(ano, 12);
    MonthStartIso(ano, 1);
    YearEndIso(ano);
  }

  // ---------------------------------------------------------------------------
  // Critical points

  datatype Criticos = Criticos(
    vencidos: seq<Alert>, proximos: seq<Alert>,
    totalVencidos: nat, totalProximos: nat, totalCriticos: nat)

  /** Alerts in ascending text order of the stored date. */
  predicate AlertsAscending(a: seq<Alert>) {
    forall i, j :: 0 <= i < j < |a| ==> SqlKeyLe(Col(a[i].row, ProximaCal), Col(a[j].row, ProximaCal))
  }

  /** A bucket's rows ordered by date, each with its remaining days. */
  function SortedAlerts(rows: Table, now: Now): (r: seq<Alert>)
    requires ValidNow(now)
    ensures |r| == |rows|
    ensures forall k :: 0 <= k < |r| ==> r[k].row in rows && r[k].dias == DiasRestantes(Col(r[k].row, ProximaCal), now)
    ensures forall row :: row in rows ==> exists k :: 0 <= k < |r| && r[k].row == row
    ensures AlertsAscending(r)
  {
    var sorted := OrderBy(rows, ProximaCal, false);
    var r := ToAlerts(sorted, now);
    forall row | row in rows
      ensures exists k :: 0 <= k < |r| && r[k].row == row
    {
      var k :| 0 <= k < |sorted| && sorted[k] == row;
      assert r[k].row == row;
    }
    r
  }

  /** The two buckets for a given today and limit, each ordered by date. */
  function Criticals(db: Db, now: Now, today: string, limit: string): (c: Criticos)
    requires ValidNow(now)
    ensures forall k :: 0 <= k < |c.vencidos| ==>
              c.vencidos[k].row in db.pontos && OverdueBucket(Col(c.vencidos[k].row, ProximaCal), today)
    ensures forall k :: 0 <= k < |c.proximos| ==>
              c.proximos[k].row in db.pontos && NearDueBucket(Col(c.proximos[k].row, ProximaCal), today, limit)
    ensures AlertsAscending(c.vencidos) && AlertsAscending(c.proximos)
    ensures c.totalVencidos == |c.vencidos| == |OverdueRows(db, today)|
    ensures c.totalProximos == |c.proximos| == |NearDueRows(db, today, limit)|
    ensures c.totalCriticos == c.totalVencidos + c.totalProximos
    ensures forall a :: a in c.vencidos + c.proximos ==> a.dias == DiasRestantes(Col(a.row, ProximaCal), now)
  {
    var v := SortedAlerts(OverdueRows(db, today), now);
    var p := SortedAlerts(NearDueRows(db, today, limit), now);
    Criticos(v, p, |v|, |p|, |v| + |p|)
  }

  /** `pontos_criticos` with `dias` (default 30): None is the 500 of a date
      overflow. */
  function PontosCriticos(db: Db, now: Now, dias: int): (r: Option<Criticos>)
    requires ValidNow(now)
    ensures r.None? <==> AlertWindow(now, dias).None?
    ensures r.Some? ==>
              var (today, limit) := AlertWindow(now, dias).value;
              && (forall k :: 0 <= k < |r.value.vencidos| ==>
                    r.value.vencidos[k].row in db.pontos && OverdueBucket(Col(r.value.vencidos[k].row, ProximaCal), today))
              && (forall k :: 0 <= k < |r.value.proximos| ==>
                    r.value.proximos[k].row in db.pontos
                    && NearDueBucket(Col(r.value.proximos[k].row, ProximaCal), today, limit))
              && AlertsAscending(r.value.vencidos) && AlertsAscending(r.value.proximos)
              && r.value.totalVencidos == |r.value.vencidos| == |OverdueRows(db, today)|
              && r.value.totalProximos == |r.value.proximos| == |NearDueRows(db, today, limit)|
              && r.value.totalCriticos == r.value.totalVencidos + r.value.totalProximos
    ensures r.Some? ==>
              forall a :: a in r.value.vencidos + r.value.proximos ==> a.dias == DiasRestantes(Col(a.row, ProximaCal), now)
  {
    match AlertWindow(now, dias)
    case None => None
    case Some((today, limit)) => Some(Criticals(db, now, today, limit))
  }

  /** A point due today falls in the near-due bucket and not the overdue one. */
  lemma TodayInNearDue(db: Db, now: Now, dias: int, i: nat)
    requires ValidNow(now) && now.micros > 0 && dias >= 0 && AlertWindow(now, dias).Some?
    requires i < |db.pontos| && Col(db.pontos[i], ProximaCal) == Str(FormatIso(now.today))
    ensures var (today, limit) := AlertWindow(now, dias).value;
            db.pontos[i] in NearDueRows(db, today, limit) && !OverdueBucket(Col(db.pontos[i], ProximaCal), today)
  {
    var (today, limit) := AlertWindow(now, dias).value;
    var lim :| ValidDate(lim) && Ordinal(lim) == Ordinal(now.today) + dias && limit == FormatIso(lim);
    BucketVersusStatusToday(now, lim);
    BucketsDisjoint(Col(db.pontos[i], ProximaCal), today, limit);
  }

  /** Once midnight has passed, a point due today is listed among the near-due
      points with -1 days left, and not among the overdue ones, although its
      status is overdue. */
  lemma CriticalDueToday(db: Db, now: Now, dias: int, i: nat)
    requires ValidNow(now) && now.micros > 0 && dias >= 0 && AlertWindow(now, dias).Some?
    requires i < |db.pontos| && Col(db.pontos[i], ProximaCal) == Str(FormatIso(now.today))
    ensures var c := PontosCriticos(db, now, dias).value;
            && (exists k :: 0 <= k < |c.proximos| && c.proximos[k] == Alert(db.pontos[i], Some(-1)))
            && (forall k :: 0 <= k < |c.vencidos| ==> c.vencidos[k].row != db.pontos[i])
            && StatusCalibracao(Col(db.pontos[i], ProximaCal), now) == Vencido
  {
    var w := AlertWindow(now, dias).value;
    TodayInNearDue(db, now, dias, i);
    DueTodayIsOverdue(now);
    var c := PontosCriticos(db, now, dias).value;
    assert c.proximos == SortedAlerts(NearDueRows(db, w.0, w.1), now);
    var k :| 0 <= k < |c.proximos| && c.proximos[k].row == db.pontos[i];
    assert c.proximos[k] == Alert(db.pontos[i], Some(-1));
  }

  // ---------------------------------------------------------------------------
  // Latest activities

  /** SQL `LIMIT n`: a negative limit means no limit in SQLite. */
  function SqlLimit<T>(s: seq<T>, n: int): (r: seq<T>)
    ensures n < 0 ==> r == s
    ensures n >= 0 ==> r == Take(s, n)
  {
    if n < 0 then s else Take(s, n)
  }

  /** Python `s[:n]`: a negative `n` drops that many elements from the end. */
  function PySliceTo<T>(s: seq<T>, n: int): (r: seq<T>)
    ensures r <= s
    ensures |r| == if n >= 0 then Min(n, |s|) else if |s| + n > 0 then |s| + n else 0
  {
    if n >= 0 then Take(s, n) else if |s| + n > 0 then s[..|s| + n] else []
  }

  datatype Atividades = Atividades(atividades: Table, total: nat)

  /** A prefix of a sorted sequence is sorted and draws on its elements. */
  lemma SortedPrefix<T>(s: seq<T>, p: seq<T>, le: (T, T) -> bool)
    requires p <= s && Sorted(s, le)
    ensures Sorted(p, le)
    ensures forall x :: x in p ==> x in s
  {
    assert forall k :: 0 <= k < |p| ==> p[k] == s[k];
  }

  /** The query half: certificates newest first, cut at the SQL limit. Every
      certificate left out is dated no later than every one returned. */
  function FetchRecent(db: Db, limite: int): (r: Table)
    ensures forall row :: row in r ==> row in db.certificados
    ensures multiset(r) <= multiset(db.certificados)
    ensures |r| == if limite < 0 then |db.certificados| else Min(limite, |db.certificados|)
    ensures Sorted(r, DescBy(DataCert))
    ensures forall x, y :: x in r && y in multiset(db.certificados) - multiset(r) ==> DescBy(DataCert)(x, y)
  {
    var o := OrderBy(db.certificados, DataCert, true);
    var r := SqlLimit(o, limite);
    assert r == o[..|r|];
    SortedPrefixDominates(o, |r|, DescBy(DataCert));
    SortedPrefix(o, r, DescBy(DataCert));
    r
  }

  /** In a sorted sequence every element of a prefix is ordered before every
      element after it. */
  lemma SortedPrefixDominates<T>(o: seq<T>, m: nat, le: (T, T) -> bool)
    requires Sorted(o, le) && m <= |o|
    ensures multiset(o[..m]) <= multiset(o)
    ensures forall x, y :: x in o[..m] && y in multiset(o) - multiset(o[..m]) ==> le(x, y)
  {
    assert o == o[..m] + o[m..];
    assert multiset(o) - multiset(o[..m]) == multiset(o[m..]);
    forall x, y | x in o[..m] && y in multiset(o) - multiset(o[..m])
      ensures le(x, y)
    {
      var i :| 0 <= i < m && o[..m][i] == x;
      var j :| 0 <= j < |o| - m && o[m..][j] == y;
      assert o[i] == x && o[m + j] == y;
    }
  }

  /** `ultimas_atividades` with `limite` (default 10): certificates only,
      newest first; the equipment query it also runs has no effect. */
  function UltimasAtividades(db: Db, limite: int): (r: Atividades)
    ensures forall row :: row in r.atividades ==> row in db.certificados
    ensures Sorted(r.atividades, DescBy(DataCert))
    ensures limite >= 0 ==> r.total == Min(limite, |db.certificados|) && |r.atividades| == r.total
    ensures limite < 0 ==> r.total == |db.certificados|
                           && |r.atividades| == (if r.total + limite > 0 then r.total + limite else 0)
  {
    var fetched := FetchRecent(db, limite);
    var sorted := OrderBy(fetched, DataCert, true);
    var out := PySliceTo(sorted, limite);
    assert |sorted| == |fetched| by {
      assert |multiset(sorted)| == |multiset(fetched)|;
    }
    SortedPrefix(sorted, out, DescBy(DataCert));
    Atividades(out, |sorted|)
  }

  // ---------------------------------------------------------------------------
  // Performance indicators

  datatype Indicadores = Indicadores(totalPontos: nat, pontosEmDia: nat, percentual: real, porStatus: seq<(string, nat)>)

  function HasDate(): Row -> bool {
    (row: Row) => Col(row, ProximaCal) != Null
  }

  function OnTime(today: string): Row -> bool {
    (row: Row) => SqlGe(Col(row, ProximaCal), today)
  }

  function Overdue(today: string): Row -> bool {
    (row: Row) => OverdueBucket(Col(row, ProximaCal), today)
  }

  /** `indicadores_performance`: points with a date, those on or after
      today, the share of the latter (0 without points), and the certificate
      count reported under a single "Sem Status" group. */
  function IndicadoresPerformance(db: Db, now: Now): (r: Indicadores)
    requires ValidNow(now)
    ensures r.totalPontos == Count(db.pontos, HasDate())
    ensures r.pontosEmDia == Count(db.pontos, OnTime(FormatIso(now.today)))
    ensures r.pontosEmDia <= r.totalPontos
    ensures r.totalPontos == 0 ==> r.percentual == 0.0
    ensures 0.0 <= r.percentual <= 100.0
    ensures r.totalPontos > 0 && r.pontosEmDia == r.totalPontos ==> r.percentual == 100.0
    ensures r.porStatus == if |db.certificados| == 0 then [] else [("Sem Status", |db.certificados|)]
  {
    IndicatorsAt(db.pontos, |db.certificados|, FormatIso(now.today))
  }

  function IndicatorsAt(pontos: Table, certificados: nat, today: string): (r: Indicadores)
    ensures r.totalPontos == Count(pontos, HasDate())
    ensures r.pontosEmDia == Count(pontos, OnTime(today))
    ensures r.pontosEmDia <= r.totalPontos
    ensures r.totalPontos == 0 ==> r.percentual == 0.0
    ensures 0.0 <= r.percentual <= 100.0
    ensures r.totalPontos > 0 && r.pontosEmDia == r.totalPontos ==> r.percentual == 100.0
    ensures r.porStatus == if certificados == 0 then [] else [("Sem Status", certificados)]
  {
    var total := Count(pontos, HasDate());
    var emDia := Count(pontos, OnTime(today));
    OnTimeHasDate(today);
    CountMonotone(pontos, OnTime(today), HasDate());
    Indicadores(total, emDia, Share(emDia, total), if certificados == 0 then [] else [("Sem Status", certificados)])
  }

  /** A point on time has a date. */
  lemma OnTimeHasDate(today: string)
    ensures forall row :: OnTime(today)(row) ==> HasDate()(row)
  {
  }

  /** The share in percent, 0 for an empty whole. */
  function Share(part: nat, whole: nat): (p: real)
    requires part <= whole
    ensures whole == 0 ==> p == 0.0
    ensures 0.0 <= p <= 100.0
    ensures 0 < whole && part == whole ==> p == 100.0
  {
    if whole > 0 then Percent(part, whole) else 0.0
  }

  /** `part / whole * 100` before rounding. */
  function Percent(part: nat, whole: nat): (p: real)
    requires 0 < whole && part <= whole
    ensures 0.0 <= p <= 100.0
    ensures part == whole ==> p == 100.0
  {
    var q := part as real / whole as real;
    assert q <= 1.0 by {
      assert q * whole as real == part as real;
    }
    q * 100.0
  }

  /** Every point with a date is either on time or overdue, never both. */
  lemma IndicadoresPartition(db: Db, now: Now)
    requires ValidNow(now)
    ensures var today := FormatIso(now.today);
            IndicadoresPerformance(db, now).pontosEmDia + Count(db.pontos, Overdue(today))
            == IndicadoresPerformance(db, now).totalPontos
  {
    var today := FormatIso(now.today);
    forall row: Row
      ensures HasDate()(row) <==> OnTime(today)(row) || Overdue(today)(row)
      ensures !(OnTime(today)(row) && Overdue(today)(row))
    {
      SqlLtGeExclusive(Col(row, ProximaCal), today);
    }
    CountDisjoint(db.pontos, OnTime(today), Overdue(today), HasDate());
  }
}
