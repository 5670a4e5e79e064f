/** Calibration status and remaining days of a measurement point, as the
    server computes them from the stored `data_proxima_calibracao` and the
    wall clock, and the text-comparison buckets the alert and dashboard
    queries use. */
module Calibration {
  import opened Wrappers
  import opened Text
  import opened Calendar
  import opened Timedelta
  import opened Values

  const MicrosPerDay := 86400000000

  /** Days ahead that count as "near due" in the status classifier and the
      default alert window. */
  const AlertDays := 30

  /** `datetime.now()`: the local calendar day plus the microseconds elapsed
      since its midnight. */
  datatype Now = Now(today: Date, micros: int)

  predicate ValidNow(n: Now) {
    ValidDate(n.today) && 0 <= n.micros < MicrosPerDay
  }

  /** `target < now` for `target` at midnight: datetimes compare by date, then time of day. */
  predicate BeforeNow(target: Date, now: Now)
    requires ValidDate(target) && ValidNow(now)
  {
    Ordinal(target) < Ordinal(now.today) || (Ordinal(target) == Ordinal(now.today) && now.micros > 0)
  }

  /** `(target - now).days`: `timedelta` normalises to a floored day count. */
  function DaysUntil(target: Date, now: Now): (d: int)
    requires ValidDate(target) && ValidNow(now)
    ensures d == Ordinal(target) - Ordinal(now.today) - (if now.micros > 0 then 1 else 0)
    ensures d < 0 <==> BeforeNow(target, now)
  {
    var k := Ordinal(target) - Ordinal(now.today);
    var q := (k * MicrosPerDay - now.micros) / MicrosPerDay;
    if now.micros > 0 then
      DivModUnique(k * MicrosPerDay - now.micros, MicrosPerDay, k - 1, MicrosPerDay - now.micros);
      q
    else
      DivModUnique(k * MicrosPerDay, MicrosPerDay, k, 0);
      q
  }

  datatype CalStatus = SemData | Vencido | ProximoVencimento | Vigente | DataInvalida

  /** The stored next-calibration value as a date, if `strptime` accepts it:
      a value that is not text makes `strptime` raise `TypeError`. */
  function StoredDate(v: Value): (r: Option<Date>)
    ensures r.Some? ==> ValidDate(r.value) && v.Str? && ParseIso(v.s) == r
  {
    if v.Str? then ParseIso(v.s) else None
  }

  /** `calcular_status_calibracao`: never raises; every parse failure is
      caught and reported as `DataInvalida`. */
  function StatusCalibracao(v: Value, now: Now): (r: CalStatus)
    requires ValidNow(now)
    ensures r == SemData <==> !Truthy(v)
    ensures r == DataInvalida <==> Truthy(v) && StoredDate(v).None?
    ensures r == Vencido <==> Truthy(v) && StoredDate(v).Some? && BeforeNow(StoredDate(v).value, now)
  {
    if !Truthy(v) then SemData
    else
      match StoredDate(v)
      case None => DataInvalida
      case Some(t) =>
        if BeforeNow(t, now) then Vencido
        else if DaysUntil(t, now) <= AlertDays then ProximoVencimento
        else Vigente
  }

  /** `calcular_dias_restantes`: None for a falsy or unparsable value. */
  function DiasRestantes(v: Value, now: Now): (r: Option<int>)
    requires ValidNow(now)
    ensures r.None? <==> !Truthy(v) || StoredDate(v).None?
    ensures r.Some? ==> r.value == Ordinal(StoredDate(v).value) - Ordinal(now.today) - (if now.micros > 0 then 1 else 0)
  {
    if !Truthy(v) then None
    else
      match StoredDate(v)
      case None => None
      case Some(t) => Some(DaysUntil(t, now))
  }

  /** For the same clock reading the status and the day count agree:
      overdue iff negative, near due iff 0..30, current iff above 30. */
  lemma StatusMatchesDias(v: Value, now: Now)
    requires ValidNow(now)
    ensures StatusCalibracao(v, now) == Vencido <==> DiasRestantes(v, now).Some? && DiasRestantes(v, now).value < 0
    ensures StatusCalibracao(v, now) == ProximoVencimento <==>
              DiasRestantes(v, now).Some? && 0 <= DiasRestantes(v, now).value <= AlertDays
    ensures StatusCalibracao(v, now) == Vigente <==> DiasRestantes(v, now).Some? && DiasRestantes(v, now).value > AlertDays
    ensures StatusCalibracao(v, now) in {SemData, DataInvalida} <==> DiasRestantes(v, now).None?
  {
  }

  /** The boundaries in calendar days: at exactly midnight a date is overdue
      only when it is before today and near due 0..30 days ahead; at any later
      instant of the day the date equal to today is already overdue and the
      near-due range is 1..31 days ahead. */
  lemma StatusBoundaries(t: Date, now: Now)
    requires ValidDate(t) && ValidNow(now)
    ensures var k := Ordinal(t) - Ordinal(now.today);
            var st := StatusCalibracao(Str(FormatIso(t)), now);
            && (now.micros == 0 ==> (st == Vencido <==> k < 0) && (st == ProximoVencimento <==> 0 <= k <= 30))
            && (now.micros > 0 ==> (st == Vencido <==> k <= 0) && (st == ProximoVencimento <==> 1 <= k <= 31))
            && (st == Vigente <==> k > 30 + (if now.micros > 0 then 1 else 0))
  {
    ParseFormatIso(t);
  }

  /** A point due today is overdue once the day has started, with -1 days left. */
  lemma DueTodayIsOverdue(now: Now)
    requires ValidNow(now) && now.micros > 0
    ensures StatusCalibracao(Str(FormatIso(now.today)), now) == Vencido
    ensures DiasRestantes(Str(FormatIso(now.today)), now) == Some(-1)
  {
    ParseFormatIso(now.today);
  }

  // ---------------------------------------------------------------------------
  // Text buckets of the alert and dashboard queries

  /** `(datetime.now() + timedelta(days=dias)).strftime('%Y-%m-%d')` together
      with today's string; None when the addition overflows. */
  function AlertWindow(now: Now, dias: int): (r: Option<(string, string)>)
    requires ValidNow(now)
    ensures r.Some? <==> 1 <= Ordinal(now.today) + dias <= MaxOrdinal
    ensures r.Some? ==> r.value.0 == FormatIso(now.today)
                        && exists lim :: ValidDate(lim) && Ordinal(lim) == Ordinal(now.today) + dias && r.value.1 == FormatIso(lim)
  {
    match AddDays(now.today, dias)
    case None => None
    case Some(lim) => Some((FormatIso(now.today), FormatIso(lim)))
  }

  /** Overdue bucket: non-null and text-before today. */
  predicate OverdueBucket(v: Value, today: string) {
    SqlLt(v, today)
  }

  /** Near-due bucket: text between today and the limit, both included. */
  predicate NearDueBucket(v: Value, today: string, limit: string) {
    SqlGe(v, today) && SqlLe(v, limit)
  }

  /** The two buckets never share a value. */
  lemma BucketsDisjoint(v: Value, today: string, limit: string)
    ensures !(OverdueBucket(v, today) && NearDueBucket(v, today, limit))
  {
    SqlLtGeExclusive(v, today);
  }

  /** On a well-formed stored date the text buckets are day arithmetic:
      overdue iff before today, near due iff 0..dias days ahead, regardless of
      the time of day. */
  lemma BucketsOnIsoDates(t: Date, today: Date, lim: Date)
    requires ValidDate(t) && ValidDate(today) && ValidDate(lim)
    ensures OverdueBucket(Str(FormatIso(t)), FormatIso(today)) <==> Ordinal(t) < Ordinal(today)
    ensures NearDueBucket(Str(FormatIso(t)), FormatIso(today), FormatIso(lim)) <==>
              Ordinal(today) <= Ordinal(t) <= Ordinal(lim)
  {
    IsoOrder(t, today);
    OrdinalOrder(t, today);
    IsoOrderLe(today, t);
    IsoOrderLe(t, lim);
  }

  /** The dashboard bucket and the status disagree on a point due today once
      midnight has passed: it is listed as near due but classified overdue. */
  lemma BucketVersusStatusToday(now: Now, lim: Date)
    requires ValidNow(now) && now.micros > 0 && ValidDate(lim) && Ordinal(now.today) <= Ordinal(lim)
    ensures NearDueBucket(Str(FormatIso(now.today)), FormatIso(now.today), FormatIso(lim))
    ensures StatusCalibracao(Str(FormatIso(now.today)), now) == Vencido
  {
    BucketsOnIsoDates(now.today, now.today, lim);
    DueTodayIsOverdue(now);
  }
}
