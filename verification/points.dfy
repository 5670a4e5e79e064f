/** Measurement points (`/api/pontos-medicao`): create with a unique tag,
    partial update, delete guarded by dependent analyses and schedule
    events, the filtered paginated listing and the calibration alerts. */
module Points {
  import opened Wrappers
  import opened Seqs
  import opened Text
  import opened Calendar
  import opened Values
  import opened Calibration
  import opened Store
  import opened Query

  /** The columns a create reads from the payload and an update may change. */
  const PointCols: set<string> := {
    PoloId, NomePonto, TagPonto, ClassificacaoId, SerialRef,
    "certificado_calibracao_vigente", "data_ultima_calibracao", ProximaCal,
    "frequencia_calibracao_anp", "data_retirada", "data_recebimento_uso",
    "controle_vencimento", "solicitacao_calibracao"
  }

  /** The row a create inserts: every payload column (`data.get`, absent ones
      NULL) as its column stores it, and the next rowid. */
  function NewPoint(p: Payload, id: int): (r: Row)
    ensures Col(r, Id) == Int(id)
    ensures forall c :: c in PointCols ==> Col(r, c) == Written(p, c)
    ensures forall c :: c !in PointCols && c != Id ==> Col(r, c) == Null
  {
    (map c | c in PointCols :: Written(p, c))[Id := Int(id)]
  }

  /** `criar_ponto_medicao`. */
  function Create(db: Db, p: Payload): (r: Reply)
    ensures TagPonto !in p ==> r == NoWrite(db, 500)
    ensures TagPonto in p && Has(db.pontos, TagPonto, Written(p, TagPonto)) ==> r == NoWrite(db, 400)
    ensures r.status == 201 ==>
              && r.db == db.(pontos := db.pontos + [NewPoint(p, NextId(db.pontos))])
              && r.id == Some(NextId(db.pontos))
    ensures r.status != 201 ==> r.db == db
  {
    if TagPonto !in p then NoWrite(db, 500)
    else if Has(db.pontos, TagPonto, Written(p, TagPonto)) then NoWrite(db, 400)
    else if NomePonto !in p then NoWrite(db, 500)
    else
      var id := NextId(db.pontos);
      Commit(db, db.(pontos := db.pontos + [NewPoint(p, id)]), 201, Some(id))
  }

  /** On a valid database a create succeeds exactly when the tag and name
      are given, non-null, and the tag is not yet used. */
  lemma CreateSucceeds(db: Db, p: Payload)
    requires Valid(db)
    ensures Create(db, p).status == 201 <==>
              && TagPonto in p && NomePonto in p
              && p[TagPonto] != Null && p[NomePonto] != Null
              && !Has(db.pontos, TagPonto, Written(p, TagPonto))
  {
    if TagPonto in p && NomePonto in p && !Has(db.pontos, TagPonto, Written(p, TagPonto)) {
      var id := NextId(db.pontos);
      var row := NewPoint(p, id);
      assert TagPonto in PointCols && NomePonto in PointCols;
      assert !Has(db.pontos, Id, Int(id));
      AppendPointValid(db.pontos, row);
      ValidWithPontos(db, db.pontos + [row]);
    }
  }

  /** Appending a row with a fresh integer id keeps the point constraints
      exactly when its tag and name are set and its tag is unused. */
  lemma AppendPointValid(t: Table, row: Row)
    requires PontosValid(t) && Col(row, Id).Int? && !Has(t, Id, Col(row, Id))
    ensures PontosValid(t + [row]) <==>
              Col(row, TagPonto) != Null && Col(row, NomePonto) != Null && !Has(t, TagPonto, Col(row, TagPonto))
  {
    var r := t + [row];
    assert r[|t|] == row;
    assert forall j :: 0 <= j < |t| ==> r[j] == t[j];
    AppendKeepsUnique(t, row, Id);
    if Col(row, TagPonto) != Null && Col(row, NomePonto) != Null && !Has(t, TagPonto, Col(row, TagPonto)) {
      AppendKeepsUnique(t, row, TagPonto);
    } else if Col(row, TagPonto) != Null && Has(t, TagPonto, Col(row, TagPonto)) {
      var j :| 0 <= j < |t| && Matches(t[j], TagPonto, Col(row, TagPonto));
      assert r[j] == t[j];
    }
  }

  /** A next-calibration date sent as the number `0` is stored as the text
      `'0'`, which is truthy and no date: the point's status is
      `data_invalida`, not `sem data`. */
  lemma NumericDateStoredAsText(p: Payload, id: int, now: Now)
    requires ValidNow(now) && GetOrNull(p, ProximaCal) == Int(0)
    ensures Col(NewPoint(p, id), ProximaCal) == Str("0")
    ensures StatusCalibracao(Col(NewPoint(p, id), ProximaCal), now) == DataInvalida
  {
    assert ProximaCal in PointCols && ProximaCal !in IntegerColumns && ProximaCal !in RealColumns;
    assert IntToString(0) == "0";
    assert ParseIso("0").None?;
  }

  /** A classification sent as numeric text is stored as the integer, so the
      classification filter finds the point. */
  lemma TextIdFiltered(p: Payload, id: int, n: int)
    requires InInt64(n) && GetOrNull(p, ClassificacaoId) == Str(IntToString(n))
    ensures IdFilter(NewPoint(p, id), ClassificacaoId, Some(n))
  {
    IntegerTextStoredAsInt(n);
    assert ClassificacaoId in PointCols && ClassificacaoId in IntegerColumns;
  }

  /** `atualizar_ponto_medicao`: an unknown id raises inside the broad
      `except` and answers 500. */
  function Update(db: Db, id: int, p: Payload): (r: Reply)
    ensures Find(db.pontos, Id, Int(id)).None? ==> r == NoWrite(db, 500)
    ensures Find(db.pontos, Id, Int(id)).Some? && KeyClash(db.pontos, db.pontos[Find(db.pontos, Id, Int(id)).value], p, TagPonto)
            ==> r == NoWrite(db, 400)
    ensures r.status == 200 ==>
              var i := Find(db.pontos, Id, Int(id)).value;
              r.db == db.(pontos := db.pontos[i := Merge(db.pontos[i], p, PointCols)])
    ensures r.status != 200 ==> r.db == db
  {
    match Find(db.pontos, Id, Int(id))
    case None => NoWrite(db, 500)
    case Some(i) =>
      if KeyClash(db.pontos, db.pontos[i], p, TagPonto) then NoWrite(db, 400)
      else Commit(db, db.(pontos := db.pontos[i := Merge(db.pontos[i], p, PointCols)]), 200, None)
  }

  /** On a valid database an update of an existing point succeeds exactly
      when the tag check passes and the merged row keeps a name and a tag
      that is its own or unused. A falsy tag held by another row skips the
      check and fails at commit; a tag set to null fails at commit. */
  lemma UpdateSucceeds(db: Db, id: int, p: Payload)
    requires Valid(db) && Has(db.pontos, Id, Int(id))
    ensures var i := Find(db.pontos, Id, Int(id)).value;
            var cur := db.pontos[i];
            var m := Merge(cur, p, PointCols);
            var tag := Col(m, TagPonto);
            Update(db, id, p).status == 200 <==>
              && !KeyClash(db.pontos, cur, p, TagPonto)
              && Col(m, NomePonto) != Null && tag != Null
              && (tag == Col(cur, TagPonto) || !Has(db.pontos, TagPonto, tag))
  {
    var i := Find(db.pontos, Id, Int(id)).value;
    var m := Merge(db.pontos[i], p, PointCols);
    assert Id !in PointCols;
    ValidWithPontos(db, db.pontos[i := m]);
    ReplacePointValid(db.pontos, i, m);
  }

  /** Replacing the points table of a valid database leaves it valid
      exactly when the new table satisfies the point constraints. */
  lemma ValidWithPontos(db: Db, t: Table)
    requires Valid(db)
    ensures Valid(db.(pontos := t)) <==> PontosValid(t)
  {
    assert forall k :: Lookup(db.(pontos := t), k) == Lookup(db, k);
  }

  /** Replacing row `i` by a row with the same id keeps the point
      constraints exactly when the name is set and the tag is set and the
      row's own or unused. */
  lemma ReplacePointValid(t: Table, i: nat, m: Row)
    requires PontosValid(t) && i < |t| && Col(m, Id) == Col(t[i], Id)
    ensures var tag := Col(m, TagPonto);
            PontosValid(t[i := m]) <==>
              && Col(m, NomePonto) != Null && tag != Null
              && (tag == Col(t[i], TagPonto) || !Has(t, TagPonto, tag))
  {
    var r := t[i := m];
    var tag := Col(m, TagPonto);
    ReplaceKeepsUnique(t, i, m, Id);
    assert forall j :: 0 <= j < |r| ==> Col(r[j], Id).Int? by {
      forall j | 0 <= j < |r| ensures Col(r[j], Id).Int? {
        if j != i { assert r[j] == t[j]; }
      }
    }
    if tag == Null {
      assert Col(r[i], TagPonto) == Null;
    } else if tag == Col(t[i], TagPonto) || !Has(t, TagPonto, tag) {
      ReplaceKeepsUnique(t, i, m, TagPonto);
      if Col(m, NomePonto) == Null {
        assert Col(r[i], NomePonto) == Null;
      }
    } else {
      ReplaceBreaksUnique(t, i, m, TagPonto);
    }
  }

  /** The merge keeps the key and changes nothing outside the listed
      columns; a key present with null clears the column, a present value is
      stored as the column converts it, an absent key keeps the column. */
  lemma MergeSemantics(cur: Row, p: Payload, c: string)
    requires c in PointCols
    ensures Col(Merge(cur, p, PointCols), Id) == Col(cur, Id)
    ensures c in p ==> Col(Merge(cur, p, PointCols), c) == StoredAs(c, p[c])
    ensures c in p && p[c] == Null ==> Col(Merge(cur, p, PointCols), c) == Null
    ensures c !in p ==> Col(Merge(cur, p, PointCols), c) == Col(cur, c)
  {
    assert Id !in PointCols;
  }

  /** Updating with an empty payload changes nothing and succeeds. */
  lemma UpdateEmptyPayload(db: Db, id: int)
    requires Valid(db) && Has(db.pontos, Id, Int(id))
    ensures Update(db, id, map[]).status == 200
    ensures Update(db, id, map[]).db.pontos == db.pontos
  {
    var i := Find(db.pontos, Id, Int(id)).value;
    var m := Merge(db.pontos[i], map[], PointCols);
    assert m == db.pontos[i];
    var t := db.pontos[i := m];
    assert t == db.pontos;
    assert Valid(db.(pontos := t)) by {
      assert forall k :: Lookup(db.(pontos := t), k) == Lookup(db, k);
    }
  }

  /** The dependents a delete checks, related through the point's tag. */
  predicate HasDependents(db: Db, row: Row) {
    var tag := Col(row, TagPonto);
    Has(db.analises, TagPonto, tag) || Has(db.eventosTeste, TagPonto, tag) || Has(db.eventosAnalise, TagPonto, tag)
  }

  /** `deletar_ponto_medicao`. */
  function Delete(db: Db, id: int): (r: Reply)
    ensures Find(db.pontos, Id, Int(id)).None? ==> r == NoWrite(db, 500)
    ensures Find(db.pontos, Id, Int(id)).Some? && HasDependents(db, db.pontos[Find(db.pontos, Id, Int(id)).value])
            ==> r == NoWrite(db, 400)
    ensures r.status == 200 ==>
              r.db == db.(pontos := RemoveAt(db.pontos, Find(db.pontos, Id, Int(id)).value))
    ensures r.status != 200 ==> r.db == db
  {
    match Find(db.pontos, Id, Int(id))
    case None => NoWrite(db, 500)
    case Some(i) =>
      if HasDependents(db, db.pontos[i]) then NoWrite(db, 400)
      else Commit(db, db.(pontos := RemoveAt(db.pontos, i)), 200, None)
  }

  /** On a valid database an existing point without dependents is deleted,
      and afterwards no row carries its id. */
  lemma DeleteRemovesExactlyOne(db: Db, id: int)
    requires Valid(db) && Has(db.pontos, Id, Int(id))
    requires !HasDependents(db, db.pontos[Find(db.pontos, Id, Int(id)).value])
    ensures Delete(db, id).status == 200
    ensures !Has(Delete(db, id).db.pontos, Id, Int(id))
    ensures |Delete(db, id).db.pontos| == |db.pontos| - 1
  {
    var i := Find(db.pontos, Id, Int(id)).value;
    var t := RemoveAt(db.pontos, i);
    RemoveKeepsUnique(db.pontos, i, Id);
    RemoveKeepsUnique(db.pontos, i, TagPonto);
    assert Valid(db.(pontos := t)) by {
      assert forall k :: Lookup(db.(pontos := t), k) == Lookup(db, k);
    }
    forall j | 0 <= j < |t|
      ensures !Matches(t[j], Id, Int(id))
    {
      var j' := if j < i then j else j + 1;
      assert t[j] == db.pontos[j'];
      assert j' != i;
    }
  }

  // ---------------------------------------------------------------------------
  // Listing

  /** Query-string arguments of the listing; `type=int` arguments that are
      missing or malformed are None, `type=bool` is true for any non-empty text. */
  datatype ListArgs = ListArgs(
    page: int, perPage: int, search: string,
    poloId: Option<int>, classificacaoId: Option<int>, vencimentoProximo: bool)

  predicate SearchHit(row: Row, search: string) {
    SqlContains(Col(row, NomePonto), search) || SqlContains(Col(row, TagPonto), search)
    || SqlContains(Col(row, SerialRef), search)
  }

  /** The listing's WHERE clause; `limit` is today + 30 days as text. */
  predicate ListFilter(row: Row, a: ListArgs, limit: string) {
    && (a.search == "" || SearchHit(row, a.search))
    && IdFilter(row, PoloId, a.poloId)
    && IdFilter(row, ClassificacaoId, a.classificacaoId)
    && (!a.vencimentoProximo || SqlLe(Col(row, ProximaCal), limit))
  }

  /** One listed point with its computed status. */
  datatype Listed = Listed(row: Row, status: CalStatus)

  /** The rows the listing's WHERE clause keeps, in table order. */
  function ListHits(db: Db, a: ListArgs, limit: string): (r: Table)
    ensures forall row :: row in r <==> row in db.pontos && ListFilter(row, a, limit)
  {
    Filter(db.pontos, (row: Row) => ListFilter(row, a, limit))
  }

  /** Each row with the status `calcular_status_calibracao` gives it. */
  function WithStatus(rows: Table, now: Now): (r: seq<Listed>)
    requires ValidNow(now)
    ensures |r| == |rows|
    ensures forall k :: 0 <= k < |r| ==> r[k] == Listed(rows[k], StatusCalibracao(Col(rows[k], ProximaCal), now))
  {
    seq(|rows|, k requires 0 <= k < |rows| => Listed(rows[k], StatusCalibracao(Col(rows[k], ProximaCal), now)))
  }

  /** `listar_pontos_medicao`: None is the 500 of a date overflow. */
  function List(db: Db, a: ListArgs, now: Now): (r: Option<Page<Listed>>)
    requires ValidNow(now)
    ensures r.None? <==> a.vencimentoProximo && AlertWindow(now, AlertDays).None?
    ensures r.Some? ==>
              var limit := if a.vencimentoProximo then AlertWindow(now, AlertDays).value.1 else "";
              var pg := Paginate(ListHits(db, a, limit), a.page, a.perPage);
              && r.value.total == |ListHits(db, a, limit)|
              && r.value.pages == pg.pages
              && r.value.items == WithStatus(pg.items, now)
  {
    var w := if a.vencimentoProximo then AlertWindow(now, AlertDays) else Some(("", ""));
    if w.None? then None
    else
      var pg := Paginate(ListHits(db, a, w.value.1), a.page, a.perPage);
      Some(Page(WithStatus(pg.items, now), pg.total, pg.pages))
  }

  /** The `vencimento_proximo` filter keeps every point whose well-formed
      date is at most 30 days ahead, overdue ones included. */
  lemma NearDueFilterIncludesOverdue(row: Row, a: ListArgs, now: Now, t: Date)
    requires ValidNow(now) && a.vencimentoProximo && AlertWindow(now, AlertDays).Some?
    requires ValidDate(t) && Col(row, ProximaCal) == Str(FormatIso(t))
    ensures SqlLe(Col(row, ProximaCal), AlertWindow(now, AlertDays).value.1) <==>
              Ordinal(t) <= Ordinal(now.today) + AlertDays
  {
    var lim :| ValidDate(lim) && Ordinal(lim) == Ordinal(now.today) + AlertDays
               && AlertWindow(now, AlertDays).value.1 == FormatIso(lim);
    IsoOrderLe(t, lim);
  }

  // ---------------------------------------------------------------------------
  // Alerts

  /** One alert entry: the point and its remaining days. */
  datatype Alert = Alert(row: Row, dias: Option<int>)

  datatype Alerts = Alerts(vencidos: seq<Alert>, proximos: seq<Alert>, totalVencidos: nat, totalProximos: nat)

  function ToAlerts(rows: Table, now: Now): (r: seq<Alert>)
    requires ValidNow(now)
    ensures |r| == |rows|
    ensures forall k :: 0 <= k < |r| ==> r[k] == Alert(rows[k], DiasRestantes(Col(rows[k], ProximaCal), now))
  {
    seq(|rows|, k requires 0 <= k < |rows| => Alert(rows[k], DiasRestantes(Col(rows[k], ProximaCal), now)))
  }

  function OverdueRows(db: Db, today: string): (r: Table)
    ensures forall row :: row in r <==> row in db.pontos && OverdueBucket(Col(row, ProximaCal), today)
  {
    Filter(db.pontos, (row: Row) => OverdueBucket(Col(row, ProximaCal), today))
  }

  function NearDueRows(db: Db, today: string, limit: string): (r: Table)
    ensures forall row :: row in r <==> row in db.pontos && NearDueBucket(Col(row, ProximaCal), today, limit)
  {
    Filter(db.pontos, (row: Row) => NearDueBucket(Col(row, ProximaCal), today, limit))
  }

  /** `alertas_calibracao` with `dias` (default 30): None is the 500 of a
      date overflow. */
  function Alertas(db: Db, now: Now, dias: int): (r: Option<Alerts>)
    requires ValidNow(now)
    ensures r.None? <==> AlertWindow(now, dias).None?
    ensures r.Some? ==>
              var (today, limit) := AlertWindow(now, dias).value;
              && r.value.vencidos == ToAlerts(OverdueRows(db, today), now)
              && r.value.proximos == ToAlerts(NearDueRows(db, today, limit), now)
              && r.value.totalVencidos == |r.value.vencidos|
              && r.value.totalProximos == |r.value.proximos|
  {
    match AlertWindow(now, dias)
    case None => None
    case Some((today, limit)) =>
      var v := ToAlerts(OverdueRows(db, today), now);
      var p := ToAlerts(NearDueRows(db, today, limit), now);
      Some(Alerts(v, p, |v|, |p|))
  }

  /** No point is listed in both alert lists, and together they hold at
      most every point. */
  lemma AlertasDisjoint(db: Db, now: Now, dias: int)
    requires ValidNow(now) && Alertas(db, now, dias).Some?
    ensures var a := Alertas(db, now, dias).value;
            && (forall i, j :: 0 <= i < |a.vencidos| && 0 <= j < |a.proximos| ==> a.vencidos[i].row != a.proximos[j].row)
            && a.totalVencidos + a.totalProximos <= |db.pontos|
  {
    var (today, limit) := AlertWindow(now, dias).value;
    var po := (row: Row) => OverdueBucket(Col(row, ProximaCal), today);
    var pn := (row: Row) => NearDueBucket(Col(row, ProximaCal), today, limit);
    var pu := (row: Row) => po(row) || pn(row);
    forall row: Row
      ensures !(po(row) && pn(row))
    {
      BucketsDisjoint(Col(row, ProximaCal), today, limit);
    }
    CountDisjoint(db.pontos, po, pn, pu);
    CountMonotone(db.pontos, pu, (row: Row) => true);
    assert Count(db.pontos, (row: Row) => true) <= |db.pontos|;
  }
}
