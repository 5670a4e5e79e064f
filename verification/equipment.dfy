/** Equipment (`/api/equipamentos`), keyed by its serial number: create with
    a unique serial and an optional unique tag, partial update that never
    touches the serial, delete guarded by measurement points and
    certificates, the filtered paginated listing and the per-manufacturer
    and per-type counts. */
module Equipment {
  import opened Wrappers
  import opened Seqs
  import opened Text
  import opened Values
  import opened Store
  import opened Query

  /** The columns a create reads with `data.get` and an update may change;
      the serial is read with `data[...]` on create and never assigned. */
  const EquipCols: set<string> := {
    TagEquip, FabricanteId, "modelo_id", NomeEquip, TipoId, "unidade_id", "resolucao",
    "faixa_minima_equipamento", "faixa_maxima_equipamento", "faixa_minima_pam",
    "faixa_maxima_pam", "faixa_minima_calibrada", "faixa_maxima_calibrada",
    "condicoes_ambientais", "erro_maximo_admissivel", "criterio_aceitacao_id", "software_versao"
  }

  /** The row a create inserts: the serial and every payload column, each
      as its column stores it. */
  function NewEquipment(p: Payload): (r: Row)
    ensures Col(r, Serial) == Written(p, Serial)
    ensures forall c :: c in EquipCols ==> Col(r, c) == Written(p, c)
    ensures forall c :: c !in EquipCols && c != Serial ==> Col(r, c) == Null
  {
    map c | c in EquipCols + {Serial} :: Written(p, c)
  }

  /** `criar_equipamento`: a missing serial or name key raises `KeyError`
      inside the `try` and answers 500; the tag is looked up only when truthy.
      Each lookup compares the column with the value as the column would
      store it, so `5` finds a stored `'5'`. */
  function Create(db: Db, p: Payload): (r: Reply)
    ensures Serial !in p ==> r == NoWrite(db, 500)
    ensures Serial in p && Has(db.equipamentos, Serial, Written(p, Serial)) ==> r == NoWrite(db, 400)
    ensures Serial in p && !Has(db.equipamentos, Serial, Written(p, Serial))
            && Truthy(GetOrNull(p, TagEquip)) && Has(db.equipamentos, TagEquip, Written(p, TagEquip))
            ==> r == NoWrite(db, 400)
    ensures r.status == 201 ==> r.db == db.(equipamentos := db.equipamentos + [NewEquipment(p)])
    ensures r.status != 201 ==> r.db == db
  {
    if Serial !in p then NoWrite(db, 500)
    else if Has(db.equipamentos, Serial, Written(p, Serial)) then NoWrite(db, 400)
    else if Truthy(GetOrNull(p, TagEquip)) && Has(db.equipamentos, TagEquip, Written(p, TagEquip)) then NoWrite(db, 400)
    else if NomeEquip !in p then NoWrite(db, 500)
    else Commit(db, db.(equipamentos := db.equipamentos + [NewEquipment(p)]), 201, None)
  }

  /** On a valid database a create succeeds exactly when serial and name are
      given and non-null, the serial is new, and the tag is null or new. A
      falsy tag such as `''` skips the lookup, so a repeated `''` fails at
      commit with 500 rather than 400. */
  lemma CreateSucceeds(db: Db, p: Payload)
    requires Valid(db)
    ensures Create(db, p).status == 201 <==>
              && Serial in p && NomeEquip in p && p[Serial] != Null && p[NomeEquip] != Null
              && !Has(db.equipamentos, Serial, Written(p, Serial))
              && (GetOrNull(p, TagEquip) == Null || !Has(db.equipamentos, TagEquip, Written(p, TagEquip)))
  {
    if Serial in p && NomeEquip in p && !Has(db.equipamentos, Serial, Written(p, Serial))
       && !(Truthy(GetOrNull(p, TagEquip)) && Has(db.equipamentos, TagEquip, Written(p, TagEquip))) {
      var row := NewEquipment(p);
      assert TagEquip in EquipCols && NomeEquip in EquipCols;
      ValidWithEquipamentos(db, db.equipamentos + [row]);
      AppendEquipmentValid(db.equipamentos, row);
    }
  }

  /** Once a create has succeeded, every later payload whose serial the
      column stores as the same value is refused with 400, however it was
      typed. */
  lemma CreatedSerialRefused(db: Db, p: Payload, q: Payload)
    requires Create(db, p).status == 201
    requires Serial in q && Written(q, Serial) == Written(p, Serial)
    ensures Create(Create(db, p).db, q) == NoWrite(Create(db, p).db, 400)
  {
    var t := Create(db, p).db.equipamentos;
    assert t[|t| - 1] == NewEquipment(p);
    assert Matches(t[|t| - 1], Serial, Written(q, Serial));
  }

  /** A serial posted as a number, such as `5`, and then as its decimal
      text, `'5'`: the column stores both as the text, so the second create
      answers 400. */
  lemma NumericThenTextSerial(db: Db, p: Payload, q: Payload, n: int)
    requires Create(db, p).status == 201 && GetOrNull(p, Serial) == Int(n)
    requires GetOrNull(q, Serial) == Str(IntToString(n))
    ensures Create(Create(db, p).db, q).status == 400
  {
    SerialStoredAsText(n);
    CreatedSerialRefused(db, p, q);
  }

  /** The serial column stores a number and its decimal text alike. */
  lemma SerialStoredAsText(n: int)
    ensures StoredAs(Serial, Int(n)) == StoredAs(Serial, Str(IntToString(n))) == Str(IntToString(n))
  {
    assert Serial !in IntegerColumns && Serial !in RealColumns;
    StoredAsSpec(Serial, Int(n));
    StoredAsSpec(Serial, Str(IntToString(n)));
  }

  /** A manufacturer id sent as numeric text is stored as the integer, so
      the manufacturer filter and the manufacturer join both find the row. */
  lemma TextIdStoredAsInt(p: Payload, n: int)
    requires InInt64(n) && GetOrNull(p, FabricanteId) == Str(IntToString(n))
    ensures Col(NewEquipment(p), FabricanteId) == Int(n)
    ensures IdFilter(NewEquipment(p), FabricanteId, Some(n))
  {
    IntegerTextStoredAsInt(n);
    assert FabricanteId in EquipCols && FabricanteId in IntegerColumns;
  }

  /** Appending a row keeps the equipment constraints exactly when its
      serial and name are set, its serial is new and its tag NULL or new. */
  lemma AppendEquipmentValid(t: Table, row: Row)
    requires EquipamentosValid(t)
    ensures EquipamentosValid(t + [row]) <==>
              && Col(row, Serial) != Null && Col(row, NomeEquip) != Null
              && !Has(t, Serial, Col(row, Serial))
              && (Col(row, TagEquip) == Null || !Has(t, TagEquip, Col(row, TagEquip)))
  {
    var r := t + [row];
    assert r[|t|] == row;
    if Col(row, Serial) != Null && Col(row, NomeEquip) != Null && !Has(t, Serial, Col(row, Serial))
       && (Col(row, TagEquip) == Null || !Has(t, TagEquip, Col(row, TagEquip))) {
      AppendKeepsUnique(t, row, Serial);
      AppendKeepsUnique(t, row, TagEquip);
      assert forall j :: 0 <= j < |t| ==> r[j] == t[j];
    } else if Has(t, Serial, Col(row, Serial)) && Col(row, Serial) != Null {
      var j :| 0 <= j < |t| && Matches(t[j], Serial, Col(row, Serial));
      assert r[j] == t[j];
    } else if Col(row, TagEquip) != Null && Has(t, TagEquip, Col(row, TagEquip)) {
      var j :| 0 <= j < |t| && Matches(t[j], TagEquip, Col(row, TagEquip));
      assert r[j] == t[j];
    }
  }

  /** `atualizar_equipamento`: an unknown serial makes `get_or_404` raise
      inside the broad `except`, which answers 500. */
  function Update(db: Db, serial: string, p: Payload): (r: Reply)
    ensures Find(db.equipamentos, Serial, Str(serial)).None? ==> r == NoWrite(db, 500)
    ensures Find(db.equipamentos, Serial, Str(serial)).Some?
            && KeyClash(db.equipamentos, db.equipamentos[Find(db.equipamentos, Serial, Str(serial)).value], p, TagEquip)
            ==> r == NoWrite(db, 400)
    ensures r.status == 200 ==>
              var i := Find(db.equipamentos, Serial, Str(serial)).value;
              r.db == db.(equipamentos := db.equipamentos[i := Merge(db.equipamentos[i], p, EquipCols)])
    ensures r.status != 200 ==> r.db == db
  {
    match Find(db.equipamentos, Serial, Str(serial))
    case None => NoWrite(db, 500)
    case Some(i) =>
      if KeyClash(db.equipamentos, db.equipamentos[i], p, TagEquip) then NoWrite(db, 400)
      else Commit(db, db.(equipamentos := db.equipamentos[i := Merge(db.equipamentos[i], p, EquipCols)]), 200, None)
  }

  /** Whatever the payload, an update never changes any serial number, even
      when the payload carries one, and keeps the number of rows. */
  lemma UpdateKeepsSerials(db: Db, serial: string, p: Payload)
    ensures var t := Update(db, serial, p).db.equipamentos;
            && |t| == |db.equipamentos|
            && forall j :: 0 <= j < |t| ==> Col(t[j], Serial) == Col(db.equipamentos[j], Serial)
  {
    assert Serial !in EquipCols;
  }

  /** On a valid database an update of an existing serial succeeds exactly
      when the tag check passes, the merged name is non-null, and the merged
      tag is null, unchanged or unused; a falsy tag held by another row
      passes the check and fails at commit. */
  lemma UpdateSucceeds(db: Db, serial: string, p: Payload)
    requires Valid(db) && Has(db.equipamentos, Serial, Str(serial))
    ensures var i := Find(db.equipamentos, Serial, Str(serial)).value;
            var cur := db.equipamentos[i];
            var tag := Col(Merge(cur, p, EquipCols), TagEquip);
            Update(db, serial, p).status == 200 <==>
              && !KeyClash(db.equipamentos, cur, p, TagEquip)
              && Col(Merge(cur, p, EquipCols), NomeEquip) != Null
              && (tag == Null || tag == Col(cur, TagEquip) || !Has(db.equipamentos, TagEquip, tag))
  {
    var i := Find(db.equipamentos, Serial, Str(serial)).value;
    var cur := db.equipamentos[i];
    var m := Merge(cur, p, EquipCols);
    assert Serial !in EquipCols;
    ValidWithEquipamentos(db, db.equipamentos[i := m]);
    ReplaceEquipmentValid(db.equipamentos, i, m);
  }

  /** Replacing the equipment table of a valid database leaves it valid
      exactly when the new table satisfies the equipment constraints. */
  lemma ValidWithEquipamentos(db: Db, t: Table)
    requires Valid(db)
    ensures Valid(db.(equipamentos := t)) <==> EquipamentosValid(t)
  {
    assert forall k :: Lookup(db.(equipamentos := t), k) == Lookup(db, k);
  }

  /** Replacing row `i` by a row with the same serial keeps the equipment
      constraints exactly when the name is set and the tag is NULL, the
      row's own or unused. */
  lemma ReplaceEquipmentValid(t: Table, i: nat, m: Row)
    requires EquipamentosValid(t) && i < |t| && Col(m, Serial) == Col(t[i], Serial)
    ensures var tag := Col(m, TagEquip);
            EquipamentosValid(t[i := m]) <==>
              && Col(m, NomeEquip) != Null
              && (tag == Null || tag == Col(t[i], TagEquip) || !Has(t, TagEquip, tag))
  {
    var r := t[i := m];
    ReplaceKeepsUnique(t, i, m, Serial);
    var tag := Col(m, TagEquip);
    if tag == Null || tag == Col(t[i], TagEquip) || !Has(t, TagEquip, tag) {
      ReplaceKeepsUnique(t, i, m, TagEquip);
    } else {
      ReplaceBreaksUnique(t, i, m, TagEquip);
    }
    if Col(m, NomeEquip) == Null {
      assert Col(r[i], NomeEquip) == Null;
    }
  }

  /** The equipment's dependents the delete checks: points and certificates
      naming its serial. */
  predicate HasDependents(db: Db, serial: string) {
    Has(db.pontos, SerialRef, Str(serial)) || Has(db.certificados, SerialRef, Str(serial))
  }

  /** `deletar_equipamento`: orifice plates and straight runs are not checked;
      the ORM detaches them, setting their non-nullable serial to NULL. */
  function Delete(db: Db, serial: string): (r: Reply)
    ensures Find(db.equipamentos, Serial, Str(serial)).None? ==> r == NoWrite(db, 500)
    ensures Find(db.equipamentos, Serial, Str(serial)).Some? && HasDependents(db, serial) ==> r == NoWrite(db, 400)
    ensures r.status == 200 ==>
              r.db == db.(equipamentos := RemoveAt(db.equipamentos, Find(db.equipamentos, Serial, Str(serial)).value),
                          placas := Orphan(db.placas, SerialRef, Str(serial)),
                          trechos := Orphan(db.trechos, SerialRef, Str(serial)))
    ensures r.status != 200 ==> r.db == db
  {
    match Find(db.equipamentos, Serial, Str(serial))
    case None => NoWrite(db, 500)
    case Some(i) =>
      if HasDependents(db, serial) then NoWrite(db, 400)
      else
        var after := db.(equipamentos := RemoveAt(db.equipamentos, i),
                         placas := Orphan(db.placas, SerialRef, Str(serial)),
                         trechos := Orphan(db.trechos, SerialRef, Str(serial)));
        Commit(db, after, 200, None)
  }

  /** On a valid database, an existing equipment without points or
      certificates is deleted exactly when no orifice plate or straight run
      names it; then exactly its row is gone and nothing else changes. */
  lemma DeleteOutcome(db: Db, serial: string)
    requires Valid(db) && Has(db.equipamentos, Serial, Str(serial)) && !HasDependents(db, serial)
    ensures Delete(db, serial).status == 200 <==>
              !Has(db.placas, SerialRef, Str(serial)) && !Has(db.trechos, SerialRef, Str(serial))
    ensures Delete(db, serial).status == 200 ==>
              && !Has(Delete(db, serial).db.equipamentos, Serial, Str(serial))
              && |Delete(db, serial).db.equipamentos| == |db.equipamentos| - 1
              && Delete(db, serial).db.(equipamentos := db.equipamentos) == db
  {
    var i := Find(db.equipamentos, Serial, Str(serial)).value;
    var t := RemoveAt(db.equipamentos, i);
    var placas := Orphan(db.placas, SerialRef, Str(serial));
    var trechos := Orphan(db.trechos, SerialRef, Str(serial));
    var after := db.(equipamentos := t, placas := placas, trechos := trechos);
    assert forall k :: Lookup(after, k) == Lookup(db, k);
    if Has(db.placas, SerialRef, Str(serial)) {
      var j :| 0 <= j < |db.placas| && Matches(db.placas[j], SerialRef, Str(serial));
      assert Col(placas[j], SerialRef) == Null;
    } else if Has(db.trechos, SerialRef, Str(serial)) {
      var j :| 0 <= j < |db.trechos| && Matches(db.trechos[j], SerialRef, Str(serial));
      assert Col(trechos[j], SerialRef) == Null;
    } else {
      OrphanNone(db.placas, SerialRef, Str(serial));
      OrphanNone(db.trechos, SerialRef, Str(serial));
      RemoveKeepsUnique(db.equipamentos, i, Serial);
      RemoveKeepsUnique(db.equipamentos, i, TagEquip);
      assert Valid(after);
      forall j | 0 <= j < |t|
        ensures !Matches(t[j], Serial, Str(serial))
      {
        var j' := if j < i then j else j + 1;
        assert t[j] == db.equipamentos[j'];
      }
    }
  }

  // ---------------------------------------------------------------------------
  // Listing and statistics

  /** Query-string arguments of the listing, already converted by Flask:
      `page` and `per_page` default to 1 and 20, the id filters are None
      when absent or malformed. */
  datatype ListArgs = ListArgs(page: int, perPage: int, search: string, fabricanteId: Option<int>, tipoId: Option<int>)

  predicate SearchHit(row: Row, search: string) {
    SqlContains(Col(row, Serial), search) || SqlContains(Col(row, TagEquip), search)
    || SqlContains(Col(row, NomeEquip), search)
  }

  /** The listing's WHERE clause. */
  predicate ListFilter(row: Row, a: ListArgs) {
    && (a.search == "" || SearchHit(row, a.search))
    && IdFilter(row, FabricanteId, a.fabricanteId)
    && IdFilter(row, TipoId, a.tipoId)
  }

  /** The rows the WHERE clause keeps, in table order. */
  function ListHits(db: Db, a: ListArgs): (r: Table)
    ensures forall row :: row in r <==> row in db.equipamentos && ListFilter(row, a)
    ensures |r| <= |db.equipamentos|
  {
    Filter(db.equipamentos, (row: Row) => ListFilter(row, a))
  }

  /** `listar_equipamentos`. */
  function List(db: Db, a: ListArgs): (r: Page<Row>)
    ensures r.total == |ListHits(db, a)|
    ensures forall k :: 0 <= k < |r.items| ==> r.items[k] in db.equipamentos && ListFilter(r.items[k], a)
    ensures r == Paginate(ListHits(db, a), a.page, a.perPage)
  {
    Paginate(ListHits(db, a), a.page, a.perPage)
  }

  /** Without a search term or filters, the listing counts every equipment. */
  lemma ListUnfilteredCountsAll(db: Db, a: ListArgs)
    requires a.search == "" && a.fabricanteId.None? && a.tipoId.None?
    ensures List(db, a).total == |db.equipamentos|
  {
    var p := (row: Row) => ListFilter(row, a);
    assert forall i :: 0 <= i < |db.equipamentos| ==> p(db.equipamentos[i]);
    CountAll(db.equipamentos, p);
  }

  lemma {:induction false} CountAll<T>(s: seq<T>, p: T -> bool)
    requires forall i :: 0 <= i < |s| ==> p(s[i])
    ensures Count(s, p) == |s|
    decreases |s|
  {
    if |s| > 0 {
      CountAll(s[1..], p);
    }
  }

  /** For a search term without LIKE wildcards and text columns, the search
      is a case-insensitive (ASCII) substring test on serial, tag or name. */
  lemma SearchIsSubstring(row: Row, search: string)
    requires NoWildcards(search)
    requires Col(row, Serial).Str? && Col(row, TagEquip).Str? && Col(row, NomeEquip).Str?
    ensures SearchHit(row, search) <==>
              || Contains(AsciiLower(Col(row, Serial).s), AsciiLower(search))
              || Contains(AsciiLower(Col(row, TagEquip).s), AsciiLower(search))
              || Contains(AsciiLower(Col(row, NomeEquip).s), AsciiLower(search))
  {
    LikeContains(search, Col(row, Serial).s);
    LikeContains(search, Col(row, TagEquip).s);
    LikeContains(search, Col(row, NomeEquip).s);
  }

  datatype Stats = Stats(total: nat, porFabricante: seq<Group>, porTipo: seq<Group>)

  /** `estatisticas_equipamentos`: the total and the inner-join group counts. */
  function Estatisticas(db: Db): (r: Stats)
    ensures r.total == |db.equipamentos|
    ensures r.porFabricante == GroupBy(Lookup(db, Fabricantes), db.equipamentos, FabricanteId)
    ensures r.porTipo == GroupBy(Lookup(db, TiposEquipamento), db.equipamentos, TipoId)
  {
    Stats(|db.equipamentos|, GroupBy(Lookup(db, Fabricantes), db.equipamentos, FabricanteId),
          GroupBy(Lookup(db, TiposEquipamento), db.equipamentos, TipoId))
  }

  /** On a valid database the per-manufacturer counts add up to the
      equipment with an existing manufacturer, never more than the total. */
  lemma EstatisticasBounded(db: Db)
    requires Valid(db)
    ensures TotalCount(Estatisticas(db).porFabricante)
            == Count(db.equipamentos, (row: Row) => JoinsSome(Lookup(db, Fabricantes), row, FabricanteId))
    ensures TotalCount(Estatisticas(db).porFabricante) <= Estatisticas(db).total
    ensures TotalCount(Estatisticas(db).porTipo) <= Estatisticas(db).total
  {
    assert LookupValid(Lookup(db, Fabricantes)) && LookupValid(Lookup(db, TiposEquipamento));
    GroupByTotal(Lookup(db, Fabricantes), db.equipamentos, FabricanteId);
    GroupByTotal(Lookup(db, TiposEquipamento), db.equipamentos, TipoId);
  }
}
