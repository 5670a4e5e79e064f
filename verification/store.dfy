/** The SQLite database behind the server: each table is the sequence of
    its rows in rowid order, each row a map from column name to value. The
    validity predicate collects the PRIMARY KEY, UNIQUE and NOT NULL
    constraints the schema declares; a commit that would break one of them
    fails and the request rolls back. Foreign keys are declared but not
    enforced by SQLite, so they are not part of validity. */
module Store {
  import opened Wrappers
  import opened Values
  import opened Text

  type Row = map<string, Value>
  type Table = seq<Row>

  /** A column of a row; a column never written reads as NULL. */
  function Col(r: Row, c: string): Value {
    if c in r then r[c] else Null
  }

  /** The reference ("configuration") tables, each with `id` and a unique `nome`. */
  datatype LookupKind =
    | Fabricantes | Modelos | TiposEquipamento | Polos | Instalacoes | Unidades
    | Classificacoes | Naturezas | StatusCertificado | Servicos | Criterios

  datatype Db = Db(
    lookups: map<LookupKind, Table>,
    equipamentos: Table,
    pontos: Table,
    certificados: Table,
    placas: Table,
    trechos: Table,
    analises: Table,
    eventosTeste: Table,
    eventosAnalise: Table)

  function Lookup(db: Db, k: LookupKind): Table {
    if k in db.lookups then db.lookups[k] else []
  }

  function WithLookup(db: Db, k: LookupKind, t: Table): (r: Db)
    ensures Lookup(r, k) == t
    ensures forall k' :: k' != k ==> Lookup(r, k') == Lookup(db, k')
    ensures r.(lookups := map[]) == db.(lookups := map[])
  {
    db.(lookups := db.lookups[k := t])
  }

  const EmptyDb := Db(map[], [], [], [], [], [], [], [], [])

  // ---------------------------------------------------------------------------
  // Column names

  const Id := "id"
  const Nome := "nome"
  const FabricanteId := "fabricante_id"
  const PoloId := "polo_id"

  const Serial := "numero_serie"
  const TagEquip := "tag_equipamento"
  const NomeEquip := "nome_equipamento"
  const TipoId := "tipo_equipamento_id"

  const TagPonto := "tag_ponto_medicao"
  const NomePonto := "nome_ponto_medicao"
  const SerialRef := "numero_serie_equipamento"
  const ClassificacaoId := "classificacao_id"
  const ProximaCal := "data_proxima_calibracao"

  const NumeroCert := "numero_certificado"
  const RevisaoCert := "revisao_certificado"
  const DataCert := "data_certificado"
  const StatusCertId := "status_certificado_id"

  /** The columns a handler writes from a payload that the schema declares
      `Integer` and `Float`; every other such column is `String(n)` or
      `Text`. A name has the same declared type in every table that has it.
      The `Float` columns of plates and straight runs are never written from
      a payload here, so they are not listed. */
  const IntegerColumns: set<string> := {
    Id, FabricanteId, "modelo_id", TipoId, "unidade_id", "criterio_aceitacao_id",
    PoloId, ClassificacaoId, "frequencia_calibracao_anp", StatusCertId
  }
  const RealColumns: set<string> := {
    "resolucao", "faixa_minima_equipamento", "faixa_maxima_equipamento", "faixa_minima_pam",
    "faixa_maxima_pam", "faixa_minima_calibrada", "faixa_maxima_calibrada", "erro_maximo_admissivel"
  }

  function ColumnAffinity(c: string): Affinity {
    if c in IntegerColumns then IntegerAffinity
    else if c in RealColumns then RealAffinity
    else TextAffinity
  }

  /** The value column `c` holds after `v` is bound to it, and the value a
      `filter_by(c=v)` compares the column with. */
  function StoredAs(c: string, v: Value): (r: Value)
    ensures r.Null? <==> v.Null?
  {
    ApplyAffinity(ColumnAffinity(c), v)
  }

  /** Each column converts by its declared type: integer-literal text in an
      `Integer` column becomes the integer, an integer in a text column its
      decimal text, and text in a text column stays as it is. */
  lemma StoredAsSpec(c: string, v: Value)
    ensures var r := StoredAs(c, v);
            && (r.Null? <==> v.Null?)
            && (c in IntegerColumns && v.Str? && IntLiteral(v.s) && InInt64(LiteralValue(v.s)) ==> r == Int(LiteralValue(v.s)))
            && (c !in IntegerColumns && c !in RealColumns && v.Int? ==> r == Str(IntToString(v.i)))
            && (c !in IntegerColumns && c !in RealColumns && v.Str? ==> r == v)
            && (v.Int? && c in IntegerColumns ==> r == v)
  {
  }

  /** What an insert stores for payload key `c`: `data.get(c)` through the
      column's affinity. */
  function Written(p: Payload, c: string): (r: Value)
    ensures c !in p ==> r == Null
  {
    StoredAs(c, GetOrNull(p, c))
  }

  // ---------------------------------------------------------------------------
  // Constraints

  /** UNIQUE: two rows never share a non-NULL value (NULLs are distinct). */
  predicate UniqueCol(t: Table, c: string) {
    forall i, j :: 0 <= i < j < |t| && Col(t[i], c) != Null ==> Col(t[i], c) != Col(t[j], c)
  }

  /** NOT NULL. */
  predicate NotNullCol(t: Table, c: string) {
    forall i :: 0 <= i < |t| ==> Col(t[i], c) != Null
  }

  /** An INTEGER PRIMARY KEY: an integer, distinct across rows. */
  predicate IntKey(t: Table, c: string) {
    (forall i :: 0 <= i < |t| ==> Col(t[i], c).Int?) && UniqueCol(t, c)
  }

  /** UNIQUE over several columns: rows conflict only when every column is
      non-NULL and all are equal. */
  predicate UniqueCols(t: Table, cs: seq<string>) {
    forall i, j :: 0 <= i < j < |t| ==> !Conflict(t[i], t[j], cs)
  }

  /** Two rows agree on every column of `cs`, none of them NULL. */
  predicate Conflict(r1: Row, r2: Row, cs: seq<string>) {
    forall k :: 0 <= k < |cs| ==> Col(r1, cs[k]) != Null && Col(r1, cs[k]) == Col(r2, cs[k])
  }

  predicate LookupValid(t: Table) {
    IntKey(t, Id) && NotNullCol(t, Nome) && UniqueCol(t, Nome)
  }

  predicate EquipamentosValid(t: Table) {
    NotNullCol(t, Serial) && UniqueCol(t, Serial) && UniqueCol(t, TagEquip) && NotNullCol(t, NomeEquip)
  }

  predicate PontosValid(t: Table) {
    IntKey(t, Id) && NotNullCol(t, TagPonto) && UniqueCol(t, TagPonto) && NotNullCol(t, NomePonto)
  }

  predicate CertificadosValid(t: Table) {
    && IntKey(t, Id) && NotNullCol(t, SerialRef) && NotNullCol(t, NumeroCert) && NotNullCol(t, DataCert)
    && UniqueCols(t, [SerialRef, NumeroCert, RevisaoCert])
  }

  /** Orifice plates and straight runs: at most one per equipment. */
  predicate OnePerEquipment(t: Table) {
    IntKey(t, Id) && NotNullCol(t, SerialRef) && UniqueCol(t, SerialRef)
  }

  predicate Valid(db: Db) {
    && (forall k :: LookupValid(Lookup(db, k)))
    && EquipamentosValid(db.equipamentos)
    && PontosValid(db.pontos)
    && CertificadosValid(db.certificados)
    && OnePerEquipment(db.placas)
    && OnePerEquipment(db.trechos)
    && NotNullCol(db.eventosTeste, TagPonto)
    && NotNullCol(db.eventosAnalise, TagPonto)
  }

  // ---------------------------------------------------------------------------
  // Table operations

  /** `filter_by(c=v)` holds for a row: equality, or IS NULL when `v` is None. */
  predicate Matches(r: Row, c: string, v: Value) {
    Col(r, c) == v
  }

  /** Some row satisfies `filter_by(c=v)`. */
  predicate Has(t: Table, c: string, v: Value) {
    exists i :: 0 <= i < |t| && Matches(t[i], c, v)
  }

  /** `filter_by(c=v).first()` / `query.get(v)`: the first matching row in rowid order. */
  function Find(t: Table, c: string, v: Value): (r: Option<nat>)
    ensures r.Some? ==> r.value < |t| && Matches(t[r.value], c, v)
    ensures r.Some? ==> forall i :: 0 <= i < r.value ==> !Matches(t[i], c, v)
    ensures r.None? <==> !Has(t, c, v)
    decreases |t|
  {
    if |t| == 0 then None
    else if Matches(t[0], c, v) then Some(0)
    else
      match Find(t[1..], c, v)
      case None =>
        assert forall i :: 1 <= i < |t| ==> t[i] == t[1..][i - 1];
        None
      case Some(i) =>
        assert t[i + 1] == t[1..][i];
        Some(i + 1)
  }

  /** The largest integer id in the table, 0 when there is none. */
  function MaxId(t: Table): (m: int)
    ensures m >= 0
    ensures forall i :: 0 <= i < |t| && Col(t[i], Id).Int? ==> Col(t[i], Id).i <= m
    decreases |t|
  {
    if |t| == 0 then 0
    else
      var rest := MaxId(t[1..]);
      assert forall i :: 1 <= i < |t| ==> t[i] == t[1..][i - 1];
      var here := if Col(t[0], Id).Int? then Col(t[0], Id).i else 0;
      if here > rest then here else rest
  }

  /** The rowid SQLite assigns to an inserted row without an explicit key:
      one more than the largest in use. */
  function NextId(t: Table): (n: int)
    ensures n >= 1
    ensures forall i :: 0 <= i < |t| ==> Col(t[i], Id) != Int(n)
  {
    MaxId(t) + 1
  }

  /** A reference-list row holding only its id and name. */
  function LookupEntry(id: int, name: string): Row {
    map[Id := Int(id), Nome := Str(name)]
  }

  function RemoveAt(t: Table, i: nat): (r: Table)
    requires i < |t|
    ensures |r| == |t| - 1
    ensures forall j :: 0 <= j < i ==> r[j] == t[j]
    ensures forall j :: i <= j < |r| ==> r[j] == t[j + 1]
  {
    t[..i] + t[i + 1..]
  }

  /** The update merge `row.c = data.get(c, row.c)` over the updatable
      columns `cols`: a key that is present overwrites, even with null, with
      its value as the column stores it; an absent key keeps the current
      value; other columns are untouched. */
  function Merge(cur: Row, p: Payload, cols: set<string>): (r: Row)
    ensures forall c :: c in cols ==> Col(r, c) == (if c in p then StoredAs(c, p[c]) else Col(cur, c))
    ensures forall c :: c !in cols ==> Col(r, c) == Col(cur, c)
  {
    map c | c in cur.Keys + (cols * p.Keys) :: if c in cols && c in p then StoredAs(c, p[c]) else cur[c]
  }

  /** The uniqueness check of an update on column `c`: only a truthy new
      value that differs (in Python, before any conversion) from the current
      one is looked up, and the lookup compares the column with the value
      converted to its affinity. */
  predicate KeyClash(t: Table, cur: Row, p: Payload, c: string) {
    c in p && Truthy(p[c]) && p[c] != Col(cur, c) && Has(t, c, StoredAs(c, p[c]))
  }

  /** What the ORM does to the children of a deleted parent whose relationship
      has no delete cascade: their foreign key `c` is set to NULL. */
  function Orphan(t: Table, c: string, v: Value): (r: Table)
    ensures |r| == |t|
    ensures forall i :: 0 <= i < |t| ==> Col(r[i], c) == (if Matches(t[i], c, v) then Null else Col(t[i], c))
    ensures forall i, c' :: 0 <= i < |t| && c' != c ==> Col(r[i], c') == Col(t[i], c')
  {
    seq(|t|, i requires 0 <= i < |t| => if Matches(t[i], c, v) then t[i][c := Null] else t[i])
  }

  // ---------------------------------------------------------------------------
  // Request outcome

  /** An HTTP status, the database after the request, and the id a 201 reports. */
  datatype Reply = Reply(status: int, db: Db, id: Option<int>)

  /** `db.session.commit()` inside the handler's `try`: a constraint violation
      raises, the `except` rolls back and answers 500. */
  function Commit(before: Db, after: Db, okStatus: int, id: Option<int>): (r: Reply)
    ensures Valid(after) ==> r == Reply(okStatus, after, id)
    ensures !Valid(after) ==> r == Reply(500, before, None)
  {
    if Valid(after) then Reply(okStatus, after, id) else Reply(500, before, None)
  }

  /** A request that stops before writing anything. */
  function NoWrite(db: Db, status: int): Reply {
    Reply(status, db, None)
  }

  // ---------------------------------------------------------------------------
  // Constraint lemmas used by the handlers

  /** Removing a row keeps every single-column constraint. */
  lemma RemoveKeepsUnique(t: Table, i: nat, c: string)
    requires i < |t| && UniqueCol(t, c)
    ensures UniqueCol(RemoveAt(t, i), c)
  {
    var r := RemoveAt(t, i);
    forall a, b | 0 <= a < b < |r| && Col(r[a], c) != Null
      ensures Col(r[a], c) != Col(r[b], c)
    {
      var a' := if a < i then a else a + 1;
      var b' := if b < i then b else b + 1;
      assert r[a] == t[a'] && r[b] == t[b'];
    }
  }

  lemma RemoveKeepsUniqueCols(t: Table, i: nat, cs: seq<string>)
    requires i < |t| && UniqueCols(t, cs)
    ensures UniqueCols(RemoveAt(t, i), cs)
  {
    var r := RemoveAt(t, i);
    forall a, b | 0 <= a < b < |r|
      ensures !Conflict(r[a], r[b], cs)
    {
      var a' := if a < i then a else a + 1;
      var b' := if b < i then b else b + 1;
      assert r[a] == t[a'] && r[b] == t[b'];
    }
  }

  /** Appending a row whose value is new (or NULL) keeps a UNIQUE column. */
  lemma AppendKeepsUnique(t: Table, row: Row, c: string)
    requires UniqueCol(t, c)
    requires Col(row, c) == Null || !Has(t, c, Col(row, c))
    ensures UniqueCol(t + [row], c)
  {
    var r := t + [row];
    forall a, b | 0 <= a < b < |r| && Col(r[a], c) != Null
      ensures Col(r[a], c) != Col(r[b], c)
    {
      if b == |t| {
        assert r[a] == t[a];
        assert !Matches(t[a], c, Col(row, c));
      }
    }
  }

  /** A reference list stays valid when a new name is added with the next rowid. */
  lemma AppendEntryValid(t: Table, name: string)
    requires LookupValid(t) && !Has(t, Nome, Str(name))
    ensures LookupValid(t + [LookupEntry(NextId(t), name)])
  {
    var row := LookupEntry(NextId(t), name);
    assert (t + [row])[|t|] == row;
    assert !Has(t, Id, Int(NextId(t)));
    AppendKeepsUnique(t, row, Id);
    AppendKeepsUnique(t, row, Nome);
  }

  /** Replacing row `i` keeps a UNIQUE column when the new value is NULL,
      the row's own, or not used by any row. */
  lemma ReplaceKeepsUnique(t: Table, i: nat, row: Row, c: string)
    requires i < |t| && UniqueCol(t, c)
    requires Col(row, c) == Null || Col(row, c) == Col(t[i], c) || !Has(t, c, Col(row, c))
    ensures UniqueCol(t[i := row], c)
  {
    var r := t[i := row];
    forall a, b | 0 <= a < b < |r| && Col(r[a], c) != Null
      ensures Col(r[a], c) != Col(r[b], c)
    {
      if a == i {
        assert !Matches(t[b], c, Col(row, c)) || Col(row, c) == Col(t[i], c);
      } else if b == i {
        assert !Matches(t[a], c, Col(row, c)) || Col(row, c) == Col(t[i], c);
      }
    }
  }

  /** Replacing row `i` with a non-NULL value another row already holds
      breaks a UNIQUE column. */
  lemma ReplaceBreaksUnique(t: Table, i: nat, row: Row, c: string)
    requires i < |t| && Col(row, c) != Null && Col(row, c) != Col(t[i], c) && Has(t, c, Col(row, c))
    ensures !UniqueCol(t[i := row], c)
  {
    var j :| 0 <= j < |t| && Matches(t[j], c, Col(row, c));
    var r := t[i := row];
    assert j != i && r[j] == t[j] && r[i] == row;
    if i < j {
      assert Col(r[i], c) != Null && Col(r[i], c) == Col(r[j], c);
    } else {
      assert Col(r[j], c) != Null && Col(r[j], c) == Col(r[i], c);
    }
  }

  /** Detaching from a parent nobody refers to changes nothing. */
  lemma OrphanNone(t: Table, c: string, v: Value)
    requires !Has(t, c, v)
    ensures Orphan(t, c, v) == t
  {
    var r := Orphan(t, c, v);
    forall i | 0 <= i < |t|
      ensures r[i] == t[i]
    {
      assert !Matches(t[i], c, v);
    }
  }
}
