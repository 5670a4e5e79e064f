/** Spreadsheet import (`/api/importacao`): equipment and measurement points
    read row by row from an uploaded sheet, with lookup values found or
    created by name, per-row errors counted, and a single commit at the end.
    A sheet is given as its header row and its cells; reading the file is
    the spreadsheet library's business and enters only as `Option<Sheet>`. */
module Importer {
  import opened Wrappers
  import opened Seqs
  import opened Text
  import opened Values
  import opened Store

  // ---------------------------------------------------------------------------
  // Sheets

  /** A cell as the data frame hands it over: NaN (empty), or a value with
      its `str()` rendering and the result of `int()` on it (None when that
      conversion raises). */
  datatype Cell = NaN | Filled(text: string, asInt: Option<int>)

  /** `str(value)`: NaN renders as "nan". */
  function Render(c: Cell): string {
    if c.NaN? then "nan" else c.text
  }

  datatype Sheet = Sheet(headers: seq<string>, rows: seq<seq<Cell>>)

  /** `df.columns.str.lower().str.strip()` for one header. */
  function NormHeader(h: string): string {
    PyStrip(Lower(h))
  }

  function Columns(headers: seq<string>): (cols: seq<string>)
    ensures |cols| == |headers|
    ensures forall i :: 0 <= i < |headers| ==> cols[i] == NormHeader(headers[i])
  {
    seq(|headers|, i requires 0 <= i < |headers| => NormHeader(headers[i]))
  }

  /** The position of the first column named `name`. */
  function IndexOf(cols: seq<string>, name: string): (r: Option<nat>)
    ensures r.Some? ==> r.value < |cols| && cols[r.value] == name
    ensures r.Some? ==> forall j :: 0 <= j < r.value ==> cols[j] != name
    ensures r.None? <==> name !in cols
    decreases |cols|
  {
    if |cols| == 0 then None
    else if cols[0] == name then Some(0)
    else
      match IndexOf(cols[1..], name)
      case None => None
      case Some(i) => Some(i + 1)
  }

  /** `row[name]` for a present column; a short row reads as NaN. */
  function CellOf(cols: seq<string>, row: seq<Cell>, name: string): Cell {
    match IndexOf(cols, name)
    case None => NaN
    case Some(i) => if i < |row| then row[i] else NaN
  }

  /** `pd.notna(row.get(name))`: the column exists and the cell is not NaN. */
  predicate Filled(cols: seq<string>, row: seq<Cell>, name: string) {
    name in cols && CellOf(cols, row, name).Filled?
  }

  /** `str(row.get(name, ''))`. */
  function GetText(cols: seq<string>, row: seq<Cell>, name: string): string {
    if name in cols then Render(CellOf(cols, row, name)) else ""
  }

  // ---------------------------------------------------------------------------
  // Column synonyms of the equipment import

  const SerialNames: seq<string> := ["n\U{FA}mero de s\U{E9}rie", "numero_serie", "serial_number"]
  const TagNames: seq<string> := ["tag equipamento", "tag_equipamento", "tag"]
  const NameNames: seq<string> := ["nome equipamento", "nome_equipamento", "equipment_name"]
  const FabricanteNames: seq<string> := ["fabricante", "marca", "manufacturer"]
  const TipoNames: seq<string> := ["tipo equipamento", "tipo_equipamento", "equipment_type"]

  /** The first synonym that is a column, whatever its cell holds. */
  function FirstPresent(cols: seq<string>, names: seq<string>): (r: Option<string>)
    ensures r.None? <==> forall k :: 0 <= k < |names| ==> names[k] !in cols
    ensures r.Some? ==> exists k :: 0 <= k < |names| && names[k] == r.value && r.value in cols
                                    && forall j :: 0 <= j < k ==> names[j] !in cols
    decreases |names|
  {
    if |names| == 0 then None
    else if names[0] in cols then Some(names[0])
    else
      var r := FirstPresent(cols, names[1..]);
      assert forall k :: 1 <= k < |names| ==> names[k] == names[1..][k - 1];
      r
  }

  /** The first synonym that is a column with a non-NaN cell. */
  function FirstFilled(cols: seq<string>, row: seq<Cell>, names: seq<string>): (r: Option<string>)
    ensures r.None? <==> forall k :: 0 <= k < |names| ==> !Filled(cols, row, names[k])
    ensures r.Some? ==> exists k :: 0 <= k < |names| && names[k] == r.value && Filled(cols, row, r.value)
                                    && forall j :: 0 <= j < k ==> !Filled(cols, row, names[j])
    decreases |names|
  {
    if |names| == 0 then None
    else if Filled(cols, row, names[0]) then Some(names[0])
    else
      var r := FirstFilled(cols, row, names[1..]);
      assert forall k :: 1 <= k < |names| ==> names[k] == names[1..][k - 1];
      r
  }

  /** `str(row[c]).strip()` of the first present synonym: the serial. */
  function KeyText(cols: seq<string>, row: seq<Cell>, names: seq<string>): Option<string> {
    match FirstPresent(cols, names)
    case None => None
    case Some(c) => Some(PyStrip(Render(CellOf(cols, row, c))))
  }

  /** `str(row[c]).strip() if pd.notna(row[c]) else None` of the first
      present synonym: the tag and the name. */
  function OptionalText(cols: seq<string>, row: seq<Cell>, names: seq<string>): Option<string> {
    match FirstPresent(cols, names)
    case None => None
    case Some(c) => if CellOf(cols, row, c).NaN? then None else Some(PyStrip(CellOf(cols, row, c).text))
  }

  // ---------------------------------------------------------------------------
  // Lookup values

  /** `filter_by(nome=...).first()`, or a new entry added and flushed. */
  function GetOrCreate(db: Db, k: LookupKind, name: string): (r: (Db, Value))
    ensures Has(Lookup(db, k), Nome, Str(name)) ==> r.0 == db
    ensures !Has(Lookup(db, k), Nome, Str(name)) ==>
              r.0 == WithLookup(db, k, Lookup(db, k) + [LookupEntry(NextId(Lookup(db, k)), name)])
    ensures exists i :: 0 <= i < |Lookup(r.0, k)| && Col(Lookup(r.0, k)[i], Nome) == Str(name) && Col(Lookup(r.0, k)[i], Id) == r.1
    ensures LookupValid(Lookup(db, k)) ==> LookupValid(Lookup(r.0, k))
    ensures forall k' :: k' != k ==> Lookup(r.0, k') == Lookup(db, k')
    ensures r.0.(lookups := map[]) == db.(lookups := map[])
  {
    var t := Lookup(db, k);
    match Find(t, Nome, Str(name))
    case Some(i) => (db, Col(t[i], Id))
    case None =>
      var id := NextId(t);
      var row := LookupEntry(id, name);
      var t' := t + [row];
      assert t'[|t|] == row;
      assert LookupValid(t) ==> LookupValid(t') by {
        if LookupValid(t) {
          AppendEntryValid(t, name);
        }
      }
      (WithLookup(db, k, t'), Int(id))
  }

  /** No lookup table gains a duplicate name. */
  predicate LookupsValid(db: Db) {
    forall k :: LookupValid(Lookup(db, k))
  }

  lemma GetOrCreateKeepsLookups(db: Db, k: LookupKind, name: string)
    ensures LookupsValid(db) ==> LookupsValid(GetOrCreate(db, k, name).0)
  {
    if LookupsValid(db) {
      var db' := GetOrCreate(db, k, name).0;
      forall k' ensures LookupValid(Lookup(db', k')) {
        if k' != k {
          assert Lookup(db', k') == Lookup(db, k');
        }
      }
    }
  }

  lemma SameLookups(a: Db, b: Db)
    requires a.lookups == b.lookups
    ensures LookupsValid(a) == LookupsValid(b)
  {
    assert forall k :: Lookup(a, k) == Lookup(b, k);
  }

  /** The lookup id for the first filled synonym, or NULL. */
  function LookupByName(db: Db, k: LookupKind, cols: seq<string>, row: seq<Cell>, names: seq<string>): (r: (Db, Value))
    ensures FirstFilled(cols, row, names).None? ==> r == (db, Null)
    ensures LookupsValid(db) ==> LookupsValid(r.0)
    ensures r.0.(lookups := map[]) == db.(lookups := map[])
  {
    match FirstFilled(cols, row, names)
    case None => (db, Null)
    case Some(c) =>
      GetOrCreateKeepsLookups(db, k, PyStrip(CellOf(cols, row, c).text));
      GetOrCreate(db, k, PyStrip(CellOf(cols, row, c).text))
  }

  // ---------------------------------------------------------------------------
  // Row loop

  datatype ErrorKind =
    | SerialObrigatorio
    | EquipamentoExiste(serial: string)
    | TagObrigatoria
    | PontoExiste(tag: string)
    | ValorInvalido

  /** An entry of `erros`: the sheet row number (`index + 2`) and the reason. */
  datatype RowError = RowError(linha: int, kind: ErrorKind)

  /** The running state of a row loop: the session's store and the counters. */
  datatype Progress = Progress(db: Db, importados: nat, erro: nat, erros: seq<RowError>)

  /** The state after one more row: the row is counted once, the earlier
      errors are kept, and any new error names sheet row `index + 2`. */
  predicate Advances(st: Progress, r: Progress, index: nat) {
    && r.importados + r.erro == st.importados + st.erro + 1
    && st.importados <= r.importados && st.erro <= r.erro
    && |st.erros| <= |r.erros| && r.erros[..|st.erros|] == st.erros
    && |r.erros| - |st.erros| == r.erro - st.erro
    && (forall i :: |st.erros| <= i < |r.erros| ==> r.erros[i].linha == index + 2)
  }

  /** An accepted row advances the loop with no new error. */
  lemma Accepted(st: Progress, r: Progress, index: nat)
    requires r.importados == st.importados + 1 && r.erro == st.erro && r.erros == st.erros
    ensures Advances(st, r, index)
  {
    assert r.erros[..|st.erros|] == st.erros;
  }

  /** The row at `index` is rejected for `kind`: nothing is stored. */
  function Fail(st: Progress, index: nat, kind: ErrorKind): (r: Progress)
    ensures Advances(st, r, index) && r.importados == st.importados && r.db == st.db
    ensures r.erros[|st.erros|] == RowError(index + 2, kind)
  {
    st.(erro := st.erro + 1, erros := st.erros + [RowError(index + 2, kind)])
  }

  /** `not key or key == 'nan'`. */
  predicate Blank(key: Option<string>) {
    key.None? || key.value == "" || key.value == "nan"
  }

  function OptText(s: Option<string>): Value {
    if s.None? then Null else Str(s.value)
  }

  /** The equipment name, `'Equipamento <serial>'` when absent or empty. */
  function EquipmentName(nome: Option<string>, serial: string): string {
    if nome.None? || nome.value == "" then "Equipamento " + serial else nome.value
  }

  /** The inserted equipment: serial, tag, name and the two lookup ids. */
  function EquipmentRow(serial: string, tag: Value, nome: string, fab: Value, tipo: Value): (e: Row)
    ensures Col(e, Serial) == Str(serial) && Col(e, TagEquip) == tag && Col(e, NomeEquip) == Str(nome)
    ensures Col(e, FabricanteId) == fab && Col(e, TipoId) == tipo
  {
    map[Serial := Str(serial), TagEquip := tag, NomeEquip := Str(nome), FabricanteId := fab, TipoId := tipo]
  }

  /** The manufacturer and the type of a row, found or created in turn. */
  function EquipmentLookups(db: Db, cols: seq<string>, row: seq<Cell>): (r: (Db, Value, Value))
    ensures FirstFilled(cols, row, FabricanteNames).None? ==> r.1 == Null
    ensures FirstFilled(cols, row, TipoNames).None? ==> r.2 == Null
    ensures LookupsValid(db) ==> LookupsValid(r.0)
    ensures r.0.(lookups := map[]) == db.(lookups := map[])
  {
    var (db1, fab) := LookupByName(db, Fabricantes, cols, row, FabricanteNames);
    var (db2, tipo) := LookupByName(db1, TiposEquipamento, cols, row, TipoNames);
    (db2, fab, tipo)
  }

  /** The accepting half of a row: find or create the manufacturer and the
      type, then add the equipment. */
  function AddEquipment(st: Progress, cols: seq<string>, row: seq<Cell>, serial: string): (r: Progress)
    ensures r.importados == st.importados + 1 && r.erro == st.erro && r.erros == st.erros
    ensures |r.db.equipamentos| == |st.db.equipamentos| + 1
    ensures r.db.equipamentos == st.db.equipamentos + [r.db.equipamentos[|st.db.equipamentos|]]
    ensures var e := r.db.equipamentos[|st.db.equipamentos|];
            && Col(e, Serial) == Str(serial)
            && Col(e, TagEquip) == OptText(OptionalText(cols, row, TagNames))
            && Col(e, NomeEquip) == Str(EquipmentName(OptionalText(cols, row, NameNames), serial))
            && (FirstFilled(cols, row, FabricanteNames).None? ==> Col(e, FabricanteId) == Null)
            && (FirstFilled(cols, row, TipoNames).None? ==> Col(e, TipoId) == Null)
    ensures r.db.lookups == EquipmentLookups(st.db, cols, row).0.lookups
    ensures r.db.(lookups := map[], equipamentos := []) == st.db.(lookups := map[], equipamentos := [])
  {
    var (db2, fab, tipo) := EquipmentLookups(st.db, cols, row);
    var e := EquipmentRow(serial, OptText(OptionalText(cols, row, TagNames)),
                          EquipmentName(OptionalText(cols, row, NameNames), serial), fab, tipo);
    Progress(db2.(equipamentos := db2.equipamentos + [e]), st.importados + 1, st.erro, st.erros)
  }

  /** One row of `importar_equipamentos`: a blank or "nan" serial, or one
      already stored (or added by an earlier row), is an error and adds nothing. */
  function EquipmentStep(st: Progress, cols: seq<string>, row: seq<Cell>, index: nat): (r: Progress)
    ensures Advances(st, r, index)
    ensures var key := KeyText(cols, row, SerialNames);
            && (Blank(key) ==> r == Fail(st, index, SerialObrigatorio))
            && (!Blank(key) && Has(st.db.equipamentos, Serial, Str(key.value)) ==>
                  r == Fail(st, index, EquipamentoExiste(key.value)))
            && (!Blank(key) && !Has(st.db.equipamentos, Serial, Str(key.value)) ==>
                  r == AddEquipment(st, cols, row, key.value))
  {
    var key := KeyText(cols, row, SerialNames);
    if Blank(key) then Fail(st, index, SerialObrigatorio)
    else if Has(st.db.equipamentos, Serial, Str(key.value)) then Fail(st, index, EquipamentoExiste(key.value))
    else
      var r := AddEquipment(st, cols, row, key.value);
      Accepted(st, r, index);
      r
  }

  /** One equipment row changes only the equipment and the lookup tables,
      and adds no duplicate lookup name. */
  lemma EquipmentStepFrame(st: Progress, cols: seq<string>, row: seq<Cell>, index: nat)
    ensures var r := EquipmentStep(st, cols, row, index);
            && r.db.(lookups := map[], equipamentos := []) == st.db.(lookups := map[], equipamentos := [])
            && (LookupsValid(st.db) ==> LookupsValid(r.db))
  {
    var r := EquipmentStep(st, cols, row, index);
    var key := KeyText(cols, row, SerialNames);
    if Blank(key) {
      assert r == Fail(st, index, SerialObrigatorio);
    } else if Has(st.db.equipamentos, Serial, Str(key.value)) {
      assert r == Fail(st, index, EquipamentoExiste(key.value));
    } else {
      assert r == AddEquipment(st, cols, row, key.value);
      SameLookups(EquipmentLookups(st.db, cols, row).0, r.db);
    }
  }

  /** Appending an equipment with a new serial and a name keeps the serial a
      non-NULL key and the name set. */
  lemma AppendEquipmentKeepsSerials(t: Table, e: Row)
    requires UniqueCol(t, Serial) && NotNullCol(t, Serial) && NotNullCol(t, NomeEquip)
    requires Col(e, Serial).Str? && !Has(t, Serial, Col(e, Serial)) && Col(e, NomeEquip).Str?
    ensures UniqueCol(t + [e], Serial) && NotNullCol(t + [e], Serial) && NotNullCol(t + [e], NomeEquip)
  {
    var r := t + [e];
    AppendKeepsUnique(t, e, Serial);
    forall i | 0 <= i < |r|
      ensures Col(r[i], Serial) != Null && Col(r[i], NomeEquip) != Null
    {
      if i < |t| {
        assert r[i] == t[i];
      }
    }
  }

  /** An equipment row keeps the serial a non-NULL key and the name set. */
  lemma EquipmentStepKeepsSerials(st: Progress, cols: seq<string>, row: seq<Cell>, index: nat)
    requires UniqueCol(st.db.equipamentos, Serial) && NotNullCol(st.db.equipamentos, Serial)
    requires NotNullCol(st.db.equipamentos, NomeEquip)
    ensures var r := EquipmentStep(st, cols, row, index).db.equipamentos;
            && UniqueCol(r, Serial) && NotNullCol(r, Serial) && NotNullCol(r, NomeEquip)
            && st.db.equipamentos <= r
            && |r| == |st.db.equipamentos| + (EquipmentStep(st, cols, row, index).importados - st.importados)
  {
    var r := EquipmentStep(st, cols, row, index);
    var key := KeyText(cols, row, SerialNames);
    if Blank(key) {
      assert r == Fail(st, index, SerialObrigatorio);
    } else if Has(st.db.equipamentos, Serial, Str(key.value)) {
      assert r == Fail(st, index, EquipamentoExiste(key.value));
    } else {
      assert r == AddEquipment(st, cols, row, key.value);
      AppendEquipmentKeepsSerials(st.db.equipamentos, r.db.equipamentos[|st.db.equipamentos|]);
    }
  }

  /** The row loop over a sheet's rows, left to right; each row sees the
      rows added before it (the session flushes before every query). */
  function ImportEquipmentRows(db: Db, cols: seq<string>, rows: seq<seq<Cell>>): (r: Progress)
    ensures r.importados + r.erro == |rows|
    ensures |r.erros| == r.erro
    ensures ErrorsNumbered(r.erros, |rows|)
    decreases |rows|
  {
    if |rows| == 0 then Progress(db, 0, 0, [])
    else
      var st := ImportEquipmentRows(db, cols, rows[..|rows| - 1]);
      var r := EquipmentStep(st, cols, rows[|rows| - 1], |rows| - 1);
      ExtendNumbered(st, r, |rows| - 1);
      r
  }

  /** The serial column stays a key: imported serials are new and non-empty,
      also within one sheet; earlier rows and the other tables are untouched. */
  lemma {:induction false} ImportEquipmentKeepsSerials(db: Db, cols: seq<string>, rows: seq<seq<Cell>>)
    requires UniqueCol(db.equipamentos, Serial) && NotNullCol(db.equipamentos, Serial) && NotNullCol(db.equipamentos, NomeEquip)
    ensures var r := ImportEquipmentRows(db, cols, rows).db;
            && UniqueCol(r.equipamentos, Serial) && NotNullCol(r.equipamentos, Serial) && NotNullCol(r.equipamentos, NomeEquip)
            && db.equipamentos <= r.equipamentos
            && |r.equipamentos| == |db.equipamentos| + ImportEquipmentRows(db, cols, rows).importados
            && r.(lookups := map[], equipamentos := []) == db.(lookups := map[], equipamentos := [])
    decreases |rows|
  {
    if |rows| > 0 {
      var st := ImportEquipmentRows(db, cols, rows[..|rows| - 1]);
      ImportEquipmentKeepsSerials(db, cols, rows[..|rows| - 1]);
      EquipmentStepFrame(st, cols, rows[|rows| - 1], |rows| - 1);
      EquipmentStepKeepsSerials(st, cols, rows[|rows| - 1], |rows| - 1);
    }
  }

  /** Lookup values are created only when absent: no duplicate names arise. */
  lemma {:induction false} ImportEquipmentKeepsLookups(db: Db, cols: seq<string>, rows: seq<seq<Cell>>)
    requires LookupsValid(db)
    ensures LookupsValid(ImportEquipmentRows(db, cols, rows).db)
    decreases |rows|
  {
    if |rows| > 0 {
      ImportEquipmentKeepsLookups(db, cols, rows[..|rows| - 1]);
      EquipmentStepFrame(ImportEquipmentRows(db, cols, rows[..|rows| - 1]), cols, rows[|rows| - 1], |rows| - 1);
    }
  }

  /** Error rows are numbered `index + 2`, in sheet order. */
  predicate ErrorsNumbered(es: seq<RowError>, n: nat) {
    && (forall i :: 0 <= i < |es| ==> 2 <= es[i].linha <= n + 1)
    && (forall i, j :: 0 <= i < j < |es| ==> es[i].linha < es[j].linha)
  }

  /** A step past row `n` keeps the error list numbered, now within the
      first `n + 1` rows. */
  lemma ExtendNumbered(st: Progress, r: Progress, n: nat)
    requires ErrorsNumbered(st.erros, n) && Advances(st, r, n)
    ensures ErrorsNumbered(r.erros, n + 1)
  {
    assert forall i :: 0 <= i < |st.erros| ==> r.erros[i] == st.erros[i];
  }


  // ---------------------------------------------------------------------------
  // Measurement points

  const TagPontoCol := "tag_ponto_medicao"
  const NomePontoCol := "nome_ponto_medicao"
  const PoloCol := "polo"
  const ClassificacaoCol := "classificacao"
  const UltimaCal := "data_ultima_calibracao"
  const Frequencia := "frequencia_calibracao_anp"

  /** The point name, `'Ponto <tag>'` when empty or "nan". */
  function PointName(nome: string, tag: string): string {
    if nome == "" || nome == "nan" then "Ponto " + tag else nome
  }

  /** `str(row[c])` when filled, else NULL; `strip` only where the source strips. */
  function FilledText(cols: seq<string>, row: seq<Cell>, name: string, strip: bool): Value {
    if Filled(cols, row, name) then
      Str(if strip then PyStrip(CellOf(cols, row, name).text) else CellOf(cols, row, name).text)
    else Null
  }

  function LookupColumn(db: Db, k: LookupKind, cols: seq<string>, row: seq<Cell>, name: string): (r: (Db, Value))
    ensures !Filled(cols, row, name) ==> r == (db, Null)
    ensures Filled(cols, row, name) ==> r == GetOrCreate(db, k, PyStrip(CellOf(cols, row, name).text))
    ensures LookupsValid(db) ==> LookupsValid(r.0)
    ensures r.0.(lookups := map[]) == db.(lookups := map[])
  {
    if Filled(cols, row, name) then
      GetOrCreateKeepsLookups(db, k, PyStrip(CellOf(cols, row, name).text));
      GetOrCreate(db, k, PyStrip(CellOf(cols, row, name).text))
    else (db, Null)
  }

  /** The polo and the classification of a row, found or created in turn. */
  function PointLookups(db: Db, cols: seq<string>, row: seq<Cell>): (r: (Db, Value, Value))
    ensures LookupsValid(db) ==> LookupsValid(r.0)
    ensures r.0.(lookups := map[]) == db.(lookups := map[])
  {
    var (db1, polo) := LookupColumn(db, Polos, cols, row, PoloCol);
    var (db2, cls) := LookupColumn(db1, Classificacoes, cols, row, ClassificacaoCol);
    (db2, polo, cls)
  }

  /** `int(row['frequencia_calibracao_anp'])` raises. */
  predicate BadFrequency(cols: seq<string>, row: seq<Cell>) {
    Filled(cols, row, Frequencia) && CellOf(cols, row, Frequencia).asInt.None?
  }

  /** The inserted point: id, tag, name, lookups, equipment reference, the
      two dates as given and the frequency. */
  function PointRow(id: int, tag: string, nome: string, polo: Value, cls: Value, cols: seq<string>, row: seq<Cell>): (e: Row)
    requires !BadFrequency(cols, row)
    ensures Col(e, Id) == Int(id) && Col(e, TagPonto) == Str(tag) && Col(e, NomePonto) == Str(nome)
    ensures Col(e, PoloId) == polo && Col(e, ClassificacaoId) == cls
    ensures Col(e, SerialRef) == FilledText(cols, row, SerialRef, true)
    ensures Col(e, ProximaCal) == FilledText(cols, row, ProximaCal, false)
  {
    var freq := if Filled(cols, row, Frequencia) then Int(CellOf(cols, row, Frequencia).asInt.value) else Null;
    map[
      Id := Int(id),
      TagPonto := Str(tag),
      NomePonto := Str(nome),
      PoloId := polo,
      ClassificacaoId := cls,
      SerialRef := FilledText(cols, row, SerialRef, true),
      UltimaCal := FilledText(cols, row, UltimaCal, false),
      ProximaCal := FilledText(cols, row, ProximaCal, false),
      Frequencia := freq]
  }

  /** The accepting half of a point row, given the store after its lookups. */
  function AddPoint(st: Progress, db: Db, tag: string, nome: string, polo: Value, cls: Value, cols: seq<string>, row: seq<Cell>): (r: Progress)
    requires !BadFrequency(cols, row)
    ensures r.importados == st.importados + 1 && r.erro == st.erro && r.erros == st.erros
    ensures |r.db.pontos| == |db.pontos| + 1
    ensures r.db.pontos == db.pontos + [r.db.pontos[|db.pontos|]]
    ensures var e := r.db.pontos[|db.pontos|];
            && Col(e, Id) == Int(NextId(db.pontos)) && Col(e, TagPonto) == Str(tag) && Col(e, NomePonto) == Str(nome)
    ensures r.db.(pontos := []) == db.(pontos := [])
  {
    var e := PointRow(NextId(db.pontos), tag, nome, polo, cls, cols, row);
    Progress(db.(pontos := db.pontos + [e]), st.importados + 1, st.erro, st.erros)
  }

  /** A row whose tag is new: the polo and the classification are found or
      created first, and only then is the frequency converted, so a row whose
      conversion fails still leaves those lookups behind. */
  function AcceptPoint(st: Progress, cols: seq<string>, row: seq<Cell>, index: nat, tag: string): (r: Progress)
    ensures Advances(st, r, index)
    ensures r.db.lookups == PointLookups(st.db, cols, row).0.lookups
    ensures r.db.(lookups := map[], pontos := []) == st.db.(lookups := map[], pontos := [])
    ensures BadFrequency(cols, row) ==>
              r.importados == st.importados && r.db.pontos == st.db.pontos
              && r.erros[|st.erros|] == RowError(index + 2, ValorInvalido)
    ensures !BadFrequency(cols, row) ==>
              && r.importados == st.importados + 1 && |r.db.pontos| == |st.db.pontos| + 1
              && r.db.pontos == st.db.pontos + [r.db.pontos[|st.db.pontos|]]
              && Col(r.db.pontos[|st.db.pontos|], Id) == Int(NextId(st.db.pontos))
              && Col(r.db.pontos[|st.db.pontos|], TagPonto) == Str(tag)
              && Col(r.db.pontos[|st.db.pontos|], NomePonto) == Str(PointName(PyStrip(GetText(cols, row, NomePontoCol)), tag))
  {
    var lk := PointLookups(st.db, cols, row);
    assert lk.0.pontos == st.db.pontos;
    if BadFrequency(cols, row) then Fail(st.(db := lk.0), index, ValorInvalido)
    else
      var r := AddPoint(st, lk.0, tag, PointName(PyStrip(GetText(cols, row, NomePontoCol)), tag), lk.1, lk.2, cols, row);
      Accepted(st, r, index);
      r
  }

  /** One row of `importar_pontos_medicao`: a blank or "nan" tag, or one
      already stored (or added by an earlier row), is an error and adds
      nothing. */
  function PointStep(st: Progress, cols: seq<string>, row: seq<Cell>, index: nat): (r: Progress)
    ensures Advances(st, r, index)
  {
    var tag := PyStrip(GetText(cols, row, TagPontoCol));
    if tag == "" || tag == "nan" then Fail(st, index, TagObrigatoria)
    else if Has(st.db.pontos, TagPonto, Str(tag)) then Fail(st, index, PontoExiste(tag))
    else AcceptPoint(st, cols, row, index, tag)
  }

  /** One point row changes only the points and the lookup tables, and adds
      no duplicate lookup name. */
  lemma PointStepFrame(st: Progress, cols: seq<string>, row: seq<Cell>, index: nat)
    ensures var r := PointStep(st, cols, row, index);
            && r.db.(lookups := map[], pontos := []) == st.db.(lookups := map[], pontos := [])
            && (LookupsValid(st.db) ==> LookupsValid(r.db))
  {
    var r := PointStep(st, cols, row, index);
    var tag := PyStrip(GetText(cols, row, TagPontoCol));
    if tag == "" || tag == "nan" {
      assert r == Fail(st, index, TagObrigatoria);
    } else if Has(st.db.pontos, TagPonto, Str(tag)) {
      assert r == Fail(st, index, PontoExiste(tag));
    } else {
      assert r == AcceptPoint(st, cols, row, index, tag);
      SameLookups(PointLookups(st.db, cols, row).0, r.db);
    }
  }

  /** A point with a fresh id, a new tag and a name keeps the point table valid. */
  lemma AppendPointKeepsValid(t: Table, e: Row)
    requires PontosValid(t)
    requires Col(e, Id) == Int(NextId(t)) && Col(e, TagPonto).Str? && !Has(t, TagPonto, Col(e, TagPonto))
    requires Col(e, NomePonto).Str?
    ensures PontosValid(t + [e])
  {
    var r := t + [e];
    assert !Has(t, Id, Col(e, Id));
    AppendKeepsUnique(t, e, Id);
    AppendKeepsUnique(t, e, TagPonto);
    forall i | 0 <= i < |r|
      ensures Col(r[i], Id).Int? && Col(r[i], TagPonto) != Null && Col(r[i], NomePonto) != Null
    {
      if i < |t| {
        assert r[i] == t[i];
      }
    }
  }

  /** A point row keeps the point table's key, uniqueness and NOT NULL rules. */
  lemma PointStepKeepsPontos(st: Progress, cols: seq<string>, row: seq<Cell>, index: nat)
    requires PontosValid(st.db.pontos)
    ensures PontosValid(PointStep(st, cols, row, index).db.pontos)
  {
    var r := PointStep(st, cols, row, index);
    var tag := PyStrip(GetText(cols, row, TagPontoCol));
    if tag == "" || tag == "nan" {
      assert r == Fail(st, index, TagObrigatoria);
    } else if Has(st.db.pontos, TagPonto, Str(tag)) {
      assert r == Fail(st, index, PontoExiste(tag));
    } else {
      assert r == AcceptPoint(st, cols, row, index, tag);
      if !BadFrequency(cols, row) {
        AppendPointKeepsValid(st.db.pontos, r.db.pontos[|st.db.pontos|]);
      }
    }
  }

  /** The row loop of the point import; errors are numbered by sheet row. */
  function ImportPointRows(db: Db, cols: seq<string>, rows: seq<seq<Cell>>): (r: Progress)
    ensures r.importados + r.erro == |rows|
    ensures |r.erros| == r.erro
    ensures ErrorsNumbered(r.erros, |rows|)
    decreases |rows|
  {
    if |rows| == 0 then Progress(db, 0, 0, [])
    else
      var st := ImportPointRows(db, cols, rows[..|rows| - 1]);
      var r := PointStep(st, cols, rows[|rows| - 1], |rows| - 1);
      ExtendNumbered(st, r, |rows| - 1);
      r
  }

  /** The point table stays valid (tags are new, ids fresh, names set), no
      lookup gains a duplicate name, and the other tables are untouched. */
  lemma {:induction false} ImportPointsKeepsValid(db: Db, cols: seq<string>, rows: seq<seq<Cell>>)
    requires PontosValid(db.pontos) && LookupsValid(db)
    ensures var r := ImportPointRows(db, cols, rows).db;
            && PontosValid(r.pontos) && LookupsValid(r)
            && r.(lookups := map[], pontos := []) == db.(lookups := map[], pontos := [])
    decreases |rows|
  {
    if |rows| > 0 {
      var st := ImportPointRows(db, cols, rows[..|rows| - 1]);
      ImportPointsKeepsValid(db, cols, rows[..|rows| - 1]);
      PointStepFrame(st, cols, rows[|rows| - 1], |rows| - 1);
      PointStepKeepsPontos(st, cols, rows[|rows| - 1], |rows| - 1);
    }
  }

  // ---------------------------------------------------------------------------
  // Requests

  /** The multipart upload: no `file` part, or a file name and the sheet read
      from it (None when the spreadsheet library cannot read it). */
  datatype Upload = NoFile | Upload(filename: string, sheet: Option<Sheet>)

  datatype ImportReply = ImportReply(status: int, db: Db, importados: nat, erro: nat, erros: seq<RowError>)

  predicate EndsWith(s: string, suffix: string) {
    |suffix| <= |s| && s[|s| - |suffix|..] == suffix
  }

  /** The checks made before any row is read. */
  predicate AcceptedUpload(u: Upload) {
    u.Upload? && u.filename != "" && (EndsWith(u.filename, ".xlsx") || EndsWith(u.filename, ".xls"))
  }

  /** The final commit: all rows or, on a constraint violation, none (500);
      only the first ten errors are reported. */
  function Finish(db: Db, st: Progress): (r: ImportReply)
    ensures Valid(st.db) ==> r == ImportReply(200, st.db, st.importados, st.erro, Take(st.erros, 10))
    ensures !Valid(st.db) ==> r.status == 500 && r.db == db
  {
    if Valid(st.db) then ImportReply(200, st.db, st.importados, st.erro, Take(st.erros, 10))
    else ImportReply(500, db, 0, 0, [])
  }

  /** `importar_equipamentos`. */
  function ImportarEquipamentos(db: Db, u: Upload): (r: ImportReply)
    ensures !AcceptedUpload(u) ==> r.status == 400 && r.db == db
    ensures AcceptedUpload(u) && u.sheet.None? ==> r.status == 500 && r.db == db
    ensures r.status == 200 ==>
              && AcceptedUpload(u) && u.sheet.Some?
              && r.importados + r.erro == |u.sheet.value.rows|
              && |r.erros| == Min10(r.erro) && Valid(r.db)
    ensures r.status != 200 ==> r.db == db
  {
    if !AcceptedUpload(u) then ImportReply(400, db, 0, 0, [])
    else if u.sheet.None? then ImportReply(500, db, 0, 0, [])
    else Finish(db, ImportEquipmentRows(db, Columns(u.sheet.value.headers), u.sheet.value.rows))
  }

  function Min10(n: nat): nat {
    if n < 10 then n else 10
  }

  /** `importar_pontos_medicao`. */
  function ImportarPontos(db: Db, u: Upload): (r: ImportReply)
    ensures !AcceptedUpload(u) ==> r.status == 400 && r.db == db
    ensures AcceptedUpload(u) && u.sheet.None? ==> r.status == 500 && r.db == db
    ensures r.status == 200 ==>
              && AcceptedUpload(u) && u.sheet.Some?
              && r.importados + r.erro == |u.sheet.value.rows|
              && |r.erros| == Min10(r.erro) && Valid(r.db)
    ensures r.status != 200 ==> r.db == db
  {
    if !AcceptedUpload(u) then ImportReply(400, db, 0, 0, [])
    else if u.sheet.None? then ImportReply(500, db, 0, 0, [])
    else Finish(db, ImportPointRows(db, Columns(u.sheet.value.headers), u.sheet.value.rows))
  }

  /** On a valid store the point import of a readable sheet always commits:
      every row it adds satisfies the point table's constraints. */
  lemma ImportarPontosCommits(db: Db, u: Upload)
    requires Valid(db) && AcceptedUpload(u) && u.sheet.Some?
    ensures ImportarPontos(db, u).status == 200
  {
    var cols := Columns(u.sheet.value.headers);
    var rows := u.sheet.value.rows;
    ImportPointsKeepsValid(db, cols, rows);
    var r := ImportPointRows(db, cols, rows).db;
    assert r.equipamentos == db.equipamentos && r.certificados == db.certificados;
    assert r.placas == db.placas && r.trechos == db.trechos;
    assert r.eventosTeste == db.eventosTeste && r.eventosAnalise == db.eventosAnalise;
  }

  /** On a valid store the equipment import of a readable sheet commits
      exactly when the imported tags collide neither with each other nor with
      stored ones: the tag is the one column the loop does not check. */
  lemma ImportarEquipamentosCommits(db: Db, u: Upload)
    requires Valid(db) && AcceptedUpload(u) && u.sheet.Some?
    ensures ImportarEquipamentos(db, u).status == 200 <==>
            UniqueCol(ImportEquipmentRows(db, Columns(u.sheet.value.headers), u.sheet.value.rows).db.equipamentos, TagEquip)
  {
    var cols := Columns(u.sheet.value.headers);
    var rows := u.sheet.value.rows;
    ImportEquipmentKeepsSerials(db, cols, rows);
    ImportEquipmentKeepsLookups(db, cols, rows);
    var r := ImportEquipmentRows(db, cols, rows).db;
    assert r.pontos == db.pontos && r.certificados == db.certificados;
    assert r.placas == db.placas && r.trechos == db.trechos;
    assert r.eventosTeste == db.eventosTeste && r.eventosAnalise == db.eventosAnalise;
  }

  // ---------------------------------------------------------------------------
  // Templates and exports

  const EquipmentTemplate: seq<string> := [
    "numero_serie", "tag_equipamento", "nome_equipamento", "fabricante", "tipo_equipamento",
    "resolucao", "faixa_minima_equipamento", "faixa_maxima_equipamento"]

  const EquipmentExport: seq<string> := [
    "N\U{FA}mero de S\U{E9}rie", "TAG Equipamento", "Nome Equipamento", "Fabricante", "Tipo Equipamento",
    "Unidade", "Resolu\U{E7}\U{E3}o", "Faixa M\U{ED}nima", "Faixa M\U{E1}xima"]

  const PointTemplate: seq<string> := [
    "tag_ponto_medicao", "nome_ponto_medicao", "polo", "classificacao", "numero_serie_equipamento",
    "data_ultima_calibracao", "data_proxima_calibracao", "frequencia_calibracao_anp"]

  const PointExport: seq<string> := [
    "TAG Ponto Medi\U{E7}\U{E3}o", "Nome Ponto Medi\U{E7}\U{E3}o", "Polo", "Classifica\U{E7}\U{E3}o",
    "N\U{FA}mero S\U{E9}rie Equipamento", "Data \U{DA}ltima Calibra\U{E7}\U{E3}o",
    "Data Pr\U{F3}xima Calibra\U{E7}\U{E3}o", "Frequ\U{EA}ncia Calibra\U{E7}\U{E3}o ANP (dias)"]

  /** Header `i` of a sheet normalises to `n` when its characters lower-case
      to those of `n` and `n` has no surrounding white space. */
  lemma HeaderAt(headers: seq<string>, i: nat, n: string)
    requires i < |headers| && |headers[i]| == |n| && (forall j :: 0 <= j < |n| ==> LowerChar(headers[i][j]) == n[j])
    requires |n| > 0 && !IsPySpace(n[0]) && !IsPySpace(n[|n| - 1])
    ensures Columns(headers)[i] == n
  {
    NormHeaderLower(headers[i], n);
  }

  // One lemma per header keeps each literal computation in its own proof.

  lemma EquipmentTemplateKeySerial()
    ensures Columns(EquipmentTemplate)[0] == SerialNames[1]
  {
    HeaderAt(EquipmentTemplate, 0, SerialNames[1]);
  }

  lemma EquipmentTemplateKeyTag()
    ensures Columns(EquipmentTemplate)[1] == TagNames[1]
  {
    HeaderAt(EquipmentTemplate, 1, TagNames[1]);
  }

  lemma EquipmentTemplateKeyName()
    ensures Columns(EquipmentTemplate)[2] == NameNames[1]
  {
    HeaderAt(EquipmentTemplate, 2, NameNames[1]);
  }

  lemma EquipmentTemplateKeyFabricante()
    ensures Columns(EquipmentTemplate)[3] == FabricanteNames[0]
  {
    HeaderAt(EquipmentTemplate, 3, FabricanteNames[0]);
  }

  lemma EquipmentTemplateKeyTipo()
    ensures Columns(EquipmentTemplate)[4] == TipoNames[1]
  {
    HeaderAt(EquipmentTemplate, 4, TipoNames[1]);
  }

  lemma EquipmentExportKeySerial()
    ensures Columns(EquipmentExport)[0] == SerialNames[0]
  {
    HeaderAt(EquipmentExport, 0, SerialNames[0]);
  }

  lemma EquipmentExportKeyTag()
    ensures Columns(EquipmentExport)[1] == TagNames[0]
  {
    HeaderAt(EquipmentExport, 1, TagNames[0]);
  }

  lemma EquipmentExportKeyName()
    ensures Columns(EquipmentExport)[2] == NameNames[0]
  {
    HeaderAt(EquipmentExport, 2, NameNames[0]);
  }

  lemma EquipmentExportKeyFabricante()
    ensures Columns(EquipmentExport)[3] == FabricanteNames[0]
  {
    HeaderAt(EquipmentExport, 3, FabricanteNames[0]);
  }

  lemma EquipmentExportKeyTipo()
    ensures Columns(EquipmentExport)[4] == TipoNames[0]
  {
    HeaderAt(EquipmentExport, 4, TipoNames[0]);
  }

  lemma PointTemplateKeyTag()
    ensures Columns(PointTemplate)[0] == TagPontoCol
  {
    HeaderAt(PointTemplate, 0, TagPontoCol);
  }

  lemma PointTemplateKeyNome()
    ensures Columns(PointTemplate)[1] == NomePontoCol
  {
    HeaderAt(PointTemplate, 1, NomePontoCol);
  }

  lemma PointTemplateKeyPolo()
    ensures Columns(PointTemplate)[2] == PoloCol
  {
    HeaderAt(PointTemplate, 2, PoloCol);
  }

  lemma PointTemplateKeyClassificacao()
    ensures Columns(PointTemplate)[3] == ClassificacaoCol
  {
    HeaderAt(PointTemplate, 3, ClassificacaoCol);
  }

  lemma PointTemplateKeySerialRef()
    ensures Columns(PointTemplate)[4] == SerialRef
  {
    HeaderAt(PointTemplate, 4, SerialRef);
  }

  lemma PointTemplateKeyUltimaCal()
    ensures Columns(PointTemplate)[5] == UltimaCal
  {
    HeaderAt(PointTemplate, 5, UltimaCal);
  }

  lemma PointTemplateKeyProximaCal()
    ensures Columns(PointTemplate)[6] == ProximaCal
  {
    HeaderAt(PointTemplate, 6, ProximaCal);
  }

  lemma PointTemplateKeyFrequencia()
    ensures Columns(PointTemplate)[7] == Frequencia
  {
    HeaderAt(PointTemplate, 7, Frequencia);
  }

  /** A sheet made from the equipment template holds, after normalisation,
      a synonym of serial, tag, name, manufacturer and type (the resolution
      and range columns are read by nobody). */
  lemma EquipmentTemplateRecognised()
    ensures var cols := Columns(EquipmentTemplate);
            && SerialNames[1] in cols && TagNames[1] in cols && NameNames[1] in cols
            && FabricanteNames[0] in cols && TipoNames[1] in cols
    ensures FirstPresent(Columns(EquipmentTemplate), SerialNames).Some?
  {
    EquipmentTemplateKeySerial();
    EquipmentTemplateKeyTag();
    EquipmentTemplateKeyName();
    EquipmentTemplateKeyFabricante();
    EquipmentTemplateKeyTipo();
  }

  /** An equipment export, once lower-cased, holds the first synonym of
      every column the importer knows. */
  lemma EquipmentExportRecognised()
    ensures var cols := Columns(EquipmentExport);
            && SerialNames[0] in cols && TagNames[0] in cols && NameNames[0] in cols
            && FabricanteNames[0] in cols && TipoNames[0] in cols
    ensures FirstPresent(Columns(EquipmentExport), SerialNames) == Some(SerialNames[0])
  {
    EquipmentExportKeySerial();
    EquipmentExportKeyTag();
    EquipmentExportKeyName();
    EquipmentExportKeyFabricante();
    EquipmentExportKeyTipo();
  }

  /** Every key the point importer reads is a column of its template. */
  lemma PointTemplateRecognised()
    ensures var cols := Columns(PointTemplate);
            && TagPontoCol in cols && NomePontoCol in cols && PoloCol in cols && ClassificacaoCol in cols
            && SerialRef in cols && UltimaCal in cols && ProximaCal in cols && Frequencia in cols
  {
    PointTemplateKeyTag();
    PointTemplateKeyNome();
    PointTemplateKeyPolo();
    PointTemplateKeyClassificacao();
    PointTemplateKeySerialRef();
    PointTemplateKeyUltimaCal();
    PointTemplateKeyProximaCal();
    PointTemplateKeyFrequencia();
  }

  /** A header without an underscore normalises to one without. */
  lemma NormHeaderNoUnderscore(h: string)
    requires '_' !in h
    ensures '_' !in NormHeader(h)
  {
    var l := Lower(h);
    assert '_' !in l by {
      forall i | 0 <= i < |l| ensures l[i] != '_' {
        assert h[i] in h;
      }
    }
    var t := TrimStart(l, IsPySpace);
    assert forall i :: 0 <= i < |t| ==> t[i] == l[|l| - |t| + i];
    var u := TrimEnd(t, IsPySpace);
    assert forall i :: 0 <= i < |u| ==> u[i] == t[i];
  }

  lemma PointExportNoUnderscoreLow(i: nat)
    requires i < 4
    ensures '_' !in Columns(PointExport)[i]
  {
    NormHeaderNoUnderscore(PointExport[i]);
  }

  lemma PointExportNoUnderscoreHigh(i: nat)
    requires 4 <= i < |PointExport|
    ensures '_' !in Columns(PointExport)[i]
  {
    NormHeaderNoUnderscore(PointExport[i]);
  }

  /** The tag key has an underscore, so no underscore-free column is it. */
  lemma NoTagWithoutUnderscore(cols: seq<string>)
    requires forall i :: 0 <= i < |cols| ==> '_' !in cols[i]
    ensures TagPontoCol !in cols
  {
    assert TagPontoCol[3] == '_';
  }

  lemma PointExportUnderscoreFree()
    ensures forall i :: 0 <= i < |Columns(PointExport)| ==> '_' !in Columns(PointExport)[i]
  {
    forall i | 0 <= i < |Columns(PointExport)| ensures '_' !in Columns(PointExport)[i] {
      if i < 4 {
        PointExportNoUnderscoreLow(i);
      } else {
        PointExportNoUnderscoreHigh(i);
      }
    }
  }

  /** None of the point export's headers becomes the tag key. */
  lemma PointExportLacksTag()
    ensures TagPontoCol !in Columns(PointExport)
  {
    PointExportUnderscoreFree();
    NoTagWithoutUnderscore(Columns(PointExport));
  }

  /** A sheet without the tag column imports nothing: every row is reported
      as lacking its tag and the store is left as it was. */
  lemma {:induction false} MissingTagColumn(db: Db, cols: seq<string>, rows: seq<seq<Cell>>)
    requires TagPontoCol !in cols
    ensures var r := ImportPointRows(db, cols, rows);
            && r.importados == 0 && r.erro == |rows| && r.db == db
            && forall i :: 0 <= i < |r.erros| ==> r.erros[i] == RowError(i + 2, TagObrigatoria)
    decreases |rows|
  {
    if |rows| > 0 {
      var st := ImportPointRows(db, cols, rows[..|rows| - 1]);
      MissingTagColumn(db, cols, rows[..|rows| - 1]);
      assert GetText(cols, rows[|rows| - 1], TagPontoCol) == "";
      assert ImportPointRows(db, cols, rows) == Fail(st, |rows| - 1, TagObrigatoria);
    }
  }

  /** A point export does not import back: read as a sheet, every row is
      reported as lacking its tag and nothing is stored. */
  lemma PointExportNotReimportable(db: Db, rows: seq<seq<Cell>>)
    ensures var r := ImportPointRows(db, Columns(PointExport), rows);
            && r.importados == 0 && r.erro == |rows| && r.db == db
  {
    PointExportLacksTag();
    MissingTagColumn(db, Columns(PointExport), rows);
  }

  /** The point export as the importer reads it: headed by the same keys as
      the point template. */
  const PointExportKeys: seq<string> := PointTemplate

  /** A row holding only a tag that is not blank and not yet stored is
      imported by any sheet whose first column is the tag key. */
  lemma TaggedRowImported(db: Db, cols: seq<string>, t: string, a: Option<int>)
    requires |cols| > 0 && cols[0] == TagPontoCol
    requires PyStrip(t) != "" && PyStrip(t) != "nan" && !Has(db.pontos, TagPonto, Str(PyStrip(t)))
    ensures ImportPointRows(db, cols, [[Cell.Filled(t, a)]]).importados == 1
  {
    var row := [Cell.Filled(t, a)];
    var st := Progress(db, 0, 0, []);
    assert [row][..0] == [];
    assert ImportPointRows(db, cols, [row]) == PointStep(st, cols, row, 0);
    assert IndexOf(cols, TagPontoCol) == Some(0);
    assert GetText(cols, row, TagPontoCol) == t;
    assert !BadFrequency(cols, row) by {
      match IndexOf(cols, Frequencia)
      case None =>
      case Some(k) =>
        assert cols[k] == Frequencia;
        assert Frequencia[0] != TagPontoCol[0];
        assert k != 0;
    }
    assert PointStep(st, cols, row, 0) == AcceptPoint(st, cols, row, 0, PyStrip(t));
  }

  /** With the importer's keys as headers the export reads back: such a
      row is imported, where the export as written stores nothing. */
  lemma PointExportKeysReimportable(db: Db, t: string, a: Option<int>)
    requires PyStrip(t) != "" && PyStrip(t) != "nan" && !Has(db.pontos, TagPonto, Str(PyStrip(t)))
    ensures ImportPointRows(db, Columns(PointExportKeys), [[Cell.Filled(t, a)]]).importados == 1
    ensures ImportPointRows(db, Columns(PointExport), [[Cell.Filled(t, a)]]).importados == 0
  {
    PointTemplateKeyTag();
    TaggedRowImported(db, Columns(PointExportKeys), t, a);
    PointExportNotReimportable(db, [[Cell.Filled(t, a)]]);
  }

  /** Normalising a header whose lower-case form `n` has no surrounding
      white space gives `n`. */
  lemma NormHeaderLower(h: string, n: string)
    requires |h| == |n| && forall i :: 0 <= i < |h| ==> LowerChar(h[i]) == n[i]
    requires |n| > 0 && !IsPySpace(n[0]) && !IsPySpace(n[|n| - 1])
    ensures NormHeader(h) == n
  {
    assert Lower(h) == n;
  }
}
