/** The start-up seeding of the reference lists (`insert_initial_data`):
    when no manufacturer exists, nine fixed lists of names are added to
    their tables and committed together; a failing commit rolls all of
    them back. */
module Seed {
  import opened Seqs
  import opened Values
  import opened Store

  const FabricantesIniciais: seq<string> :=
    ["Emerson", "Honeywell", "Yokogawa", "Endress+Hauser", "ABB", "Siemens", "Schneider Electric", "Krohne"]

  const TiposIniciais: seq<string> :=
    [ "Medidor de Vazão", "Transmissor de Pressão", "Transmissor de Temperatura", "Medidor Ultrassônico"
    , "Placa de Orifício", "Trecho Reto", "Computador de Vazão", "Densímetro", "Cromatógrafo"]

  const PolosIniciais: seq<string> := ["Polo Norte", "Polo Sul", "Polo Leste", "Polo Oeste"]

  const UnidadesIniciais: seq<string> :=
    ["°C", "bar", "m³/h", "kg/m³", "Pa", "kPa", "MPa", "L/min", "m³/s", "kg/h", "%", "ppm", "V", "mA"]

  const ClassificacoesIniciais: seq<string> :=
    ["Fiscal", "Operacional", "Transferência de Custódia", "Alocação", "Controle de Processo"]

  const NaturezasIniciais: seq<string> :=
    ["Petróleo", "Gás Natural", "Água Produzida", "Condensado", "GLP", "Óleo Combustível"]

  const StatusIniciais: seq<string> :=
    ["Vigente", "Vencido", "Aprovado", "Reprovado", "Pendente", "Em Análise", "Cancelado"]

  const ServicosIniciais: seq<string> :=
    ["Calibração", "Verificação", "Manutenção", "Inspeção", "Análise de Incerteza", "Validação"]

  const CriteriosIniciais: seq<string> :=
    ["±0.1%", "±0.2%", "±0.5%", "±1.0%", "±2.0%", "Conforme Norma", "Especificação do Fabricante"]

  /** The names seeded into each list; models and installations get none. */
  function SeedNames(k: LookupKind): seq<string> {
    match k
    case Fabricantes => FabricantesIniciais
    case TiposEquipamento => TiposIniciais
    case Polos => PolosIniciais
    case Unidades => UnidadesIniciais
    case Classificacoes => ClassificacoesIniciais
    case Naturezas => NaturezasIniciais
    case StatusCertificado => StatusIniciais
    case Servicos => ServicosIniciais
    case Criterios => CriteriosIniciais
    case Modelos => []
    case Instalacoes => []
  }

  /** `db.session.add(...)` for each name in turn: each row takes the next rowid. */
  function AddNames(t: Table, names: seq<string>): (r: Table)
    ensures |r| == |t| + |names|
    ensures r[..|t|] == t
    ensures forall i :: 0 <= i < |names| ==> Col(r[|t| + i], Nome) == Str(names[i])
    decreases |names|
  {
    if |names| == 0 then t
    else
      var t' := t + [LookupEntry(NextId(t), names[0])];
      var r := AddNames(t', names[1..]);
      assert r[..|t|] == r[..|t'|][..|t|];
      assert Col(r[|t|], Nome) == Col(t'[|t|], Nome);
      assert forall i :: 1 <= i < |names| ==> r[|t| + i] == r[|t'| + (i - 1)] && names[i] == names[1..][i - 1];
      r
  }

  /** The database with every list extended by its seed names, before the commit. */
  function Seeded(db: Db): (r: Db)
    ensures forall k :: Lookup(r, k) == AddNames(Lookup(db, k), SeedNames(k))
    ensures r.(lookups := map[]) == db.(lookups := map[])
  {
    var r := db.(lookups := map k | k in AllKinds :: AddNames(Lookup(db, k), SeedNames(k)));
    forall k ensures Lookup(r, k) == AddNames(Lookup(db, k), SeedNames(k)) {
      EveryKind(k);
    }
    r
  }

  const AllKinds: set<LookupKind> :=
    {Fabricantes, Modelos, TiposEquipamento, Polos, Instalacoes, Unidades,
     Classificacoes, Naturezas, StatusCertificado, Servicos, Criterios}

  lemma EveryKind(k: LookupKind)
    ensures k in AllKinds
  {
    match k
    case Fabricantes =>
    case Modelos =>
    case TiposEquipamento =>
    case Polos =>
    case Instalacoes =>
    case Unidades =>
    case Classificacoes =>
    case Naturezas =>
    case StatusCertificado =>
    case Servicos =>
    case Criterios =>
  }

  /** `insert_initial_data`: nothing happens when a manufacturer exists;
      otherwise every seed list is added and committed at once, and a
      commit that breaks a constraint leaves the database as it was. */
  function InsertInitialData(db: Db): (r: Db)
    ensures |Lookup(db, Fabricantes)| > 0 ==> r == db
    ensures r == db || r == Seeded(db)
    ensures Valid(db) ==> Valid(r)
    ensures r.(lookups := map[]) == db.(lookups := map[])
    ensures Lookup(r, Modelos) == Lookup(db, Modelos) && Lookup(r, Instalacoes) == Lookup(db, Instalacoes)
  {
    if |Lookup(db, Fabricantes)| > 0 then db
    else
      var after := Seeded(db);
      SeededSkips(db);
      if Valid(after) then after else db
  }

  /** Models and installations receive no seed rows. */
  lemma SeededSkips(db: Db)
    ensures Lookup(Seeded(db), Modelos) == Lookup(db, Modelos)
    ensures Lookup(Seeded(db), Instalacoes) == Lookup(db, Instalacoes)
  {
    assert SeedNames(Modelos) == [] && SeedNames(Instalacoes) == [];
  }

  // ---------------------------------------------------------------------------
  // Properties

  /** Seeding twice is seeding once: after a successful seed the guard
      finds manufacturers, and a rolled-back seed fails the same way again. */
  lemma SeedIdempotent(db: Db)
    ensures InsertInitialData(InsertInitialData(db)) == InsertInitialData(db)
  {
    var r := InsertInitialData(db);
    if r != db {
      assert Lookup(r, Fabricantes) == AddNames(Lookup(db, Fabricantes), FabricantesIniciais);
      assert |Lookup(r, Fabricantes)| > 0;
    }
  }

  /** No seed name is already in its list. */
  predicate NoClash(db: Db) {
    forall k, i :: 0 <= i < |SeedNames(k)| ==> !Has(Lookup(db, k), Nome, Str(SeedNames(k)[i]))
  }

  /** With no manufacturer yet, the seed is committed exactly when none of
      its names is already taken; the guard looks at the manufacturers
      only, so a single clash in another list rolls every list back. */
  lemma SeedCommits(db: Db)
    requires Valid(db) && |Lookup(db, Fabricantes)| == 0
    ensures InsertInitialData(db) == Seeded(db) <==> NoClash(db)
    ensures !NoClash(db) ==> InsertInitialData(db) == db
  {
    var after := Seeded(db);
    assert |Lookup(after, Fabricantes)| == |FabricantesIniciais| > 0;
    assert after != db;
    if NoClash(db) {
      forall k ensures LookupValid(Lookup(after, k)) {
        SeedListsDistinct(k);
        AddNamesValid(Lookup(db, k), SeedNames(k));
      }
      ValidWithLookups(db, after);
    } else {
      var k, i :| 0 <= i < |SeedNames(k)| && Has(Lookup(db, k), Nome, Str(SeedNames(k)[i]));
      ClashBreaksUnique(Lookup(db, k), SeedNames(k), i);
    }
  }

  /** Appending names that are pairwise different and new keeps a list valid. */
  lemma {:induction false} AddNamesValid(t: Table, names: seq<string>)
    requires LookupValid(t) && Distinct(names)
    requires forall i :: 0 <= i < |names| ==> !Has(t, Nome, Str(names[i]))
    ensures LookupValid(AddNames(t, names))
    decreases |names|
  {
    if |names| > 0 {
      var t' := t + [LookupEntry(NextId(t), names[0])];
      AppendEntryValid(t, names[0]);
      forall i | 0 <= i < |names[1..]|
        ensures !Has(t', Nome, Str(names[1..][i]))
      {
        assert names[1..][i] == names[i + 1] != names[0];
      }
      assert Distinct(names[1..]) by {
        assert forall a, b :: 0 <= a < b < |names[1..]| ==> names[1..][a] == names[a + 1] && names[1..][b] == names[b + 1];
      }
      AddNamesValid(t', names[1..]);
    }
  }

  /** A seed name already in the list makes the extended list break UNIQUE. */
  lemma ClashBreaksUnique(t: Table, names: seq<string>, i: nat)
    requires i < |names| && Has(t, Nome, Str(names[i]))
    ensures !UniqueCol(AddNames(t, names), Nome)
  {
    var r := AddNames(t, names);
    var j :| 0 <= j < |t| && Matches(t[j], Nome, Str(names[i]));
    assert r[j] == r[..|t|][j] == t[j];
    assert Col(r[j], Nome) == Str(names[i]) == Col(r[|t| + i], Nome);
  }

  /** Replacing only the reference lists by valid ones keeps the database valid. */
  lemma ValidWithLookups(db: Db, db': Db)
    requires Valid(db) && db'.(lookups := map[]) == db.(lookups := map[])
    requires forall k :: LookupValid(Lookup(db', k))
    ensures Valid(db')
  {
    assert db'.equipamentos == db.equipamentos && db'.pontos == db.pontos && db'.certificados == db.certificados;
    assert db'.placas == db.placas && db'.trechos == db.trechos;
    assert db'.eventosTeste == db.eventosTeste && db'.eventosAnalise == db.eventosAnalise;
  }

  /** On the empty database every list receives exactly its seed names, in order. */
  lemma SeedFromEmpty()
    ensures var r := InsertInitialData(EmptyDb);
            forall k :: |Lookup(r, k)| == |SeedNames(k)|
                     && forall i :: 0 <= i < |SeedNames(k)| ==> Col(Lookup(r, k)[i], Nome) == Str(SeedNames(k)[i])
  {
    EmptyValid();
    assert NoClash(EmptyDb);
    SeedCommits(EmptyDb);
  }

  lemma EmptyValid()
    ensures Valid(EmptyDb)
  {
  }

  /** None of the nine lists repeats a name. */
  lemma SeedListsDistinct(k: LookupKind)
    ensures Distinct(SeedNames(k))
  {
    match k
    case Fabricantes => FabricantesDistinct();
    case TiposEquipamento => TiposDistinct();
    case Polos => PolosDistinct();
    case Unidades => UnidadesDistinct();
    case Classificacoes => ClassificacoesDistinct();
    case Naturezas => NaturezasDistinct();
    case StatusCertificado => StatusDistinct();
    case Servicos => ServicosDistinct();
    case Criterios => CriteriosDistinct();
    case Modelos =>
    case Instalacoes =>
  }

  lemma FabricantesDistinct() ensures Distinct(FabricantesIniciais) {}
  lemma TiposDistinct() ensures Distinct(TiposIniciais) {}
  lemma PolosDistinct() ensures Distinct(PolosIniciais) {}
  lemma UnidadesDistinct() ensures Distinct(UnidadesIniciais) {}
  lemma ClassificacoesDistinct() ensures Distinct(ClassificacoesIniciais) {}
  lemma NaturezasDistinct() ensures Distinct(NaturezasIniciais) {}
  lemma StatusDistinct() ensures Distinct(StatusIniciais) {}
  lemma ServicosDistinct() ensures Distinct(ServicosIniciais) {}
  lemma CriteriosDistinct() ensures Distinct(CriteriosIniciais) {}
}
