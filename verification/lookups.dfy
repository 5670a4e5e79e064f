/** The reference lists (`/api/configuracoes`): create with a unique name
    for each of the nine editable lists, rename and delete of a
    manufacturer, the name-sorted listings and the combined `/todas` reply. */
module Lookups {
  import opened Wrappers
  import opened Seqs
  import opened Values
  import opened Store
  import opened Query
  import opened Text
  import Equipment

  /** The lists that have create and list endpoints; models and uncertainty
      services have none. */
  predicate Editable(k: LookupKind) {
    k !in {Modelos, Servicos}
  }

  /** The row a create inserts: the name, the installation's optional polo,
      each as its column stores it, and the next rowid. */
  function NewEntry(k: LookupKind, p: Payload, id: int): (r: Row)
    requires Nome in p
    ensures Col(r, Id) == Int(id) && Col(r, Nome) == Written(p, Nome)
    ensures Col(r, PoloId) == if k == Instalacoes then Written(p, PoloId) else Null
  {
    if k == Instalacoes then map[Id := Int(id), Nome := Written(p, Nome), PoloId := Written(p, PoloId)]
    else map[Id := Int(id), Nome := Written(p, Nome)]
  }

  /** The nine `criar_*` handlers: a missing `nome` key raises and answers
      500, an existing name answers 400. */
  function Create(db: Db, k: LookupKind, p: Payload): (r: Reply)
    requires Editable(k)
    ensures Nome !in p ==> r == NoWrite(db, 500)
    ensures Nome in p && Has(Lookup(db, k), Nome, Written(p, Nome)) ==> r == NoWrite(db, 400)
    ensures r.status == 201 ==>
              var id := NextId(Lookup(db, k));
              r.db == WithLookup(db, k, Lookup(db, k) + [NewEntry(k, p, id)]) && r.id == Some(id)
    ensures r.status != 201 ==> r.db == db
  {
    if Nome !in p then NoWrite(db, 500)
    else if Has(Lookup(db, k), Nome, Written(p, Nome)) then NoWrite(db, 400)
    else
      var id := NextId(Lookup(db, k));
      Commit(db, WithLookup(db, k, Lookup(db, k) + [NewEntry(k, p, id)]), 201, Some(id))
  }

  /** On a valid database a create succeeds exactly when a non-null name is
      given that the list does not hold yet. */
  lemma CreateSucceeds(db: Db, k: LookupKind, p: Payload)
    requires Valid(db) && Editable(k)
    ensures Create(db, k, p).status == 201 <==> Nome in p && p[Nome] != Null && !Has(Lookup(db, k), Nome, Written(p, Nome))
  {
    if Nome in p && !Has(Lookup(db, k), Nome, Written(p, Nome)) {
      var t := Lookup(db, k);
      var row := NewEntry(k, p, NextId(t));
      var after := WithLookup(db, k, t + [row]);
      if p[Nome] != Null {
        assert !Has(t, Id, Int(NextId(t)));
        AppendKeepsUnique(t, row, Id);
        AppendKeepsUnique(t, row, Nome);
        assert LookupValid(t + [row]);
        assert forall k' :: LookupValid(Lookup(after, k')) by {
          forall k' ensures LookupValid(Lookup(after, k')) {
            if k' != k {
              assert Lookup(after, k') == Lookup(db, k');
            }
          }
        }
        assert Valid(after);
      } else {
        assert Col((t + [row])[|t|], Nome) == Null;
        assert !LookupValid(Lookup(after, k));
      }
    }
  }

  /** `atualizar_fabricante`: the name is looked up only when it differs
      (in Python, before conversion) from the current one. */
  function RenameFabricante(db: Db, id: int, p: Payload): (r: Reply)
    ensures Find(Lookup(db, Fabricantes), Id, Int(id)).None? || Nome !in p ==> r == NoWrite(db, 500)
    ensures Find(Lookup(db, Fabricantes), Id, Int(id)).Some? && Nome in p
            && p[Nome] != Col(Lookup(db, Fabricantes)[Find(Lookup(db, Fabricantes), Id, Int(id)).value], Nome)
            && Has(Lookup(db, Fabricantes), Nome, Written(p, Nome))
            ==> r == NoWrite(db, 400)
    ensures r.status == 200 ==>
              var t := Lookup(db, Fabricantes);
              var i := Find(t, Id, Int(id)).value;
              r.db == WithLookup(db, Fabricantes, t[i := t[i][Nome := Written(p, Nome)]])
    ensures r.status != 200 ==> r.db == db
  {
    var t := Lookup(db, Fabricantes);
    match Find(t, Id, Int(id))
    case None => NoWrite(db, 500)
    case Some(i) =>
      if Nome !in p then NoWrite(db, 500)
      else if p[Nome] != Col(t[i], Nome) && Has(t, Nome, Written(p, Nome)) then NoWrite(db, 400)
      else Commit(db, WithLookup(db, Fabricantes, t[i := t[i][Nome := Written(p, Nome)]]), 200, None)
  }

  /** On a valid database renaming an existing manufacturer succeeds exactly
      when the new name is non-null and, as stored, unused, or is the
      current name itself: renaming to its own name is allowed. */
  lemma RenameSucceeds(db: Db, id: int, p: Payload)
    requires Valid(db) && Has(Lookup(db, Fabricantes), Id, Int(id))
    ensures var t := Lookup(db, Fabricantes);
            var cur := t[Find(t, Id, Int(id)).value];
            RenameFabricante(db, id, p).status == 200 <==>
              && Nome in p && p[Nome] != Null
              && (!Has(t, Nome, Written(p, Nome)) || p[Nome] == Col(cur, Nome) == Written(p, Nome))
  {
    var t := Lookup(db, Fabricantes);
    var i := Find(t, Id, Int(id)).value;
    if Nome in p && !(p[Nome] != Col(t[i], Nome) && Has(t, Nome, Written(p, Nome))) {
      var w := Written(p, Nome);
      var row := t[i][Nome := w];
      var t' := t[i := row];
      var after := WithLookup(db, Fabricantes, t');
      assert forall k' :: k' != Fabricantes ==> Lookup(after, k') == Lookup(db, k');
      if p[Nome] == Null {
        assert Col(t'[i], Nome) == Null;
        assert !LookupValid(Lookup(after, Fabricantes));
      } else if w == Col(t[i], Nome) || !Has(t, Nome, w) {
        ReplaceKeepsUnique(t, i, row, Id);
        ReplaceKeepsUnique(t, i, row, Nome);
        assert LookupValid(t');
        assert Valid(after);
      } else {
        ReplaceBreaksUnique(t, i, row, Nome);
      }
    }
  }

  /** `deletar_fabricante`: refused while equipment refers to it; models,
      orifice plates and straight runs are not checked, and the ORM sets the
      plates' and runs' (nullable) manufacturer to NULL. */
  function DeleteFabricante(db: Db, id: int): (r: Reply)
    ensures Find(Lookup(db, Fabricantes), Id, Int(id)).None? ==> r == NoWrite(db, 500)
    ensures Find(Lookup(db, Fabricantes), Id, Int(id)).Some? && Has(db.equipamentos, FabricanteId, Int(id))
            ==> r == NoWrite(db, 400)
    ensures r.status == 200 ==>
              var t := Lookup(db, Fabricantes);
              r.db == WithLookup(db, Fabricantes, RemoveAt(t, Find(t, Id, Int(id)).value))
                        .(placas := Orphan(db.placas, FabricanteId, Int(id)),
                          trechos := Orphan(db.trechos, FabricanteId, Int(id)))
    ensures r.status != 200 ==> r.db == db
  {
    var t := Lookup(db, Fabricantes);
    match Find(t, Id, Int(id))
    case None => NoWrite(db, 500)
    case Some(i) =>
      if Has(db.equipamentos, FabricanteId, Int(id)) then NoWrite(db, 400)
      else
        var after := WithLookup(db, Fabricantes, RemoveAt(t, i))
                       .(placas := Orphan(db.placas, FabricanteId, Int(id)),
                         trechos := Orphan(db.trechos, FabricanteId, Int(id)));
        Commit(db, after, 200, None)
  }

  /** An equipment created with its manufacturer id sent as numeric text
      stores the integer id, so deleting that manufacturer is refused. */
  lemma TextReferenceBlocksDelete(db: Db, p: Payload, id: int)
    requires InInt64(id) && Equipment.Create(db, p).status == 201
    requires GetOrNull(p, FabricanteId) == Str(IntToString(id))
    requires Has(Lookup(db, Fabricantes), Id, Int(id))
    ensures DeleteFabricante(Equipment.Create(db, p).db, id) == NoWrite(Equipment.Create(db, p).db, 400)
  {
    Equipment.TextIdStoredAsInt(p, id);
    AppendedReferenceRefused(db, Equipment.Create(db, p).db, Equipment.NewEquipment(p), id);
  }

  /** Once a row referring to a manufacturer is appended to the equipment,
      deleting that manufacturer is refused. */
  lemma AppendedReferenceRefused(db: Db, after: Db, row: Row, id: int)
    requires after == db.(equipamentos := db.equipamentos + [row])
    requires Col(row, FabricanteId) == Int(id) && Has(Lookup(db, Fabricantes), Id, Int(id))
    ensures DeleteFabricante(after, id) == NoWrite(after, 400)
  {
    assert Lookup(after, Fabricantes) == Lookup(db, Fabricantes);
    assert Matches(after.equipamentos[|db.equipamentos|], FabricanteId, Int(id));
  }

  /** Detaching plates or runs from a manufacturer keeps their constraints. */
  lemma OrphanKeepsOnePerEquipment(t: Table, v: Value)
    requires OnePerEquipment(t)
    ensures OnePerEquipment(Orphan(t, FabricanteId, v))
  {
    var r := Orphan(t, FabricanteId, v);
    assert forall i :: 0 <= i < |t| ==> Col(r[i], Id) == Col(t[i], Id) && Col(r[i], SerialRef) == Col(t[i], SerialRef);
  }

  /** On a valid database a manufacturer no equipment refers to is always
      deleted, and no plate or run refers to it afterwards, while models
      keep their now dangling reference. */
  lemma DeleteFabricanteOutcome(db: Db, id: int)
    requires Valid(db) && Has(Lookup(db, Fabricantes), Id, Int(id)) && !Has(db.equipamentos, FabricanteId, Int(id))
    ensures DeleteFabricante(db, id).status == 200
    ensures !Has(Lookup(DeleteFabricante(db, id).db, Fabricantes), Id, Int(id))
    ensures !Has(DeleteFabricante(db, id).db.placas, FabricanteId, Int(id))
    ensures !Has(DeleteFabricante(db, id).db.trechos, FabricanteId, Int(id))
    ensures Lookup(DeleteFabricante(db, id).db, Modelos) == Lookup(db, Modelos)
  {
    var t := Lookup(db, Fabricantes);
    var i := Find(t, Id, Int(id)).value;
    var t' := RemoveAt(t, i);
    RemoveKeepsUnique(t, i, Id);
    RemoveKeepsUnique(t, i, Nome);
    assert LookupValid(t');
    OrphanKeepsOnePerEquipment(db.placas, Int(id));
    OrphanKeepsOnePerEquipment(db.trechos, Int(id));
    var after := WithLookup(db, Fabricantes, t')
                   .(placas := Orphan(db.placas, FabricanteId, Int(id)),
                     trechos := Orphan(db.trechos, FabricanteId, Int(id)));
    assert forall k' :: k' != Fabricantes ==> Lookup(after, k') == Lookup(db, k');
    assert Valid(after);
    forall j | 0 <= j < |t'|
      ensures !Matches(t'[j], Id, Int(id))
    {
      var j' := if j < i then j else j + 1;
      assert t'[j] == t[j'];
    }
  }

  // ---------------------------------------------------------------------------
  // Listings

  /** `listar_*`: every row of the list, ordered by name. */
  function ListSorted(db: Db, k: LookupKind): (r: Table)
    ensures multiset(r) == multiset(Lookup(db, k))
    ensures Sorted(r, AscBy(Nome))
  {
    OrderBy(Lookup(db, k), Nome, false)
  }

  /** The keys of the `/todas` reply, in order, with the list each holds. */
  const TodasKeys: seq<(string, LookupKind)> := [
    ("fabricantes", Fabricantes), ("tipos_equipamento", TiposEquipamento), ("polos", Polos),
    ("instalacoes", Instalacoes), ("unidades", Unidades), ("classificacoes_ponto_medicao", Classificacoes),
    ("naturezas_teste_analise", Naturezas), ("status", StatusCertificado), ("criterios_aceitacao", Criterios)
  ]

  /** `obter_todas_configuracoes`: the nine editable lists under their keys,
      each sorted by name. */
  function Todas(db: Db): (r: seq<(string, Table)>)
    ensures |r| == |TodasKeys|
    ensures forall i :: 0 <= i < |r| ==>
              && r[i].0 == TodasKeys[i].0 && Editable(TodasKeys[i].1)
              && multiset(r[i].1) == multiset(Lookup(db, TodasKeys[i].1)) && Sorted(r[i].1, AscBy(Nome))
  {
    seq(|TodasKeys|, i requires 0 <= i < |TodasKeys| => (TodasKeys[i].0, ListSorted(db, TodasKeys[i].1)))
  }

  /** `/todas` covers exactly the lists that can be edited. */
  lemma TodasCoversEditable()
    ensures forall k :: Editable(k) <==> exists i :: 0 <= i < |TodasKeys| && TodasKeys[i].1 == k
  {
    forall k | Editable(k)
      ensures exists i :: 0 <= i < |TodasKeys| && TodasKeys[i].1 == k
    {
      match k
      case Fabricantes => assert TodasKeys[0].1 == k;
      case TiposEquipamento => assert TodasKeys[1].1 == k;
      case Polos => assert TodasKeys[2].1 == k;
      case Instalacoes => assert TodasKeys[3].1 == k;
      case Unidades => assert TodasKeys[4].1 == k;
      case Classificacoes => assert TodasKeys[5].1 == k;
      case Naturezas => assert TodasKeys[6].1 == k;
      case StatusCertificado => assert TodasKeys[7].1 == k;
      case Criterios => assert TodasKeys[8].1 == k;
    }
  }
}
