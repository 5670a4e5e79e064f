/** Calibration certificates (`/api/certificados`): create guarded by the
    (serial, number, revision) duplicate check, update of five fields,
    unguarded delete, and the two listings ordered by date, newest first. */
module Certificates {
  import opened Wrappers
  import opened Seqs
  import opened Text
  import opened Values
  import opened Store
  import opened Query

  const CaminhoArquivo := "caminho_arquivo"

  /** The fields an update may change; the equipment serial is not one. */
  const CertUpdateCols: set<string> := {NumeroCert, RevisaoCert, DataCert, StatusCertId, CaminhoArquivo}

  /** A row stores this (serial, number, revision) triple; NULL equals NULL,
      as in the ORM's `filter_by` (`IS NULL`). */
  predicate HasTriple(row: Row, serial: Value, numero: Value, revisao: Value) {
    Col(row, SerialRef) == serial && Col(row, NumeroCert) == numero && Col(row, RevisaoCert) == revisao
  }

  /** Some certificate stores the triple. */
  predicate TripleUsed(t: Table, serial: Value, numero: Value, revisao: Value) {
    exists i :: 0 <= i < |t| && HasTriple(t[i], serial, numero, revisao)
  }

  /** The columns a create copies from the payload. */
  const CertPayloadCols: set<string> := {SerialRef, NumeroCert, DataCert, StatusCertId, CaminhoArquivo}

  /** The row a create inserts, with the given (stored) revision; the other
      columns hold the payload's values as their columns store them. */
  function NewCertificate(p: Payload, revisao: Value, id: int): (r: Row)
    ensures Col(r, Id) == Int(id) && Col(r, RevisaoCert) == revisao
    ensures forall c :: c in CertPayloadCols ==> Col(r, c) == Written(p, c)
    ensures forall c :: c !in CertPayloadCols && c != Id && c != RevisaoCert ==> Col(r, c) == Null
  {
    (map c | c in CertPayloadCols :: Written(p, c))[Id := Int(id)][RevisaoCert := revisao]
  }

  /** The revision the duplicate check compares: `data.get('revisao_certificado', '')`,
      as the column compares it. */
  function CheckedRevision(p: Payload): (r: Value)
    ensures RevisaoCert !in p ==> r == Str("")
    ensures RevisaoCert in p ==> r == Written(p, RevisaoCert)
  {
    StoredAs(RevisaoCert, Get(p, RevisaoCert, Str("")))
  }

  /** The create's duplicate check: some certificate stores the payload's
      serial, number and checked revision. */
  predicate Duplicate(t: Table, p: Payload) {
    TripleUsed(t, Written(p, SerialRef), Written(p, NumeroCert), CheckedRevision(p))
  }

  /** `criar_certificado` as written: the check compares an absent revision
      as `''`, but the row stores `data.get('revisao_certificado')`, NULL. */
  function Create(db: Db, p: Payload): (r: Reply)
    ensures SerialRef !in p || NumeroCert !in p ==> r == NoWrite(db, 500)
    ensures SerialRef in p && NumeroCert in p && Duplicate(db.certificados, p) ==> r == NoWrite(db, 400)
    ensures r.status == 201 ==>
              var id := NextId(db.certificados);
              && r.db == db.(certificados := db.certificados + [NewCertificate(p, Written(p, RevisaoCert), id)])
              && r.id == Some(id)
    ensures r.status != 201 ==> r.db == db
  {
    if SerialRef !in p || NumeroCert !in p then NoWrite(db, 500)
    else if Duplicate(db.certificados, p) then NoWrite(db, 400)
    else if DataCert !in p then NoWrite(db, 500)
    else
      var id := NextId(db.certificados);
      Commit(db, db.(certificados := db.certificados + [NewCertificate(p, Written(p, RevisaoCert), id)]), 201, Some(id))
  }

  /** On a valid database a create succeeds exactly when serial, number and
      date are given and non-null and the checked triple is unused. The
      commit's constraints add nothing: a stored revision that is not NULL
      is the revision that was checked. */
  lemma CreateSucceeds(db: Db, p: Payload)
    requires Valid(db)
    ensures Create(db, p).status == 201 <==>
              && SerialRef in p && NumeroCert in p && DataCert in p
              && p[SerialRef] != Null && p[NumeroCert] != Null && p[DataCert] != Null
              && !Duplicate(db.certificados, p)
  {
    var t := db.certificados;
    if SerialRef in p && NumeroCert in p && DataCert in p && !Duplicate(t, p) {
      var id := NextId(t);
      var row := NewCertificate(p, Written(p, RevisaoCert), id);
      assert !Has(t, Id, Int(id));
      AppendCertValid(t, row);
      if Col(row, RevisaoCert) != Null {
        assert CheckedRevision(p) == Col(row, RevisaoCert);
      }
      ValidWithCertificados(db, t + [row]);
    }
  }

  /** Replacing the certificate table of a valid database leaves it valid
      exactly when the new table satisfies the certificate constraints. */
  lemma ValidWithCertificados(db: Db, t: Table)
    requires Valid(db)
    ensures Valid(db.(certificados := t)) <==> CertificadosValid(t)
  {
    assert forall k :: Lookup(db.(certificados := t), k) == Lookup(db, k);
  }

  /** Row `m` breaks the (serial, number, revision) UNIQUE constraint against
      a row of `t` other than row `i`: its three columns are set and another
      row stores the same triple. */
  predicate ClashesWithOther(t: Table, i: int, m: Row) {
    && Col(m, SerialRef) != Null && Col(m, NumeroCert) != Null && Col(m, RevisaoCert) != Null
    && exists j :: 0 <= j < |t| && j != i && HasTriple(t[j], Col(m, SerialRef), Col(m, NumeroCert), Col(m, RevisaoCert))
  }

  /** A conflict on the three columns is an equal triple with no NULL. */
  lemma ConflictIsTriple(r1: Row, r2: Row)
    ensures Conflict(r1, r2, [SerialRef, NumeroCert, RevisaoCert]) <==>
              && Col(r1, SerialRef) != Null && Col(r1, NumeroCert) != Null && Col(r1, RevisaoCert) != Null
              && HasTriple(r2, Col(r1, SerialRef), Col(r1, NumeroCert), Col(r1, RevisaoCert))
  {
    var cs := [SerialRef, NumeroCert, RevisaoCert];
    assert cs[0] == SerialRef && cs[1] == NumeroCert && cs[2] == RevisaoCert;
  }

  /** Appending a row with a fresh integer id keeps the certificate
      constraints exactly when serial, number and date are set and its
      triple clashes with no row. */
  lemma AppendCertValid(t: Table, row: Row)
    requires CertificadosValid(t) && Col(row, Id).Int? && !Has(t, Id, Col(row, Id))
    ensures CertificadosValid(t + [row]) <==>
              && Col(row, SerialRef) != Null && Col(row, NumeroCert) != Null && Col(row, DataCert) != Null
              && !ClashesWithOther(t, |t|, row)
  {
    var r := t + [row];
    var cs := [SerialRef, NumeroCert, RevisaoCert];
    assert r[|t|] == row;
    AppendKeepsUnique(t, row, Id);
    assert forall j :: 0 <= j < |t| ==> r[j] == t[j];
    if ClashesWithOther(t, |t|, row) {
      var j :| 0 <= j < |t| && j != |t| && HasTriple(t[j], Col(row, SerialRef), Col(row, NumeroCert), Col(row, RevisaoCert));
      ConflictIsTriple(t[j], row);
      assert Conflict(r[j], r[|t|], cs);
    } else {
      forall a, b | 0 <= a < b < |r|
        ensures !Conflict(r[a], r[b], cs)
      {
        if b == |t| {
          ConflictIsTriple(t[a], row);
          if Conflict(r[a], r[b], cs) {
            assert HasTriple(t[a], Col(row, SerialRef), Col(row, NumeroCert), Col(row, RevisaoCert));
          }
        }
      }
    }
  }

  /** No two certificates store the same triple, NULL revisions included:
      what the duplicate check is there to keep. */
  predicate NoDuplicateTriples(t: Table) {
    forall i, j :: 0 <= i < j < |t| ==>
      !HasTriple(t[j], Col(t[i], SerialRef), Col(t[i], NumeroCert), Col(t[i], RevisaoCert))
  }

  /** A certificate without a revision. */
  function NoRevision(serial: string, numero: string, data: string): Payload {
    map[SerialRef := Str(serial), NumeroCert := Str(numero), DataCert := Str(data)]
  }

  /** The row each post of `NoRevision(serial, numero, data)` inserts:
      the payload's texts and a NULL revision. */
  lemma NoRevisionRow(serial: string, numero: string, data: string, id: int)
    ensures var r := NewCertificate(NoRevision(serial, numero, data), Null, id);
            && Col(r, Id) == Int(id) && Col(r, SerialRef) == Str(serial) && Col(r, NumeroCert) == Str(numero)
            && Col(r, RevisaoCert) == Null && Col(r, DataCert) == Str(data)
  {
    NoRevisionWritten(serial, numero, data);
    assert SerialRef in CertPayloadCols && NumeroCert in CertPayloadCols && DataCert in CertPayloadCols;
  }

  /** The text columns store the payload's text as it is. */
  lemma NoRevisionWritten(serial: string, numero: string, data: string)
    ensures var p := NoRevision(serial, numero, data);
            && Written(p, SerialRef) == Str(serial) && Written(p, NumeroCert) == Str(numero)
            && Written(p, DataCert) == Str(data)
            && Written(p, RevisaoCert) == Null && CheckedRevision(p) == Str("")
            && Written(p, StatusCertId) == Null && Written(p, CaminhoArquivo) == Null
  {
    var p := NoRevision(serial, numero, data);
    assert SerialRef !in IntegerColumns && SerialRef !in RealColumns;
    assert NumeroCert !in IntegerColumns && NumeroCert !in RealColumns;
    assert DataCert !in IntegerColumns && DataCert !in RealColumns;
    assert RevisaoCert !in p && StatusCertId !in p && CaminhoArquivo !in p;
  }

  /** The same certificate without a revision, posted twice to an empty
      database: both posts succeed and the table holds the triple twice. */
  lemma AbsentRevisionDuplicates(serial: string, numero: string, data: string)
    ensures var p := NoRevision(serial, numero, data);
            && Create(EmptyDb, p).status == 201
            && Create(Create(EmptyDb, p).db, p).status == 201
            && !NoDuplicateTriples(Create(Create(EmptyDb, p).db, p).db.certificados)
  {
    var p := NoRevision(serial, numero, data);
    var first := NewCertificate(p, Null, 1);
    var second := NewCertificate(p, Null, 2);
    FirstPost(serial, numero, data);
    SecondPost(serial, numero, data);
    NoRevisionRow(serial, numero, data, 1);
    NoRevisionRow(serial, numero, data, 2);
    assert HasTriple(second, Col(first, SerialRef), Col(first, NumeroCert), Col(first, RevisaoCert));
    assert [first, second][0] == first && [first, second][1] == second;
  }

  lemma FirstPost(serial: string, numero: string, data: string)
    ensures var p := NoRevision(serial, numero, data);
            Create(EmptyDb, p) == Reply(201, EmptyDb.(certificados := [NewCertificate(p, Null, 1)]), Some(1))
  {
    var p := NoRevision(serial, numero, data);
    var first := NewCertificate(p, Null, 1);
    NoRevisionWritten(serial, numero, data);
    NoRevisionRow(serial, numero, data, 1);
    assert CertificadosValid([first]);
    OnlyCertificados([first]);
    assert !Duplicate([], p);
    assert NextId([]) == 1;
    assert [] + [first] == [first];
    CreateStores(EmptyDb, p);
  }

  /** A create whose keys are present, whose triple is unused and whose
      row keeps the constraints stores that row under the next id. */
  lemma CreateStores(db: Db, p: Payload)
    requires SerialRef in p && NumeroCert in p && DataCert in p && !Duplicate(db.certificados, p)
    requires Valid(db.(certificados := db.certificados + [NewCertificate(p, Written(p, RevisaoCert), NextId(db.certificados))]))
    ensures var id := NextId(db.certificados);
            Create(db, p) == Reply(201, db.(certificados := db.certificados + [NewCertificate(p, Written(p, RevisaoCert), id)]), Some(id))
  {
  }

  /** Both copies satisfy every constraint: their revisions are NULL. */
  lemma TwoCopiesValid(serial: string, numero: string, data: string)
    ensures var p := NoRevision(serial, numero, data);
            Valid(EmptyDb.(certificados := [NewCertificate(p, Null, 1), NewCertificate(p, Null, 2)]))
  {
    var p := NoRevision(serial, numero, data);
    NoRevisionRow(serial, numero, data, 1);
    NoRevisionRow(serial, numero, data, 2);
    NullRevisionPairValid(NewCertificate(p, Null, 1), NewCertificate(p, Null, 2));
    OnlyCertificados([NewCertificate(p, Null, 1), NewCertificate(p, Null, 2)]);
  }

  /** Two complete certificates with distinct ids never clash when the
      first has no revision. */
  lemma NullRevisionPairValid(a: Row, b: Row)
    requires Col(a, Id).Int? && Col(b, Id).Int? && Col(a, Id) != Col(b, Id)
    requires Col(a, SerialRef) != Null && Col(a, NumeroCert) != Null && Col(a, DataCert) != Null
    requires Col(b, SerialRef) != Null && Col(b, NumeroCert) != Null && Col(b, DataCert) != Null
    requires Col(a, RevisaoCert) == Null
    ensures CertificadosValid([a, b])
  {
    var t := [a, b];
    assert t[0] == a && t[1] == b;
    assert !Conflict(a, b, [SerialRef, NumeroCert, RevisaoCert]) by {
      assert Col(a, [SerialRef, NumeroCert, RevisaoCert][2]) == Null;
    }
  }

  /** A database holding only certificates is valid when they are. */
  lemma OnlyCertificados(t: Table)
    requires CertificadosValid(t)
    ensures Valid(EmptyDb.(certificados := t))
  {
    assert forall k :: Lookup(EmptyDb.(certificados := t), k) == [];
  }

  lemma SecondPost(serial: string, numero: string, data: string)
    ensures var p := NoRevision(serial, numero, data);
            Create(EmptyDb.(certificados := [NewCertificate(p, Null, 1)]), p)
            == Reply(201, EmptyDb.(certificados := [NewCertificate(p, Null, 1), NewCertificate(p, Null, 2)]), Some(2))
  {
    var p := NoRevision(serial, numero, data);
    var first := NewCertificate(p, Null, 1);
    var second := NewCertificate(p, Null, 2);
    NoRevisionWritten(serial, numero, data);
    NoRevisionRow(serial, numero, data, 1);
    assert !HasTriple(first, Str(serial), Str(numero), Str(""));
    assert !Duplicate([first], p);
    assert MaxId([first]) == 1;
    assert [first] + [second] == [first, second];
    TwoCopiesValid(serial, numero, data);
    CreateStores(EmptyDb.(certificados := [first]), p);
  }

  /** `criar_certificado` as evidently intended: the revision that is
      checked is the revision that is stored. */
  function CreateIntended(db: Db, p: Payload): (r: Reply)
    ensures SerialRef !in p || NumeroCert !in p ==> r == NoWrite(db, 500)
    ensures SerialRef in p && NumeroCert in p && Duplicate(db.certificados, p) ==> r == NoWrite(db, 400)
    ensures r.status == 201 ==>
              r.db == db.(certificados := db.certificados + [NewCertificate(p, CheckedRevision(p), NextId(db.certificados))])
    ensures r.status != 201 ==> r.db == db
  {
    if SerialRef !in p || NumeroCert !in p then NoWrite(db, 500)
    else if Duplicate(db.certificados, p) then NoWrite(db, 400)
    else if DataCert !in p then NoWrite(db, 500)
    else
      var id := NextId(db.certificados);
      Commit(db, db.(certificados := db.certificados + [NewCertificate(p, CheckedRevision(p), id)]), 201, Some(id))
  }

  /** The intended create keeps every triple unique, however often the same
      certificate is posted. */
  lemma CreateIntendedKeepsTriplesUnique(db: Db, p: Payload)
    requires NoDuplicateTriples(db.certificados)
    ensures NoDuplicateTriples(CreateIntended(db, p).db.certificados)
  {
    var r := CreateIntended(db, p);
    if r.status == 201 {
      var row := NewCertificate(p, CheckedRevision(p), NextId(db.certificados));
      var t := db.certificados + [row];
      assert r.db.certificados == t;
      forall i, j | 0 <= i < j < |t|
        ensures !HasTriple(t[j], Col(t[i], SerialRef), Col(t[i], NumeroCert), Col(t[i], RevisaoCert))
      {
        if j == |t| - 1 {
          assert t[i] == db.certificados[i];
          assert !HasTriple(db.certificados[i], Written(p, SerialRef), Written(p, NumeroCert), CheckedRevision(p));
        }
      }
    }
  }

  /** `atualizar_certificado`: five fields merged, no duplicate re-check; a
      triple clash with all three columns non-null fails at commit. */
  function Update(db: Db, id: int, p: Payload): (r: Reply)
    ensures Find(db.certificados, Id, Int(id)).None? ==> r == NoWrite(db, 500)
    ensures r.status == 200 ==>
              var i := Find(db.certificados, Id, Int(id)).value;
              r.db == db.(certificados := db.certificados[i := Merge(db.certificados[i], p, CertUpdateCols)])
    ensures r.status != 200 ==> r.db == db
  {
    match Find(db.certificados, Id, Int(id))
    case None => NoWrite(db, 500)
    case Some(i) => Commit(db, db.(certificados := db.certificados[i := Merge(db.certificados[i], p, CertUpdateCols)]), 200, None)
  }

  /** On a valid database an update of an existing certificate succeeds
      exactly when the merged number and date are set and the merged triple
      clashes with no other row's: nothing is checked before the commit. */
  lemma UpdateSucceeds(db: Db, id: int, p: Payload)
    requires Valid(db) && Has(db.certificados, Id, Int(id))
    ensures var i := Find(db.certificados, Id, Int(id)).value;
            var m := Merge(db.certificados[i], p, CertUpdateCols);
            Update(db, id, p).status == 200 <==>
              Col(m, NumeroCert) != Null && Col(m, DataCert) != Null && !ClashesWithOther(db.certificados, i, m)
  {
    var i := Find(db.certificados, Id, Int(id)).value;
    var m := Merge(db.certificados[i], p, CertUpdateCols);
    assert Id !in CertUpdateCols && SerialRef !in CertUpdateCols;
    ValidWithCertificados(db, db.certificados[i := m]);
    ReplaceCertValid(db.certificados, i, m);
  }

  /** Replacing row `i` by a row with the same id and serial keeps the
      certificate constraints exactly when number and date are set and its
      triple clashes with no other row. */
  lemma ReplaceCertValid(t: Table, i: nat, m: Row)
    requires CertificadosValid(t) && i < |t|
    requires Col(m, Id) == Col(t[i], Id) && Col(m, SerialRef) == Col(t[i], SerialRef)
    ensures CertificadosValid(t[i := m]) <==>
              Col(m, NumeroCert) != Null && Col(m, DataCert) != Null && !ClashesWithOther(t, i, m)
  {
    var r := t[i := m];
    var cs := [SerialRef, NumeroCert, RevisaoCert];
    ReplaceKeepsUnique(t, i, m, Id);
    assert r[i] == m;
    assert forall j :: 0 <= j < |r| && j != i ==> r[j] == t[j];
    if ClashesWithOther(t, i, m) {
      var j :| 0 <= j < |t| && j != i && HasTriple(t[j], Col(m, SerialRef), Col(m, NumeroCert), Col(m, RevisaoCert));
      ConflictIsTriple(m, t[j]);
      ConflictIsTriple(t[j], m);
      if i < j {
        assert Conflict(r[i], r[j], cs);
      } else {
        assert Conflict(r[j], r[i], cs);
      }
    } else {
      forall a, b | 0 <= a < b < |r|
        ensures !Conflict(r[a], r[b], cs)
      {
        if a == i {
          ConflictIsTriple(m, t[b]);
        } else if b == i {
          ConflictIsTriple(t[a], m);
          if Conflict(r[a], r[b], cs) {
            assert HasTriple(t[a], Col(m, SerialRef), Col(m, NumeroCert), Col(m, RevisaoCert));
          }
        }
      }
    }
  }

  /** The update does not re-run the duplicate check: moving a certificate
      onto another row's serial and number with both revisions NULL answers
      200 and leaves the triple in the table twice. */
  lemma UpdateSkipsDuplicateCheck(db: Db, id: int, p: Payload, j: nat)
    requires Valid(db) && Has(db.certificados, Id, Int(id))
    requires var i := Find(db.certificados, Id, Int(id)).value;
             var m := Merge(db.certificados[i], p, CertUpdateCols);
             && j < |db.certificados| && j != i
             && Col(m, NumeroCert) != Null && Col(m, DataCert) != Null && Col(m, RevisaoCert) == Null
             && HasTriple(db.certificados[j], Col(m, SerialRef), Col(m, NumeroCert), Null)
    ensures Update(db, id, p).status == 200
    ensures !NoDuplicateTriples(Update(db, id, p).db.certificados)
  {
    var t := db.certificados;
    var i := Find(t, Id, Int(id)).value;
    var m := Merge(t[i], p, CertUpdateCols);
    UpdateSucceeds(db, id, p);
    var r := t[i := m];
    assert r[i] == m && r[j] == t[j];
    if i < j {
      assert HasTriple(r[j], Col(r[i], SerialRef), Col(r[i], NumeroCert), Col(r[i], RevisaoCert));
    } else {
      assert HasTriple(r[i], Col(r[j], SerialRef), Col(r[j], NumeroCert), Col(r[j], RevisaoCert));
    }
  }

  /** An update never moves a certificate to another equipment or changes
      its id, whatever the payload holds. */
  lemma UpdateKeepsSerialAndId(db: Db, id: int, p: Payload)
    ensures var t := Update(db, id, p).db.certificados;
            && |t| == |db.certificados|
            && forall j :: 0 <= j < |t| ==>
                 Col(t[j], SerialRef) == Col(db.certificados[j], SerialRef) && Col(t[j], Id) == Col(db.certificados[j], Id)
  {
    assert SerialRef !in CertUpdateCols && Id !in CertUpdateCols;
  }

  /** `deletar_certificado`: no dependency guard. */
  function Delete(db: Db, id: int): (r: Reply)
    ensures Find(db.certificados, Id, Int(id)).None? ==> r == NoWrite(db, 500)
    ensures r.status == 200 ==>
              r.db == db.(certificados := RemoveAt(db.certificados, Find(db.certificados, Id, Int(id)).value))
    ensures r.status != 200 ==> r.db == db
  {
    match Find(db.certificados, Id, Int(id))
    case None => NoWrite(db, 500)
    case Some(i) => Commit(db, db.(certificados := RemoveAt(db.certificados, i)), 200, None)
  }

  /** On a valid database deleting an existing certificate always succeeds,
      removes exactly that row and touches no other table. */
  lemma DeleteAlwaysSucceeds(db: Db, id: int)
    requires Valid(db) && Has(db.certificados, Id, Int(id))
    ensures Delete(db, id).status == 200
    ensures !Has(Delete(db, id).db.certificados, Id, Int(id))
    ensures |Delete(db, id).db.certificados| == |db.certificados| - 1
    ensures Delete(db, id).db.(certificados := db.certificados) == db
  {
    var i := Find(db.certificados, Id, Int(id)).value;
    var t := RemoveAt(db.certificados, i);
    RemoveKeepsUnique(db.certificados, i, Id);
    RemoveKeepsUniqueCols(db.certificados, i, [SerialRef, NumeroCert, RevisaoCert]);
    assert Valid(db.(certificados := t)) by {
      assert forall k :: Lookup(db.(certificados := t), k) == Lookup(db, k);
    }
    forall j | 0 <= j < |t|
      ensures !Matches(t[j], Id, Int(id))
    {
      var j' := if j < i then j else j + 1;
      assert t[j] == db.certificados[j'];
    }
  }

  // ---------------------------------------------------------------------------
  // Listings

  /** Query-string arguments of the listing, already converted by Flask. */
  datatype ListArgs = ListArgs(page: int, perPage: int, search: string, numeroSerie: string, statusId: Option<int>)

  predicate ListFilter(row: Row, a: ListArgs) {
    && (a.search == "" || SqlContains(Col(row, NumeroCert), a.search) || SqlContains(Col(row, SerialRef), a.search))
    && (a.numeroSerie == "" || Col(row, SerialRef) == Str(a.numeroSerie))
    && IdFilter(row, StatusCertId, a.statusId)
  }

  /** The rows the WHERE clause keeps, in table order. */
  function ListHits(db: Db, a: ListArgs): (r: Table)
    ensures forall row :: row in r <==> row in db.certificados && ListFilter(row, a)
    ensures |r| == Count(db.certificados, (row: Row) => ListFilter(row, a))
  {
    Filter(db.certificados, (row: Row) => ListFilter(row, a))
  }

  /** `listar_certificados`: the hits ordered by date, newest first, then paginated. */
  function List(db: Db, a: ListArgs): (r: Page<Row>)
    ensures r == Paginate(OrderBy(ListHits(db, a), DataCert, true), a.page, a.perPage)
    ensures r.total == Count(db.certificados, (row: Row) => ListFilter(row, a))
    ensures forall k :: 0 <= k < |r.items| ==> r.items[k] in db.certificados && ListFilter(r.items[k], a)
    ensures Sorted(r.items, DescBy(DataCert))
  {
    var rows := OrderBy(ListHits(db, a), DataCert, true);
    PaginateSlice(rows, a.page, a.perPage, DescBy(DataCert));
    Paginate(rows, a.page, a.perPage)
  }

  /** The certificates of one equipment, in table order. */
  function OfEquipment(db: Db, serial: string): (r: Table)
    ensures forall row :: row in r <==> row in db.certificados && Col(row, SerialRef) == Str(serial)
  {
    Filter(db.certificados, (row: Row) => Col(row, SerialRef) == Str(serial))
  }

  /** `certificados_por_equipamento`: one equipment's certificates, newest
      first, with `total` their number. */
  function PorEquipamento(db: Db, serial: string): (r: (Table, nat))
    ensures multiset(r.0) == multiset(OfEquipment(db, serial))
    ensures forall row :: row in r.0 <==> row in db.certificados && Col(row, SerialRef) == Str(serial)
    ensures Sorted(r.0, DescBy(DataCert))
    ensures r.1 == |r.0|
  {
    var rows := OrderBy(OfEquipment(db, serial), DataCert, true);
    (rows, |rows|)
  }
}
