/** Query-result shaping shared by the list endpoints: `ORDER BY` (a sort by
    a total preorder), SQLite's ordering of column values, and
    Flask-SQLAlchemy's `paginate(page, per_page, error_out=False)`. */
module Query {
  import opened Wrappers
  import opened Seqs
  import opened Text
  import opened Values
  import opened Store

  // ---------------------------------------------------------------------------
  // Sorting

  ghost predicate TotalPreorder<T(!new)>(le: (T, T) -> bool) {
    && (forall a, b :: le(a, b) || le(b, a))
    && (forall a, b, c :: le(a, b) && le(b, c) ==> le(a, c))
  }

  predicate Sorted<T>(s: seq<T>, le: (T, T) -> bool) {
    forall i, j :: 0 <= i < j < |s| ==> le(s[i], s[j])
  }

  /** Inserts `x` before the first element it is `le` to. */
  function Insert<T>(x: T, s: seq<T>, le: (T, T) -> bool): (r: seq<T>)
    ensures multiset(r) == multiset(s) + multiset{x}
    ensures |r| == |s| + 1
    decreases |s|
  {
    if |s| == 0 then [x]
    else if le(x, s[0]) then [x] + s
    else
      assert s == [s[0]] + s[1..];
      [s[0]] + Insert(x, s[1..], le)
  }

  /** Insertion sort: a sorted permutation that keeps equal elements in
      their original order. */
  function SortBy<T>(s: seq<T>, le: (T, T) -> bool): (r: seq<T>)
    ensures multiset(r) == multiset(s)
    ensures |r| == |s|
    decreases |s|
  {
    if |s| == 0 then []
    else
      assert s == [s[0]] + s[1..];
      Insert(s[0], SortBy(s[1..], le), le)
  }

  lemma {:induction false} InsertSorted<T(!new)>(x: T, s: seq<T>, le: (T, T) -> bool)
    requires TotalPreorder(le) && Sorted(s, le)
    ensures Sorted(Insert(x, s, le), le)
    decreases |s|
  {
    if |s| > 0 && !le(x, s[0]) {
      var rest := Insert(x, s[1..], le);
      InsertSorted(x, s[1..], le);
      assert le(s[0], x);
      forall y | y in multiset(rest)
        ensures le(s[0], y)
      {
        assert y in multiset(s[1..]) + multiset{x};
        if y in multiset(s[1..]) {
          var k :| 0 <= k < |s[1..]| && s[1..][k] == y;
          assert s[k + 1] == y;
        }
      }
      var r := [s[0]] + rest;
      forall i, j | 0 <= i < j < |r|
        ensures le(r[i], r[j])
      {
        if i == 0 {
          assert r[j] == rest[j - 1];
          assert r[j] in multiset(rest);
        } else {
          assert r[i] == rest[i - 1] && r[j] == rest[j - 1];
        }
      }
    }
  }

  lemma {:induction false} SortBySorted<T(!new)>(s: seq<T>, le: (T, T) -> bool)
    requires TotalPreorder(le)
    ensures Sorted(SortBy(s, le), le)
    decreases |s|
  {
    if |s| > 0 {
      SortBySorted(s[1..], le);
      InsertSorted(s[0], SortBy(s[1..], le), le);
    }
  }

  // ---------------------------------------------------------------------------
  // SQLite value order

  function Rank(v: Value): int {
    match v
    case Null => 0
    case Int(_) => 1
    case Real(_) => 1
    case Str(_) => 2
  }

  function NumOf(v: Value): real
    requires v.Int? || v.Real?
  {
    if v.Int? then v.i as real else v.r
  }

  /** SQLite's ascending order of column values: NULL first, then numbers by
      value, then text by code points. */
  predicate SqlKeyLe(a: Value, b: Value) {
    if Rank(a) != Rank(b) then Rank(a) < Rank(b)
    else if Rank(a) == 1 then NumOf(a) <= NumOf(b)
    else if Rank(a) == 2 then LexLe(a.s, b.s)
    else true
  }

  lemma SqlKeyLeTotalPreorder()
    ensures TotalPreorder(SqlKeyLe)
  {
    forall a, b
      ensures SqlKeyLe(a, b) || SqlKeyLe(b, a)
    {
      if Rank(a) == Rank(b) == 2 {
        LexLeTotal(a.s, b.s);
      }
    }
    forall a, b, c | SqlKeyLe(a, b) && SqlKeyLe(b, c)
      ensures SqlKeyLe(a, c)
    {
      if Rank(a) == Rank(b) == Rank(c) == 2 {
        LexLeTransitive(a.s, b.s, c.s);
      }
    }
  }

  /** `ORDER BY c` on rows. */
  function AscBy(c: string): (Row, Row) -> bool {
    (r1: Row, r2: Row) => SqlKeyLe(Col(r1, c), Col(r2, c))
  }

  /** `ORDER BY c DESC` on rows. */
  function DescBy(c: string): (Row, Row) -> bool {
    (r1: Row, r2: Row) => SqlKeyLe(Col(r2, c), Col(r1, c))
  }

  lemma AscDescPreorders(c: string)
    ensures TotalPreorder(AscBy(c)) && TotalPreorder(DescBy(c))
  {
    SqlKeyLeTotalPreorder();
  }

  /** The rows of `t` sorted by column `c`, ascending or descending; SQLite
      does not promise an order among ties, and the model picks table order. */
  function OrderBy(t: Table, c: string, desc: bool): (r: Table)
    ensures multiset(r) == multiset(t)
    ensures forall row :: row in r <==> row in t
    ensures Sorted(r, if desc then DescBy(c) else AscBy(c))
  {
    AscDescPreorders(c);
    var le := if desc then DescBy(c) else AscBy(c);
    SortBySorted(t, le);
    var r := SortBy(t, le);
    SameMembers(r, t);
    r
  }

  /** Sequences that are permutations of each other have the same members. */
  lemma SameMembers<T>(a: seq<T>, b: seq<T>)
    requires multiset(a) == multiset(b)
    ensures forall x :: x in a <==> x in b
  {
    forall x
      ensures x in a <==> x in b
    {
      assert x in a <==> x in multiset(a);
      assert x in b <==> x in multiset(b);
    }
  }

  // ---------------------------------------------------------------------------
  // Pagination

  const DefaultPerPage := 20

  /** A page of results with the totals the list endpoints report. */
  datatype Page<T> = Page(items: seq<T>, total: nat, pages: nat)

  function EffectivePage(page: int): (p: int)
    ensures p >= 1
  {
    if page < 1 then 1 else page
  }

  function EffectivePerPage(perPage: int): (n: int)
    ensures n >= 1
  {
    if perPage < 1 then DefaultPerPage else perPage
  }

  /** Rows skipped before the page: `(page - 1) * per_page`. */
  function Offset(page: int, perPage: int): (o: int)
    ensures o >= 0
  {
    MulNonNeg(EffectivePage(page) - 1, EffectivePerPage(perPage));
    (EffectivePage(page) - 1) * EffectivePerPage(perPage)
  }

  /** `ceil(total / per_page)`, and 0 for an empty result. */
  function PageCount(total: nat, n: int): (q: nat)
    requires n >= 1
    ensures q * n >= total && (q - 1) * n < total
  {
    if total == 0 then 0
    else
      var q := (total + n - 1) / n;
      assert total + n - 1 == q * n + (total + n - 1) % n;
      assert (q - 1) * n == q * n - n;
      q
  }

  /** `query.paginate(page=page, per_page=per_page, error_out=False)`: an
      out-of-range page or size falls back to 1 or 20, the items are the
      LIMIT/OFFSET slice, and a page past the end is empty. */
  function Paginate<T>(s: seq<T>, page: int, perPage: int): (r: Page<T>)
    ensures r.total == |s|
    ensures r.pages == PageCount(|s|, EffectivePerPage(perPage))
    ensures |r.items| == if Offset(page, perPage) >= |s| then 0
                         else Min(EffectivePerPage(perPage), |s| - Offset(page, perPage))
    ensures forall k :: 0 <= k < |r.items| ==> r.items[k] == s[Offset(page, perPage) + k]
  {
    var n := EffectivePerPage(perPage);
    var start := Offset(page, perPage);
    var items := if start >= |s| then [] else s[start..start + Min(n, |s| - start)];
    Page(items, |s|, PageCount(|s|, n))
  }

  /** A page of an ordered list is ordered, and holds only list elements. */
  lemma PaginateSlice<T>(s: seq<T>, page: int, perPage: int, le: (T, T) -> bool)
    requires Sorted(s, le)
    ensures var items := Paginate(s, page, perPage).items;
            && Sorted(items, le)
            && forall k :: 0 <= k < |items| ==> items[k] in s
  {
    var items := Paginate(s, page, perPage).items;
    var o := Offset(page, perPage);
    forall i, j | 0 <= i < j < |items| ensures le(items[i], items[j]) {
      assert items[i] == s[o + i] && items[j] == s[o + j];
    }
  }

  function Min(a: int, b: int): int {
    if a < b then a else b
  }

  lemma MulNonNeg(a: int, b: int)
    requires a >= 0 && b >= 0
    ensures a * b >= 0
  {
  }

  /** Every result appears on exactly the page its position selects, and
      that page is within the reported page count. */
  lemma PaginateCovers<T>(s: seq<T>, perPage: int, i: nat)
    requires i < |s|
    ensures var n := EffectivePerPage(perPage);
            var r := Paginate(s, i / n + 1, perPage);
            i % n < |r.items| && r.items[i % n] == s[i] && i / n + 1 <= r.pages
  {
    var n := EffectivePerPage(perPage);
    var q := i / n;
    assert i == q * n + i % n;
    assert Offset(q + 1, perPage) == q * n;
    var r := Paginate(s, q + 1, perPage);
    var pc := PageCount(|s|, n);
    if pc < q + 1 {
      MulMonoNat(pc, q, n);
      assert false;
    }
  }

  lemma MulMonoNat(a: int, b: int, n: int)
    requires a <= b && n >= 1
    ensures a * n <= b * n
  {
  }

  // ---------------------------------------------------------------------------
  // Filters and grouped counts

  /** An integer filter argument applies only when given and non-zero
      (`if fabricante_id: query = query.filter(...)`). */
  predicate IdFilter(row: Row, c: string, v: Option<int>) {
    v.None? || v.value == 0 || Col(row, c) == Int(v.value)
  }

  /** One row of a `GROUP BY nome` count: a reference-table name and how
      many rows point at it. */
  datatype Group = Group(nome: Value, count: nat)

  /** Row `row` refers through `fk` to the reference row `key` (the join
      condition `row.fk = key.id`; NULL joins nothing). */
  predicate RefersTo(row: Row, fk: string, key: Row) {
    Col(row, fk) != Null && Col(row, fk) == Col(key, Id)
  }

  /** Row `row` joins some row of `keys`. */
  predicate JoinsSome(keys: Table, row: Row, fk: string) {
    exists i :: 0 <= i < |keys| && RefersTo(row, fk, keys[i])
  }

  /** The number of `rows` referring to `key`. */
  function RefCount(rows: Table, fk: string, key: Row): nat {
    Count(rows, (row: Row) => RefersTo(row, fk, key))
  }

  /** `SELECT key.nome, COUNT(row) FROM key JOIN row GROUP BY key.nome`:
      the inner join emits one group per reference row that some row
      refers to, never an empty one. */
  function GroupBy(keys: Table, rows: Table, fk: string): (r: seq<Group>)
    ensures forall g :: g in r ==> g.count > 0
    ensures forall g :: g in r ==> exists i :: 0 <= i < |keys| && g == Group(Col(keys[i], Nome), RefCount(rows, fk, keys[i]))
    ensures forall i :: 0 <= i < |keys| && RefCount(rows, fk, keys[i]) > 0 ==>
              Group(Col(keys[i], Nome), RefCount(rows, fk, keys[i])) in r
    decreases |keys|
  {
    if |keys| == 0 then []
    else
      var n := RefCount(rows, fk, keys[0]);
      var rest := GroupBy(keys[1..], rows, fk);
      assert forall i :: 1 <= i < |keys| ==> keys[i] == keys[1..][i - 1];
      if n > 0 then [Group(Col(keys[0], Nome), n)] + rest else rest
  }

  /** The sum of the group counts. */
  function TotalCount(gs: seq<Group>): nat
    decreases |gs|
  {
    if |gs| == 0 then 0 else gs[0].count + TotalCount(gs[1..])
  }

  /** With distinct reference ids the groups add up to the rows that join
      some reference row: rows with a NULL or dangling key are not counted. */
  lemma {:induction false} GroupByTotal(keys: Table, rows: Table, fk: string)
    requires IntKey(keys, Id)
    ensures TotalCount(GroupBy(keys, rows, fk)) == Count(rows, (row: Row) => JoinsSome(keys, row, fk))
    decreases |keys|
  {
    if |keys| == 0 {
      assert forall i :: 0 <= i < |rows| ==> !JoinsSome(keys, rows[i], fk);
    } else {
      var tail := keys[1..];
      assert forall i :: 1 <= i < |keys| ==> keys[i] == tail[i - 1];
      assert IntKey(tail, Id);
      GroupByTotal(tail, rows, fk);
      JoinsSplit(keys, fk);
      CountDisjoint(rows, (row: Row) => RefersTo(row, fk, keys[0]), (row: Row) => JoinsSome(tail, row, fk),
                    (row: Row) => JoinsSome(keys, row, fk));
    }
  }

  /** Joining some key is joining the first one or one of the rest, never both. */
  lemma JoinsSplit(keys: Table, fk: string)
    requires IntKey(keys, Id) && |keys| > 0
    ensures forall row :: JoinsSome(keys, row, fk) <==> RefersTo(row, fk, keys[0]) || JoinsSome(keys[1..], row, fk)
    ensures forall row :: !(RefersTo(row, fk, keys[0]) && JoinsSome(keys[1..], row, fk))
  {
    var tail := keys[1..];
    forall row: Row
      ensures JoinsSome(keys, row, fk) <==> RefersTo(row, fk, keys[0]) || JoinsSome(tail, row, fk)
      ensures !(RefersTo(row, fk, keys[0]) && JoinsSome(tail, row, fk))
    {
      if JoinsSome(keys, row, fk) {
        var i :| 0 <= i < |keys| && RefersTo(row, fk, keys[i]);
        if i > 0 {
          assert keys[i] == tail[i - 1];
        }
      }
      if JoinsSome(tail, row, fk) {
        var i :| 0 <= i < |tail| && RefersTo(row, fk, tail[i]);
        assert tail[i] == keys[i + 1];
        assert Col(keys[0], Id) != Col(keys[i + 1], Id);
      }
    }
  }
}
