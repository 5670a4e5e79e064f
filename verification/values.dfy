/** Column and payload values, as the server sees them: JSON values decoded
    into Python objects and stored in SQLite columns. Python truthiness, the
    `data.get(key, default)` lookup, SQLite's comparison of a column with a
    text literal, the `LIKE '%term%'` match behind `.contains(term)`, and the
    conversion a column's type affinity applies to a value written to it. */
module Values {
  import opened Wrappers
  import opened Text

  /** A JSON scalar / SQLite storage class. Booleans arrive as `Int(1)`/`Int(0)`. */
  datatype Value = Null | Str(s: string) | Int(i: int) | Real(r: real)

  /** A JSON object sent as request body. */
  type Payload = map<string, Value>

  /** Python truthiness: `None`, `''`, `0` and `0.0` are false. */
  predicate Truthy(v: Value) {
    match v
    case Null => false
    case Str(s) => |s| > 0
    case Int(i) => i != 0
    case Real(r) => r != 0.0
  }

  /** `data.get(key, default)`. */
  function Get(p: Payload, key: string, default: Value): (v: Value)
    ensures key in p ==> v == p[key]
    ensures key !in p ==> v == default
  {
    if key in p then p[key] else default
  }

  /** `data.get(key)`: an absent key reads as `None`. */
  function GetOrNull(p: Payload, key: string): Value {
    Get(p, key, Null)
  }

  // ---------------------------------------------------------------------------
  // SQLite comparisons against a text literal

  /** `column < 'lit'`: NULL satisfies no comparison; integers and reals
      sort before every text value; text compares by code points. */
  predicate SqlLt(v: Value, lit: string) {
    match v
    case Null => false
    case Str(s) => LexLess(s, lit)
    case Int(_) => true
    case Real(_) => true
  }

  /** `column <= 'lit'`. */
  predicate SqlLe(v: Value, lit: string) {
    match v
    case Null => false
    case Str(s) => LexLe(s, lit)
    case Int(_) => true
    case Real(_) => true
  }

  /** `column >= 'lit'`. */
  predicate SqlGe(v: Value, lit: string) {
    match v
    case Null => false
    case Str(s) => LexLe(lit, s)
    case Int(_) => false
    case Real(_) => false
  }

  /** For a non-NULL column value exactly one of `< lit` and `>= lit` holds. */
  lemma SqlLtGeExclusive(v: Value, lit: string)
    ensures v != Null ==> (SqlLt(v, lit) <==> !SqlGe(v, lit))
    ensures v == Null ==> !SqlLt(v, lit) && !SqlGe(v, lit)
  {
    if v.Str? {
      LexTrichotomy(v.s, lit);
    }
  }

  // ---------------------------------------------------------------------------
  // LIKE

  /** The text SQLite matches LIKE against: text as is, integers rendered in
      decimal; NULL and reals (whose rendering is not modelled) give None. */
  function LikeText(v: Value): (r: Option<string>)
    ensures r.Some? ==> v.Str? || v.Int?
  {
    match v
    case Str(s) => Some(s)
    case Int(i) => Some(IntToString(i))
    case _ => None
  }

  /** SQLite's built-in LIKE: `%` matches any run, `_` any one character,
      every other character matches itself up to ASCII case. */
  predicate Like(pat: string, s: string)
    decreases |pat| + |s|
  {
    if |pat| == 0 then |s| == 0
    else if pat[0] == '%' then Like(pat[1..], s) || (|s| > 0 && Like(pat, s[1..]))
    else |s| > 0 && (pat[0] == '_' || AsciiLowerChar(pat[0]) == AsciiLowerChar(s[0])) && Like(pat[1..], s[1..])
  }

  /** SQLAlchemy `column.contains(term)`: `column LIKE '%' || term || '%'`,
      with no escaping of `%` and `_` in the term. */
  predicate SqlContains(v: Value, term: string) {
    var t := LikeText(v);
    t.Some? && Like("%" + term + "%", t.value)
  }

  predicate NoWildcards(t: string) {
    forall i :: 0 <= i < |t| ==> t[i] != '%' && t[i] != '_'
  }

  lemma {:induction false} LikePercentAll(s: string)
    ensures Like("%", s)
    decreases |s|
  {
    assert "%"[1..] == [];
    if |s| > 0 {
      LikePercentAll(s[1..]);
    }
  }

  /** A leading `%` matches exactly when the rest matches some suffix. */
  lemma {:induction false} LikeLeadingPercent(q: string, s: string)
    ensures Like("%" + q, s) <==> exists k :: 0 <= k <= |s| && Like(q, s[k..])
    decreases |s|
  {
    var p := "%" + q;
    assert p[1..] == q;
    if |s| == 0 {
      assert s[0..] == s;
    } else {
      LikeLeadingPercent(q, s[1..]);
      assert s[0..] == s;
      forall k | 1 <= k <= |s|
        ensures s[1..][k - 1..] == s[k..]
      {
      }
      if Like(p, s[1..]) {
        var k :| 0 <= k <= |s[1..]| && Like(q, s[1..][k..]);
        assert s[1..][k..] == s[k + 1..];
      }
      if exists k :: 0 <= k <= |s| && Like(q, s[k..]) {
        var k :| 0 <= k <= |s| && Like(q, s[k..]);
        if k > 0 {
          assert s[1..][k - 1..] == s[k..];
        }
      }
    }
  }

  /** A wildcard-free term followed by `%` matches exactly the strings that
      start with the term, up to ASCII case. */
  lemma {:induction false} LikePrefix(t: string, s: string)
    requires NoWildcards(t)
    ensures Like(t + "%", s) <==> |t| <= |s| && AsciiLower(s[..|t|]) == AsciiLower(t)
    decreases |t|
  {
    var p := t + "%";
    if |t| == 0 {
      assert p == "%";
      LikePercentAll(s);
    } else {
      assert p[0] == t[0] && p[1..] == t[1..] + "%";
      assert t[0] != '%' && t[0] != '_';
      if |s| > 0 {
        assert NoWildcards(t[1..]) by {
          assert forall i :: 0 <= i < |t[1..]| ==> t[1..][i] == t[i + 1];
        }
        LikePrefix(t[1..], s[1..]);
        if |t| <= |s| {
          LowerPrefixCons(t, s);
        }
      }
    }
  }

  /** Case-folded prefix equality, one character at a time. */
  lemma LowerPrefixCons(t: string, s: string)
    requires 0 < |t| <= |s|
    ensures AsciiLower(s[..|t|]) == AsciiLower(t) <==>
              AsciiLowerChar(t[0]) == AsciiLowerChar(s[0]) && AsciiLower(s[1..][..|t| - 1]) == AsciiLower(t[1..])
  {
    var head, rest, tail := s[..|t|], s[1..][..|t| - 1], t[1..];
    LowerEqPointwise(head, t);
    LowerEqPointwise(rest, tail);
    if forall i :: 0 <= i < |t| ==> AsciiLowerChar(head[i]) == AsciiLowerChar(t[i]) {
      forall j | 0 <= j < |tail|
        ensures AsciiLowerChar(rest[j]) == AsciiLowerChar(tail[j])
      {
        assert rest[j] == head[j + 1] && tail[j] == t[j + 1];
      }
    }
    if && AsciiLowerChar(t[0]) == AsciiLowerChar(s[0])
       && forall j :: 0 <= j < |tail| ==> AsciiLowerChar(rest[j]) == AsciiLowerChar(tail[j])
    {
      forall i | 0 <= i < |t|
        ensures AsciiLowerChar(head[i]) == AsciiLowerChar(t[i])
      {
        if i > 0 {
          assert head[i] == rest[i - 1] && t[i] == tail[i - 1];
        }
      }
    }
  }

  /** Equal-length texts fold to the same text exactly when they agree
      character by character after folding. */
  lemma LowerEqPointwise(x: string, y: string)
    requires |x| == |y|
    ensures AsciiLower(x) == AsciiLower(y) <==>
              forall i :: 0 <= i < |x| ==> AsciiLowerChar(x[i]) == AsciiLowerChar(y[i])
  {
    if forall i :: 0 <= i < |x| ==> AsciiLowerChar(x[i]) == AsciiLowerChar(y[i]) {
      assert forall i :: 0 <= i < |x| ==> AsciiLower(x)[i] == AsciiLower(y)[i];
    }
  }

  /** `.contains(term)` on a text column, for a term without wildcard
      characters, is an ASCII-case-insensitive substring test. */
  lemma LikeContains(term: string, s: string)
    requires NoWildcards(term)
    ensures Like("%" + term + "%", s) <==> Contains(AsciiLower(s), AsciiLower(term))
  {
    var q := term + "%";
    assert "%" + term + "%" == "%" + q;
    LikeLeadingPercent(q, s);
    if Like("%" + q, s) {
      var k :| 0 <= k <= |s| && Like(q, s[k..]);
      PrefixAt(term, s, k);
    }
    if Contains(AsciiLower(s), AsciiLower(term)) {
      var k :| OccursAt(AsciiLower(s), AsciiLower(term), k);
      PrefixAt(term, s, k);
    }
  }

  lemma PrefixAt(term: string, s: string, k: int)
    requires NoWildcards(term) && 0 <= k <= |s|
    ensures Like(term + "%", s[k..]) <==> OccursAt(AsciiLower(s), AsciiLower(term), k)
  {
    LikePrefix(term, s[k..]);
    if k + |term| <= |s| {
      assert s[k..][..|term|] == s[k..k + |term|];
      AsciiLowerSlice(s, k, k + |term|);
    }
  }

  lemma AsciiLowerSlice(s: string, i: int, j: int)
    requires 0 <= i <= j <= |s|
    ensures AsciiLower(s[i..j]) == AsciiLower(s)[i..j]
  {
  }

  // ---------------------------------------------------------------------------
  // Type affinity (section 3 of "Datatypes In SQLite Version 3")

  /** A column's affinity, decided by its declared type: `Integer` gives
      INTEGER, `Float` REAL, `String(n)` and `Text` TEXT. */
  datatype Affinity = IntegerAffinity | RealAffinity | TextAffinity

  /** The white space SQLite skips around a numeric literal. */
  predicate IsSqlSpace(c: char) {
    c == ' ' || '\t' <= c <= '\r'
  }

  /** The text inside the surrounding white space. */
  function Core(s: string): string {
    TrimEnd(TrimStart(s, IsSqlSpace), IsSqlSpace)
  }

  /** The text after an optional sign. */
  function Unsigned(t: string): (r: string)
    ensures |r| <= |t|
  {
    if |t| > 0 && (t[0] == '+' || t[0] == '-') then t[1..] else t
  }

  /** A well-formed integer literal: an optional sign and at least one
      decimal digit, white space around it allowed. Hexadecimal is not one. */
  predicate IntLiteral(s: string) {
    |Unsigned(Core(s))| > 0 && AllDigits(Unsigned(Core(s)))
  }

  function LiteralValue(s: string): int
    requires IntLiteral(s)
  {
    var t := Core(s);
    var n: int := ParseNat(Unsigned(t));
    if t[0] == '-' then -n else n
  }

  const MinInt64: int := -0x8000_0000_0000_0000
  const MaxInt64: int := 0x7FFF_FFFF_FFFF_FFFF

  predicate InInt64(n: int) {
    MinInt64 <= n <= MaxInt64
  }

  /** A real with an integer value that fits a 64-bit integer. */
  predicate IntegralInt64(x: real) {
    x == x.Floor as real && InInt64(x.Floor)
  }

  /** The number a value stands for in SQLite's numeric conversions: an
      integer, a real, or text holding an integer literal. */
  function Denotes(v: Value): Option<real> {
    match v
    case Int(i) => Some(i as real)
    case Real(x) => Some(x)
    case Str(s) => if IntLiteral(s) then Some(LiteralValue(s) as real) else None
    case Null => None
  }

  /** The value SQLite keeps when `v` is written to a column of affinity `a`,
      and the value a bound parameter compared with such a column is
      converted to. INTEGER converts integer-literal text (beyond 64 bits it
      becomes a REAL) and reals with an integer value; REAL converts
      integers and integer-literal text; TEXT renders integers in decimal. */
  function ApplyAffinity(a: Affinity, v: Value): (r: Value)
    ensures r.Null? <==> v.Null?
  {
    match (a, v)
    case (IntegerAffinity, Str(s)) =>
      if !IntLiteral(s) then v
      else if InInt64(LiteralValue(s)) then Int(LiteralValue(s))
      else Real(LiteralValue(s) as real)
    case (IntegerAffinity, Real(x)) => if IntegralInt64(x) then Int(x.Floor) else v
    case (RealAffinity, Str(s)) => if IntLiteral(s) then Real(LiteralValue(s) as real) else v
    case (RealAffinity, Int(i)) => Real(i as real)
    case (TextAffinity, Int(i)) =>
      IntToStringLiteral(i);
      Str(IntToString(i))
    case _ => v
  }

  /** What the conversion keeps and what it changes: NULL stays NULL and
      the number a value stands for is kept; an INTEGER column leaves text
      only when it is no integer literal and a real only when it has no
      64-bit integer value; REAL and TEXT columns never hold an integer; a
      TEXT column keeps text as it is and renders integers as text. */
  lemma ApplyAffinitySpec(a: Affinity, v: Value)
    ensures var r := ApplyAffinity(a, v);
            && (r.Null? <==> v.Null?)
            && Denotes(r) == Denotes(v)
            && (a == IntegerAffinity ==> (r.Str? ==> r == v && !IntLiteral(r.s)) && (r.Real? ==> !IntegralInt64(r.r)))
            && (a == RealAffinity ==> !r.Int? && (r.Str? ==> r == v && !IntLiteral(r.s)))
            && (a == TextAffinity ==> !r.Int? && (v.Str? ==> r == v) && (v.Int? ==> r.Str?))
  {
    match (a, v)
    case (IntegerAffinity, Str(s)) =>
      if IntLiteral(s) && !InInt64(LiteralValue(s)) {
        assert !IntegralInt64(LiteralValue(s) as real);
      }
    case (IntegerAffinity, _) =>
    case (RealAffinity, _) =>
    case (TextAffinity, Int(i)) => IntToStringLiteral(i);
    case (TextAffinity, _) =>
  }

  /** The decimal rendering of an integer is an integer literal for that integer. */
  lemma IntToStringLiteral(i: int)
    ensures IntLiteral(IntToString(i)) && LiteralValue(IntToString(i)) == i
  {
    var s := IntToString(i);
    var n: nat := if i < 0 then -i else i;
    var d := NatToString(n);
    ParseNatToString(n);
    assert s[|s| - 1] == d[|d| - 1];
    CoreWithoutSpace(s);
    if i < 0 {
      assert Unsigned(s) == d;
    } else {
      assert Unsigned(s) == d;
    }
  }

  /** Text that neither starts nor ends with white space is its own core. */
  lemma CoreWithoutSpace(s: string)
    requires |s| > 0 && !IsSqlSpace(s[0]) && !IsSqlSpace(s[|s| - 1])
    ensures Core(s) == s
  {
    assert TrimStart(s, IsSqlSpace) == s;
  }

  /** Converting a stored value again changes nothing: a value read back
      from a column and written to it unchanged stays as it is. */
  lemma AffinityIdempotent(a: Affinity, v: Value)
    ensures ApplyAffinity(a, ApplyAffinity(a, v)) == ApplyAffinity(a, v)
  {
    match (a, v)
    case (IntegerAffinity, Str(s)) =>
      if IntLiteral(s) && !InInt64(LiteralValue(s)) {
        assert !IntegralInt64(LiteralValue(s) as real);
      }
    case (TextAffinity, Int(i)) =>
    case _ =>
  }

  /** Numeric text written to an INTEGER column is stored as the integer it
      spells, the same value as the number itself: `'3'` and `3` are one
      foreign key. */
  lemma IntegerTextStoredAsInt(n: int)
    requires InInt64(n)
    ensures ApplyAffinity(IntegerAffinity, Str(IntToString(n))) == Int(n)
    ensures ApplyAffinity(IntegerAffinity, Str(IntToString(n))) == ApplyAffinity(IntegerAffinity, Int(n))
  {
    IntToStringLiteral(n);
  }

  /** A number written to a TEXT column is stored as its decimal text, the
      same value as that text: `5` and `'5'` are one serial number. */
  lemma TextColumnStoresDecimal(n: int)
    ensures ApplyAffinity(TextAffinity, Int(n)) == Str(IntToString(n))
    ensures ApplyAffinity(TextAffinity, Int(n)) == ApplyAffinity(TextAffinity, Str(IntToString(n)))
  {
  }
}
