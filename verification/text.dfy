/** Strings as `seq<char>`: decimal rendering, zero padding, the binary
    (code point) ordering SQLite and Python use to compare text, case
    folding, white-space trimming and substring search. */
module Text {

  predicate IsDigit(c: char) {
    '0' <= c <= '9'
  }

  predicate AllDigits(s: string) {
    forall i :: 0 <= i < |s| ==> IsDigit(s[i])
  }

  function DigitChar(d: int): (c: char)
    requires 0 <= d < 10
    ensures IsDigit(c)
  {
    (d + '0' as int) as char
  }

  function DigitValue(c: char): (d: int)
    requires IsDigit(c)
    ensures 0 <= d < 10
  {
    c as int - '0' as int
  }

  function Pow10(n: nat): (p: nat)
    ensures p >= 1
  {
    if n == 0 then 1 else 10 * Pow10(n - 1)
  }

  // ---------------------------------------------------------------------------
  // Decimal rendering and parsing

  /** Python `str(n)` / JavaScript `String(n)` of a natural number. */
  function NatToString(n: nat): (s: string)
    ensures |s| >= 1 && AllDigits(s)
    ensures |s| > 1 ==> s[0] != '0'
    decreases n
  {
    if n < 10 then [DigitChar(n)] else NatToString(n / 10) + [DigitChar(n % 10)]
  }

  /** Python `str(i)` / JavaScript `String(i)` of an integer. */
  function IntToString(i: int): string {
    if i < 0 then "-" + NatToString(-i) else NatToString(i)
  }

  /** Value of a string of decimal digits (Python `int(...)` on such a string). */
  function ParseNat(s: string): (n: nat)
    requires AllDigits(s)
    ensures n < Pow10(|s|)
    decreases |s|
  {
    if |s| == 0 then 0 else 10 * ParseNat(s[..|s| - 1]) + DigitValue(s[|s| - 1])
  }

  /** The width-`w` zero-padded rendering of `n` modulo 10^w
      (strftime `%Y`, `%m`, `%d`; Python `f"{n:02d}"` for small `n`). */
  function Pad(n: nat, w: nat): (s: string)
    ensures |s| == w && AllDigits(s)
    decreases w
  {
    if w == 0 then [] else Pad(n / 10, w - 1) + [DigitChar(n % 10)]
  }

  lemma {:induction false} ParseNatToString(n: nat)
    ensures ParseNat(NatToString(n)) == n
    decreases n
  {
    if n >= 10 {
      var s := NatToString(n);
      assert s[..|s| - 1] == NatToString(n / 10);
      ParseNatToString(n / 10);
    }
  }

  /** Parsing a padded rendering gives back the number (modulo 10^w). */
  lemma {:induction false} ParsePad(n: nat, w: nat)
    ensures ParseNat(Pad(n, w)) == n % Pow10(w)
    decreases w
  {
    if w > 0 {
      var s := Pad(n, w);
      assert s[..|s| - 1] == Pad(n / 10, w - 1);
      ParsePad(n / 10, w - 1);
      DivModPow10(n, w);
    }
  }

  lemma DivModPow10(n: nat, w: nat)
    requires w > 0
    ensures n % Pow10(w) == 10 * ((n / 10) % Pow10(w - 1)) + n % 10
  {
    var p := Pow10(w - 1);
    var q := n / 10;
    assert n == 10 * q + n % 10;
    assert q == p * (q / p) + q % p;
    assert n == (10 * p) * (q / p) + (10 * (q % p) + n % 10);
    assert 0 <= 10 * (q % p) + n % 10 < 10 * p;
    DivModUnique(n, 10 * p, q / p, 10 * (q % p) + n % 10);
  }

  lemma DivModUnique(n: int, d: int, q: int, r: int)
    requires d > 0 && n == d * q + r && 0 <= r < d
    ensures n % d == r && n / d == q
  {
    var q' := n / d;
    var r' := n % d;
    assert n == d * q' + r';
    if q' > q {
      assert d * q' >= d * (q + 1) by { MulMono(d, q + 1, q'); }
    } else if q' < q {
      assert d * q >= d * (q' + 1) by { MulMono(d, q' + 1, q); }
    }
  }

  lemma MulMono(d: int, a: int, b: int)
    requires d > 0 && a <= b
    ensures d * a <= d * b
  {
  }

  /** A number with exactly `w` digits is rendered the same padded or not. */
  lemma {:induction false} NatToStringIsPad(n: nat, w: nat)
    requires w >= 1 && Pow10(w - 1) <= n < Pow10(w)
    ensures NatToString(n) == Pad(n, w)
    decreases w
  {
    if w == 1 {
      assert n < 10;
      assert Pad(n / 10, 0) == [];
    } else {
      assert Pow10(w - 2) <= n / 10 < Pow10(w - 1);
      NatToStringIsPad(n / 10, w - 1);
    }
  }

  lemma Pow10Four()
    ensures Pow10(3) == 1000 && Pow10(4) == 10000
  {
    assert Pow10(0) == 1 && Pow10(1) == 10 && Pow10(2) == 100;
  }

  /** A four-digit year prints as its `%Y` rendering. */
  lemma YearIsPad(y: nat)
    requires 1000 <= y <= 9999
    ensures NatToString(y) == Pad(y, 4) && IntToString(y) == Pad(y, 4)
  {
    Pow10Four();
    NatToStringIsPad(y, 4);
  }

  // ---------------------------------------------------------------------------
  // Binary ordering of text: SQLite's default BINARY collation on UTF-8
  // (which orders like code points) and Python's `str` comparison.

  /** `a` sorts strictly before `b`: first differing character decides, and a
      proper prefix sorts first. */
  predicate LexLess(a: string, b: string)
    decreases |a|
  {
    |b| > 0 && (|a| == 0 || a[0] < b[0] || (a[0] == b[0] && LexLess(a[1..], b[1..])))
  }

  predicate LexLe(a: string, b: string) {
    a == b || LexLess(a, b)
  }

  lemma {:induction false} LexLessIrreflexive(a: string)
    ensures !LexLess(a, a)
    decreases |a|
  {
    if |a| > 0 {
      LexLessIrreflexive(a[1..]);
    }
  }

  /** Exactly one of `a < b`, `a == b`, `b < a` holds. */
  lemma {:induction false} LexTrichotomy(a: string, b: string)
    ensures LexLess(a, b) || a == b || LexLess(b, a)
    ensures !(LexLess(a, b) && LexLess(b, a))
    ensures !(LexLess(a, b) && a == b)
    decreases |a|
  {
    if a == b {
      LexLessIrreflexive(a);
    } else if |a| > 0 && |b| > 0 && a[0] == b[0] {
      LexTrichotomy(a[1..], b[1..]);
    }
  }

  lemma {:induction false} LexLessTransitive(a: string, b: string, c: string)
    requires LexLess(a, b) && LexLess(b, c)
    ensures LexLess(a, c)
    decreases |a|
  {
    if |a| > 0 && a[0] == b[0] && b[0] == c[0] {
      LexLessTransitive(a[1..], b[1..], c[1..]);
    }
  }

  lemma LexLeTransitive(a: string, b: string, c: string)
    requires LexLe(a, b) && LexLe(b, c)
    ensures LexLe(a, c)
  {
    if a != b && b != c {
      LexLessTransitive(a, b, c);
    }
  }

  lemma LexLeTotal(a: string, b: string)
    ensures LexLe(a, b) || LexLe(b, a)
  {
    LexTrichotomy(a, b);
  }

  /** Comparing two concatenations whose first parts have equal length
      compares the first parts, and on a tie the second parts. */
  lemma {:induction false} LexAppend(u: string, v: string, u': string, v': string)
    requires |u| == |u'|
    ensures LexLess(u + v, u' + v') <==> LexLess(u, u') || (u == u' && LexLess(v, v'))
    decreases |u|
  {
    if |u| == 0 {
      assert u + v == v && u' + v' == v';
    } else {
      assert (u + v)[1..] == u[1..] + v;
      assert (u' + v')[1..] == u'[1..] + v';
      LexAppend(u[1..], v, u'[1..], v');
      if u[0] == u'[0] && u[1..] == u'[1..] {
        assert u == [u[0]] + u[1..] && u' == [u'[0]] + u'[1..];
      }
      if u == u' {
        assert u[1..] == u'[1..];
      }
    }
  }

  /** Zero-padded numbers of equal width compare as the numbers do. */
  lemma {:induction false} LexPad(a: nat, b: nat, w: nat)
    requires a < Pow10(w) && b < Pow10(w)
    ensures LexLess(Pad(a, w), Pad(b, w)) <==> a < b
    decreases w
  {
    if w > 0 {
      var ha, hb := Pad(a / 10, w - 1), Pad(b / 10, w - 1);
      var ta, tb := [DigitChar(a % 10)], [DigitChar(b % 10)];
      LexAppend(ha, ta, hb, tb);
      LexPad(a / 10, b / 10, w - 1);
      PadInjective(a / 10, b / 10, w - 1);
      assert LexLess(ta, tb) <==> a % 10 < b % 10 by {
        assert ta[1..] == [] && tb[1..] == [];
      }
    }
  }

  lemma PadInjective(a: nat, b: nat, w: nat)
    requires a < Pow10(w) && b < Pow10(w)
    ensures Pad(a, w) == Pad(b, w) <==> a == b
  {
    ParsePad(a, w);
    ParsePad(b, w);
  }

  // ---------------------------------------------------------------------------
  // Case folding

  /** Lower-casing of one character by Python `str.lower` and JavaScript
      `toLowerCase`, restricted to the Basic Latin and Latin-1 letters. */
  function LowerChar(c: char): (r: char)
    ensures !('A' <= r <= 'Z')
  {
    if 'A' <= c <= 'Z' || ('\U{C0}' <= c <= '\U{DE}' && c != '\U{D7}') then (c as int + 32) as char else c
  }

  function Lower(s: string): (r: string)
    ensures |r| == |s|
    ensures forall i :: 0 <= i < |s| ==> r[i] == LowerChar(s[i])
  {
    seq(|s|, i requires 0 <= i < |s| => LowerChar(s[i]))
  }

  /** The case folding of SQLite's built-in LIKE: ASCII letters only. */
  function AsciiLowerChar(c: char): char {
    if 'A' <= c <= 'Z' then (c as int + 32) as char else c
  }

  function AsciiLower(s: string): (r: string)
    ensures |r| == |s|
    ensures forall i :: 0 <= i < |s| ==> r[i] == AsciiLowerChar(s[i])
  {
    seq(|s|, i requires 0 <= i < |s| => AsciiLowerChar(s[i]))
  }

  // ---------------------------------------------------------------------------
  // White space

  /** Characters that both Python's `str.isspace` and JavaScript's `\s` treat as white space. */
  predicate IsCommonSpace(c: char) {
    || c == ' ' || '\t' <= c <= '\r' || c == '\U{A0}' || c == '\U{1680}'
    || '\U{2000}' <= c <= '\U{200A}' || c == '\U{2028}' || c == '\U{2029}'
    || c == '\U{202F}' || c == '\U{205F}' || c == '\U{3000}'
  }

  /** Python `str.isspace` on one character. */
  predicate IsPySpace(c: char) {
    IsCommonSpace(c) || '\U{1C}' <= c <= '\U{1F}' || c == '\U{85}'
  }

  /** JavaScript `\s` (and the set `String.prototype.trim` removes). */
  predicate IsJsSpace(c: char) {
    IsCommonSpace(c) || c == '\U{FEFF}'
  }

  /** Drops the leading characters satisfying `sp`. */
  function TrimStart(s: string, sp: char -> bool): (r: string)
    ensures |r| <= |s| && r == s[|s| - |r|..]
    ensures |r| > 0 ==> !sp(r[0])
    ensures forall i :: 0 <= i < |s| - |r| ==> sp(s[i])
    decreases |s|
  {
    if |s| > 0 && sp(s[0]) then TrimStart(s[1..], sp) else s
  }

  /** Drops the trailing characters satisfying `sp`. */
  function TrimEnd(s: string, sp: char -> bool): (r: string)
    ensures |r| <= |s| && r == s[..|r|]
    ensures |r| > 0 ==> !sp(r[|r| - 1])
    ensures forall i :: |r| <= i < |s| ==> sp(s[i])
    decreases |s|
  {
    if |s| > 0 && sp(s[|s| - 1]) then TrimEnd(s[..|s| - 1], sp) else s
  }

  /** Trimming keeps any property every character has. */
  lemma TrimStartKeeps(s: string, sp: char -> bool, q: char -> bool)
    requires forall i :: 0 <= i < |s| ==> q(s[i])
    ensures forall i :: 0 <= i < |TrimStart(s, sp)| ==> q(TrimStart(s, sp)[i])
  {
    var r := TrimStart(s, sp);
    forall i | 0 <= i < |r|
      ensures q(r[i])
    {
      assert r[i] == s[|s| - |r| + i];
    }
  }

  lemma TrimEndKeeps(s: string, sp: char -> bool, q: char -> bool)
    requires forall i :: 0 <= i < |s| ==> q(s[i])
    ensures forall i :: 0 <= i < |TrimEnd(s, sp)| ==> q(TrimEnd(s, sp)[i])
  {
    var r := TrimEnd(s, sp);
    forall i | 0 <= i < |r|
      ensures q(r[i])
    {
      assert r[i] == s[i];
    }
  }

  /** Python `str.strip()`. */
  function PyStrip(s: string): string {
    TrimEnd(TrimStart(s, IsPySpace), IsPySpace)
  }

  /** JavaScript `String.prototype.trim()`. */
  function JsTrim(s: string): string {
    TrimEnd(TrimStart(s, IsJsSpace), IsJsSpace)
  }

  // ---------------------------------------------------------------------------
  // Substrings

  /** `needle` occurs in `hay` at position `i`. */
  predicate OccursAt(hay: string, needle: string, i: int) {
    0 <= i && i + |needle| <= |hay| && hay[i..i + |needle|] == needle
  }

  /** Python `needle in hay` / JavaScript `hay.includes(needle)`. */
  function Contains(hay: string, needle: string): (b: bool)
    ensures b <==> exists i :: OccursAt(hay, needle, i)
    decreases |hay|
  {
    if |needle| <= |hay| && hay[..|needle|] == needle then
      assert OccursAt(hay, needle, 0);
      true
    else if |hay| == 0 then
      assert forall i :: !OccursAt(hay, needle, i);
      false
    else
      var rest := Contains(hay[1..], needle);
      assert forall i :: OccursAt(hay[1..], needle, i) ==> OccursAt(hay, needle, i + 1) by {
        forall i | OccursAt(hay[1..], needle, i)
          ensures OccursAt(hay, needle, i + 1)
        {
          assert hay[1..][i..i + |needle|] == hay[i + 1..i + 1 + |needle|];
        }
      }
      assert !OccursAt(hay, needle, 0);
      assert forall i :: OccursAt(hay, needle, i) ==> OccursAt(hay[1..], needle, i - 1) by {
        forall i | OccursAt(hay, needle, i)
          ensures OccursAt(hay[1..], needle, i - 1)
        {
          assert hay[1..][i - 1..i - 1 + |needle|] == hay[i..i + |needle|];
        }
      }
      rest
  }

  /** Concatenation of `parts` with `sep` between consecutive parts
      (JavaScript `Array.prototype.join`). */
  function Join(parts: seq<string>, sep: string): (r: string)
    ensures |parts| == 0 ==> r == []
    ensures |parts| > 0 && |parts[0]| > 0 ==> |r| > 0
    decreases |parts|
  {
    if |parts| == 0 then []
    else if |parts| == 1 then parts[0]
    else parts[0] + sep + Join(parts[1..], sep)
  }
}
