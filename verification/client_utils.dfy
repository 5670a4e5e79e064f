/** The pure helpers of the browser client's utility script: the day count
    and status label of a calibration date, text truncation, slugs, the
    pagination bar, and the client-side filter and sort of table data.

    `new Date(...)` parsing, the local time zone and daylight saving time
    are not modelled: a parsed date is given as the day number of its local
    midnight (or `None` for an Invalid Date), and "today" as a day number. */
module ClientUtils {
  import opened Wrappers
  import opened Seqs
  import opened Text
  import opened JsValues
  import opened Query

  // ---------------------------------------------------------------------------
  // Day counts and calibration status

  const MsPerDay := 86400000

  /** `Math.ceil(a / d)` for a positive divisor. */
  function CeilDiv(a: int, d: int): (q: int)
    requires d > 0
    ensures (q - 1) * d < a <= q * d
  {
    -((-a) / d)
  }

  /** The result of `getDaysUntil`: `null`, `NaN` or a whole number of days. */
  datatype Days = NullDays | NaNDays | Days(n: int)

  /** `getDaysUntil(dateString)`: both instants are moved to local midnight,
      their difference in milliseconds is divided by the length of a day and
      rounded up. An Invalid Date makes the difference `NaN`; the `catch`
      branch is never reached because neither `new Date` nor `setHours`
      throws. */
  function GetDaysUntil(input: JsValue, target: Option<int>, today: int): (r: Days)
    ensures !Truthy(input) <==> r == NullDays
    ensures Truthy(input) && target.None? <==> r == NaNDays
    ensures Truthy(input) && target.Some? ==> r == Days(target.value - today)
  {
    if !Truthy(input) then NullDays
    else match target
      case None => NaNDays
      case Some(t) =>
        var diff := t * MsPerDay - today * MsPerDay;
        assert diff == (t - today) * MsPerDay;
        Days(CeilDiv(diff, MsPerDay))
  }

  /** The labels the client attaches to a calibration date. */
  datatype ClientStatus = SemData | DataInvalida | Vencido | ProximoVencimento | Vigente {
    function Key(): string {
      match this
      case SemData => "sem-data"
      case DataInvalida => "data-invalida"
      case Vencido => "vencido"
      case ProximoVencimento => "proximo-vencimento"
      case Vigente => "vigente"
    }
    function Text(): string {
      match this
      case SemData => "Sem Data"
      case DataInvalida => "Data Inválida"
      case Vencido => "Vencido"
      case ProximoVencimento => "Próximo Vencimento"
      case Vigente => "Vigente"
    }
    /** The CSS class; an invalid date is styled like a missing one. */
    function Class(): string {
      match this
      case DataInvalida => "sem-data"
      case _ => Key()
    }
  }

  /** Number of days ahead up to which a calibration is "near". */
  const NearDays := 30

  /** The thresholds of `getStatusCalibacao` applied to a day count as
      written: `dias === null` catches only `null`, and every comparison with
      `NaN` is false, so `NaN` falls through to the last branch. */
  function ClassifyDays(d: Days): ClientStatus {
    match d
    case NullDays => DataInvalida
    case NaNDays => Vigente
    case Days(n) => if n < 0 then Vencido else if n <= NearDays then ProximoVencimento else Vigente
  }

  /** `getStatusCalibacao(dataProximaCalibacao)` as written. */
  function GetStatusCalibacao(input: JsValue, target: Option<int>, today: int): (r: ClientStatus)
    ensures r == SemData <==> !Truthy(input)
    ensures r != DataInvalida
    ensures Truthy(input) && target.None? ==> r == Vigente
    ensures Truthy(input) && target.Some? ==>
      && (r == Vencido <==> target.value < today)
      && (r == ProximoVencimento <==> today <= target.value <= today + NearDays)
      && (r == Vigente <==> target.value > today + NearDays)
  {
    if !Truthy(input) then SemData else ClassifyDays(GetDaysUntil(input, target, today))
  }

  /** A string the browser cannot parse as a date is labelled "Vigente"
      (up to date), not "Data Inválida". */
  lemma InvalidDateShownVigente(today: int)
    ensures GetStatusCalibacao(JsStr("31/12/2024"), None, today) == Vigente
    ensures GetStatusCalibacao(JsStr("31/12/2024"), None, today).Key() == "vigente"
  {
  }

  /** The classifier with the invalid-date branch reachable, as its label
      evidently intends: `NaN` is treated like `null`. */
  function StatusCalibacaoIntended(input: JsValue, target: Option<int>, today: int): (r: ClientStatus)
    ensures r == SemData <==> !Truthy(input)
    ensures r == DataInvalida <==> Truthy(input) && target.None?
    ensures target.Some? ==> r == GetStatusCalibacao(input, target, today)
  {
    if !Truthy(input) then SemData
    else match GetDaysUntil(input, target, today)
      case NaNDays => DataInvalida
      case d => ClassifyDays(d)
  }

  // ---------------------------------------------------------------------------
  // Text

  /** `truncateText(text, maxLength)` on a string, or on `null`/`undefined`
      given as `None`. `substring(0, m)` clamps `m` into `[0, length]`. */
  function TruncateText(text: Option<string>, maxLength: int): (r: string)
    ensures text.None? || text == Some("") ==> r == ""
    ensures text.Some? && |text.value| <= maxLength ==> r == text.value
    ensures text.Some? && text.value != "" && |text.value| > maxLength ==>
      && |r| == (if maxLength < 0 then 0 else maxLength) + 3
      && r[..|r| - 3] <= text.value
      && r[|r| - 3..] == "..."
  {
    match text
    case None => ""
    case Some(s) =>
      if s == "" then ""
      else if |s| <= maxLength then s
      else s[..if maxLength < 0 then 0 else maxLength] + "..."
  }

  /** Truncating twice with the same limit is truncating once: the marker
      makes a truncated text longer than the limit, and its prefix is kept. */
  lemma TruncateIdempotent(text: Option<string>, maxLength: int)
    ensures TruncateText(Some(TruncateText(text, maxLength)), maxLength) == TruncateText(text, maxLength)
  {
    var r := TruncateText(text, maxLength);
    if text.Some? && text.value != "" && |text.value| > maxLength {
      var m := if maxLength < 0 then 0 else maxLength;
      assert r[..m] == text.value[..m];
    }
  }

  // ---------------------------------------------------------------------------
  // Pagination

  /** One element of the pagination bar. */
  datatype PageItem = PrevButton(disabled: bool) | PageButton(page: int, active: bool) | Dots | NextButton(disabled: bool)

  function WindowStart(cur: int): int {
    if cur - 2 > 1 then cur - 2 else 1
  }

  function WindowEnd(cur: int, total: int): int {
    if cur + 2 < total then cur + 2 else total
  }

  /** The buttons `start..end`, the current page marked active. */
  function PageRun(start: int, end: int, cur: int): (r: seq<PageItem>)
    ensures |r| == if end < start then 0 else end - start + 1
    ensures forall j :: 0 <= j < |r| ==> r[j] == PageButton(start + j, start + j == cur)
  {
    if end < start then [] else seq(end - start + 1, j requires 0 <= j <= end - start => PageButton(start + j, start + j == cur))
  }

  /** The first-page button, and dots when pages are skipped after it. */
  function LeadingItems(start: int): seq<PageItem> {
    if start > 1 then [PageButton(1, false)] + (if start > 2 then [Dots] else []) else []
  }

  /** Dots when pages are skipped, then the last-page button. */
  function TrailingItems(end: int, total: int): seq<PageItem> {
    if end < total then (if end < total - 1 then [Dots] else []) + [PageButton(total, false)] else []
  }

  /** The bar `createPagination(container, currentPage, totalPages, ...)`
      appends to its container, in order. */
  function CreatePagination(cur: int, total: int): (r: seq<PageItem>)
    ensures total <= 1 <==> r == []
    ensures total > 1 ==> r[0] == PrevButton(cur == 1) && r[|r| - 1] == NextButton(cur == total)
  {
    if total <= 1 then []
    else
      var start, end := WindowStart(cur), WindowEnd(cur, total);
      [PrevButton(cur == 1)] + LeadingItems(start) + PageRun(start, end, cur) + TrailingItems(end, total) + [NextButton(cur == total)]
  }

  /** The element at position `i` of a pagination bar. */
  lemma ItemAt(cur: int, total: int, i: int)
    requires total > 1 && 0 <= i < |CreatePagination(cur, total)|
    ensures var r, start, end := CreatePagination(cur, total), WindowStart(cur), WindowEnd(cur, total);
      var lead, run, trail := LeadingItems(start), PageRun(start, end, cur), TrailingItems(end, total);
      && |r| == 2 + |lead| + |run| + |trail|
      && r[i] == if i == 0 then PrevButton(cur == 1)
                 else if i <= |lead| then lead[i - 1]
                 else if i <= |lead| + |run| then run[i - 1 - |lead|]
                 else if i <= |lead| + |run| + |trail| then trail[i - 1 - |lead| - |run|]
                 else NextButton(cur == total)
  {
  }

  /** Where the page buttons sit: page 1 right after the previous button
      when the window starts later, the window pages in order after the
      leading items, and the last page right before the next button when
      the window ends earlier. */
  lemma PageAt(cur: int, total: int, i: int)
    requires total > 1 && 0 <= i < |CreatePagination(cur, total)|
    requires CreatePagination(cur, total)[i].PageButton?
    ensures var r, start, end := CreatePagination(cur, total), WindowStart(cur), WindowEnd(cur, total);
      var lead := |LeadingItems(start)|;
      || (i == 1 && start > 1 && r[i] == PageButton(1, false))
      || (lead < i <= lead + end - start + 1 && r[i] == PageButton(start + i - 1 - lead, start + i - 1 - lead == cur))
      || (i == |r| - 2 && end < total && r[i] == PageButton(total, false))
  {
    ItemAt(cur, total, i);
  }

  /** The page buttons of the bar are strictly increasing, so no page is
      offered twice. */
  lemma PaginationIncreasing(cur: int, total: int)
    ensures var r := CreatePagination(cur, total);
      forall i, j :: 0 <= i < j < |r| && r[i].PageButton? && r[j].PageButton? ==> r[i].page < r[j].page
  {
    var r := CreatePagination(cur, total);
    forall i, j | 0 <= i < j < |r| && r[i].PageButton? && r[j].PageButton?
      ensures r[i].page < r[j].page
    {
      PageAt(cur, total, i);
      PageAt(cur, total, j);
    }
  }

  /** A page button is active exactly when it is the current page, and the
      current page, when it exists, is always among the buttons. */
  lemma PaginationActive(cur: int, total: int)
    ensures var r := CreatePagination(cur, total);
      && (forall i :: 0 <= i < |r| && r[i].PageButton? ==> (r[i].active <==> r[i].page == cur))
      && (1 <= cur <= total && total > 1 ==> exists i :: 0 <= i < |r| && r[i] == PageButton(cur, true))
  {
    var r, start := CreatePagination(cur, total), WindowStart(cur);
    forall i | 0 <= i < |r| && r[i].PageButton?
      ensures r[i].active <==> r[i].page == cur
    {
      PageAt(cur, total, i);
    }
    if 1 <= cur <= total && total > 1 {
      var i := 1 + |LeadingItems(start)| + (cur - start);
      ItemAt(cur, total, i);
      assert r[i] == PageButton(cur, true);
    }
  }

  /** The buttons are the window `[max(1, cur - 2), min(total, cur + 2)]`,
      plus page 1 when the window starts after it and the last page when the
      window ends before it. */
  lemma PaginationPages(cur: int, total: int, p: int)
    requires total > 1
    ensures var r, start, end := CreatePagination(cur, total), WindowStart(cur), WindowEnd(cur, total);
      (exists i :: 0 <= i < |r| && r[i].PageButton? && r[i].page == p) <==>
        (start <= p <= end || (p == 1 && start > 1) || (p == total && end < total))
  {
    var r, start, end := CreatePagination(cur, total), WindowStart(cur), WindowEnd(cur, total);
    var lead := LeadingItems(start);
    ItemAt(cur, total, 0);
    forall i | 0 <= i < |r| && r[i].PageButton? && r[i].page == p
      ensures start <= p <= end || (p == 1 && start > 1) || (p == total && end < total)
    {
      PageAt(cur, total, i);
    }
    if start <= p <= end {
      ItemAt(cur, total, 1 + |lead| + (p - start));
    } else if p == 1 && start > 1 {
      ItemAt(cur, total, 1);
    } else if p == total && end < total {
      ItemAt(cur, total, |r| - 2);
    }
  }

  /** Where the dots sit: right after page 1 when the window starts past
      page 2, and right before the last page when the window ends before
      the page preceding it. */
  lemma DotsAt(cur: int, total: int, i: int)
    requires total > 1 && 0 <= i < |CreatePagination(cur, total)|
    requires CreatePagination(cur, total)[i] == Dots
    ensures var r, start, end := CreatePagination(cur, total), WindowStart(cur), WindowEnd(cur, total);
      || (i == 2 && start > 2)
      || (i == |r| - 3 && end < total - 1)
  {
    ItemAt(cur, total, i);
  }

  /** Within the page range, a dots element sits between two buttons whose
      pages are at least two apart. */
  lemma DotsBetween(cur: int, total: int, i: int)
    requires 1 <= cur <= total && total > 1 && 0 <= i < |CreatePagination(cur, total)|
    requires CreatePagination(cur, total)[i] == Dots
    ensures var r := CreatePagination(cur, total);
      1 < i < |r| - 2 && r[i - 1].PageButton? && r[i + 1].PageButton? && r[i + 1].page > r[i - 1].page + 1
  {
    DotsAt(cur, total, i);
    ItemAt(cur, total, i - 1);
    ItemAt(cur, total, i + 1);
  }

  /** Within the page range, two neighbouring buttons are consecutive pages. */
  lemma AdjacentPages(cur: int, total: int, i: int)
    requires 1 <= cur <= total && total > 1 && 1 <= i < |CreatePagination(cur, total)| - 2
    requires CreatePagination(cur, total)[i].PageButton? && CreatePagination(cur, total)[i + 1].PageButton?
    ensures CreatePagination(cur, total)[i + 1].page == CreatePagination(cur, total)[i].page + 1
  {
    PageAt(cur, total, i);
    PageAt(cur, total, i + 1);
  }

  /** Within the page range, the bar starts at page 1 and ends at the last
      page. */
  lemma PaginationEnds(cur: int, total: int)
    requires 1 <= cur <= total && total > 1
    ensures var r := CreatePagination(cur, total);
      && r[1] == PageButton(1, cur == 1)
      && r[|r| - 2] == PageButton(total, cur == total)
  {
    var r := CreatePagination(cur, total);
    ItemAt(cur, total, 0);
    ItemAt(cur, total, 1);
    ItemAt(cur, total, |r| - 2);
  }

  /** Within the page range, neighbouring buttons are consecutive pages. */
  lemma PaginationAdjacent(cur: int, total: int)
    requires 1 <= cur <= total && total > 1
    ensures var r := CreatePagination(cur, total);
      forall i :: 1 <= i < |r| - 2 && r[i].PageButton? && r[i + 1].PageButton? ==> r[i + 1].page == r[i].page + 1
  {
    var r := CreatePagination(cur, total);
    forall i | 1 <= i < |r| - 2 && r[i].PageButton? && r[i + 1].PageButton?
      ensures r[i + 1].page == r[i].page + 1
    {
      AdjacentPages(cur, total, i);
    }
  }

  /** Within the page range, dots stand exactly for skipped pages: a dots
      element always sits between two buttons whose pages are at least two
      apart. */
  lemma PaginationDots(cur: int, total: int)
    requires 1 <= cur <= total && total > 1
    ensures var r := CreatePagination(cur, total);
      forall i :: 0 <= i < |r| && r[i] == Dots ==>
        1 < i < |r| - 2 && r[i - 1].PageButton? && r[i + 1].PageButton? && r[i + 1].page > r[i - 1].page + 1
  {
    var r := CreatePagination(cur, total);
    forall i | 0 <= i < |r| && r[i] == Dots
      ensures 1 < i < |r| - 2 && r[i - 1].PageButton? && r[i + 1].PageButton? && r[i + 1].page > r[i - 1].page + 1
    {
      DotsBetween(cur, total, i);
    }
  }

  // ---------------------------------------------------------------------------
  // Slugs

  /** Replaces every maximal run of characters satisfying `p` by the single
      character `c` (a global `replace` of the pattern `p+`). */
  function ReplaceRuns(s: string, p: char -> bool, c: char): (r: string)
    ensures |s| > 0 ==> |r| > 0 && r[0] == (if p(s[0]) then c else s[0])
    ensures forall i :: 0 <= i < |r| ==> r[i] == c || (r[i] in s && !p(r[i]))
    ensures p(c) ==> forall i, j :: 0 <= i && j == i + 1 < |r| ==> !(r[i] == c && r[j] == c)
    decreases |s|
  {
    if |s| == 0 then []
    else if p(s[0]) then
      var rest := TrimStart(s, p);
      var tail := ReplaceRuns(rest, p, c);
      assert forall x :: x in rest ==> x in s;
      [c] + tail
    else
      var tail := ReplaceRuns(s[1..], p, c);
      assert forall x :: x in s[1..] ==> x in s;
      [s[0]] + tail
  }

  predicate IsDash(c: char) {
    c == '-'
  }

  /** JavaScript's `\w` (ASCII letters, digits and `_`) or `-`. */
  predicate IsWordOrDash(c: char) {
    'a' <= c <= 'z' || 'A' <= c <= 'Z' || '0' <= c <= '9' || c == '_' || c == '-'
  }

  /** The characters a slug is made of. */
  predicate IsSlugChar(c: char) {
    'a' <= c <= 'z' || '0' <= c <= '9' || c == '_' || c == '-'
  }

  predicate NoCapital(c: char) {
    !('A' <= c <= 'Z')
  }

  /** No two dashes in a row. */
  predicate NoDoubleDash(t: string) {
    forall i, j :: 0 <= i && j == i + 1 < |t| ==> !(t[i] == '-' && t[j] == '-')
  }

  /** A slug: lower-case word characters and single dashes, with no dash at
      either end. */
  predicate IsSlug(t: string) {
    && (forall i :: 0 <= i < |t| ==> IsSlugChar(t[i]))
    && NoDoubleDash(t)
    && (|t| > 0 ==> t[0] != '-' && t[|t| - 1] != '-')
  }

  /** `toLowerCase().trim()`: no ASCII capital is left. */
  function LowerTrim(text: string): (r: string)
    ensures forall i :: 0 <= i < |r| ==> NoCapital(r[i])
  {
    var l := Lower(text);
    TrimStartKeeps(l, IsJsSpace, NoCapital);
    TrimEndKeeps(TrimStart(l, IsJsSpace), IsJsSpace, NoCapital);
    JsTrim(l)
  }

  /** `.replace(/\s+/g, '-').replace(/[^\w\-]+/g, '')` on a string without
      ASCII capitals. */
  function KeepWordChars(s: string): (r: string)
    requires forall i :: 0 <= i < |s| ==> NoCapital(s[i])
    ensures forall i :: 0 <= i < |r| ==> IsSlugChar(r[i])
  {
    var dashed := ReplaceRuns(s, IsJsSpace, '-');
    assert forall i :: 0 <= i < |dashed| ==> NoCapital(dashed[i]);
    Filter(dashed, IsWordOrDash)
  }

  /** Trimming dashes keeps dashes single. */
  lemma TrimDashesKeepSingle(s: string)
    requires NoDoubleDash(s)
    ensures NoDoubleDash(TrimStart(s, IsDash)) && NoDoubleDash(TrimEnd(s, IsDash))
  {
    var a, b := TrimStart(s, IsDash), TrimEnd(s, IsDash);
    forall i, j | 0 <= i && j == i + 1 < |a|
      ensures !(a[i] == '-' && a[j] == '-')
    {
      assert a[i] == s[|s| - |a| + i] && a[j] == s[|s| - |a| + j];
    }
    forall i, j | 0 <= i && j == i + 1 < |b|
      ensures !(b[i] == '-' && b[j] == '-')
    {
      assert b[i] == s[i] && b[j] == s[j];
    }
  }

  /** `.replace(/\-\-+/g, '-').replace(/^-+/, '').replace(/-+$/, '')`. */
  function CollapseDashes(s: string): (r: string)
    requires forall i :: 0 <= i < |s| ==> IsSlugChar(s[i])
    ensures IsSlug(r)
  {
    var single := ReplaceRuns(s, IsDash, '-');
    assert forall i :: 0 <= i < |single| ==> IsSlugChar(single[i]);
    var front := TrimStart(single, IsDash);
    TrimStartKeeps(single, IsDash, IsSlugChar);
    TrimEndKeeps(front, IsDash, IsSlugChar);
    TrimDashesKeepSingle(single);
    TrimDashesKeepSingle(front);
    var r := TrimEnd(front, IsDash);
    assert |r| > 0 ==> r[0] == front[0];
    r
  }

  /** `slugify(text)` on a string: lower-case, trim, white-space runs to
      `-`, drop everything but word characters and `-`, collapse dash runs,
      strip leading and trailing dashes. */
  function Slugify(text: string): (r: string)
    ensures IsSlug(r)
  {
    CollapseDashes(KeepWordChars(LowerTrim(text)))
  }

  /** A string whose `p`-runs are already the single character `c` is left
      as it is. */
  lemma {:induction false} ReplaceRunsNoop(s: string, p: char -> bool, c: char)
    requires forall i :: 0 <= i < |s| && p(s[i]) ==> s[i] == c
    requires forall i, j :: 0 <= i && j == i + 1 < |s| ==> !(p(s[i]) && p(s[j]))
    ensures ReplaceRuns(s, p, c) == s
    decreases |s|
  {
    if |s| > 0 {
      var t := s[1..];
      assert forall i :: 0 <= i < |t| ==> t[i] == s[i + 1];
      ReplaceRunsNoop(t, p, c);
      if p(s[0]) {
        assert |t| > 0 ==> !p(t[0]);
        assert TrimStart(t, p) == t;
        assert TrimStart(s, p) == t;
        assert s[0] == c;
      }
      assert s == [s[0]] + t;
    }
  }

  lemma SlugCharFixed(c: char)
    requires IsSlugChar(c)
    ensures LowerChar(c) == c && !IsJsSpace(c)
  {
  }

  lemma LowerTrimSlug(t: string)
    requires IsSlug(t)
    ensures LowerTrim(t) == t
  {
    forall i | 0 <= i < |t|
      ensures LowerChar(t[i]) == t[i] && !IsJsSpace(t[i])
    {
      SlugCharFixed(t[i]);
    }
    assert Lower(t) == t;
    assert TrimStart(t, IsJsSpace) == t;
    assert TrimEnd(t, IsJsSpace) == t;
  }

  lemma KeepWordCharsSlug(t: string)
    requires IsSlug(t)
    ensures KeepWordChars(t) == t
  {
    ReplaceRunsNoop(t, IsJsSpace, '-');
    FilterAll(t, IsWordOrDash);
  }

  lemma CollapseDashesSlug(t: string)
    requires IsSlug(t)
    ensures CollapseDashes(t) == t
  {
    ReplaceRunsNoop(t, IsDash, '-');
    assert TrimStart(t, IsDash) == t;
    assert TrimEnd(t, IsDash) == t;
  }

  /** A slug is unchanged by `slugify`. */
  lemma SlugFixpoint(t: string)
    requires IsSlug(t)
    ensures Slugify(t) == t
  {
    LowerTrimSlug(t);
    KeepWordCharsSlug(t);
    CollapseDashesSlug(t);
  }

  /** The strings `slugify` leaves unchanged are exactly the slugs, so
      slugifying twice is slugifying once. */
  lemma SlugifyIdempotent(text: string)
    ensures Slugify(Slugify(text)) == Slugify(text)
    ensures Slugify(text) == text <==> IsSlug(text)
  {
    SlugFixpoint(Slugify(text));
    if IsSlug(text) {
      SlugFixpoint(text);
    }
  }

  // ---------------------------------------------------------------------------
  // Client-side filter and sort

  /** One field matches a lower-cased term: a truthy value whose string form,
      lower-cased, contains it. */
  predicate FieldMatches(v: JsValue, term: string) {
    Truthy(v) && Contains(Lower(ToJsString(v)), term)
  }

  /** Some searched field of the item matches. */
  predicate ItemMatches(item: Item, term: string, fields: seq<string>) {
    exists j :: 0 <= j < |fields| && FieldMatches(Get(item, fields[j]), term)
  }

  /** `filterData(data, searchTerm, searchFields)`: the matching items, in
      their order, as many as match. */
  function FilterData(data: seq<Item>, searchTerm: string, fields: seq<string>): (r: seq<Item>)
    ensures searchTerm == "" ==> r == data
    ensures searchTerm != "" ==>
      && (forall i :: 0 <= i < |r| ==> r[i] in data && ItemMatches(r[i], Lower(searchTerm), fields))
      && (forall i :: 0 <= i < |data| && ItemMatches(data[i], Lower(searchTerm), fields) ==> data[i] in r)
      && |r| == Count(data, (item: Item) => ItemMatches(item, Lower(searchTerm), fields))
      && multiset(r) <= multiset(data)
    ensures Subsequence(r, data)
  {
    if searchTerm == "" then
      FilterSubsequence(data, (item: Item) => true);
      FilterAll(data, (item: Item) => true);
      data
    else
      FilterSubsequence(data, (item: Item) => ItemMatches(item, Lower(searchTerm), fields));
      Filter(data, (item: Item) => ItemMatches(item, Lower(searchTerm), fields))
  }

  /** A string containing `a + b` contains `a`. */
  lemma ContainsPrefix(hay: string, a: string, b: string)
    requires Contains(hay, a + b)
    ensures Contains(hay, a)
  {
    var i :| OccursAt(hay, a + b, i);
    assert hay[i..i + |a|] == (a + b)[..|a|];
    assert OccursAt(hay, a, i);
  }

  /** Typing more of a search term only narrows the result: filtering by
      `t + u` is filtering the result for `t` again by `t + u`. With `u`
      empty, filtering twice by the same term is filtering once. */
  lemma FilterDataNarrows(data: seq<Item>, t: string, u: string, fields: seq<string>)
    requires t != ""
    ensures FilterData(data, t + u, fields) == FilterData(FilterData(data, t, fields), t + u, fields)
  {
    var p := (item: Item) => ItemMatches(item, Lower(t), fields);
    var q := (item: Item) => ItemMatches(item, Lower(t + u), fields);
    assert Lower(t + u) == Lower(t) + Lower(u);
    forall item | q(item)
      ensures p(item)
    {
      var j :| 0 <= j < |fields| && FieldMatches(Get(item, fields[j]), Lower(t + u));
      ContainsPrefix(Lower(ToJsString(Get(item, fields[j]))), Lower(t), Lower(u));
    }
    FilterNarrow(data, p, q);
  }

  /** The sort key of `sortTableData`: `null` and `undefined` read as `''`,
      then `String(value).toLowerCase()`. */
  function SortKey(item: Item, column: string): (k: string)
    ensures Get(item, column) in {JsNull, Undefined, JsStr("")} ==> k == ""
  {
    var v := Get(item, column);
    Lower(if v == JsNull || v == Undefined then "" else ToJsString(v))
  }

  /** The comparator of `sortTableData` as an order: `le(a, b)` stands for
      `a.localeCompare(b) <= 0`, and a direction other than `'asc'`
      compares the keys the other way round. */
  function RowLe(column: string, direction: string, le: (string, string) -> bool): (Item, Item) -> bool {
    (a: Item, b: Item) =>
      if direction == "asc" then le(SortKey(a, column), SortKey(b, column))
      else le(SortKey(b, column), SortKey(a, column))
  }

  /** `sortTableData(data, column, direction)`: a sorted copy; `data` itself
      is a value and is not changed. */
  function SortTableData(data: seq<Item>, column: string, direction: string, le: (string, string) -> bool): (r: seq<Item>)
    ensures multiset(r) == multiset(data) && |r| == |data|
  {
    SortBy(data, RowLe(column, direction, le))
  }

  lemma RowLePreorder(column: string, direction: string, le: (string, string) -> bool)
    requires TotalPreorder(le)
    ensures TotalPreorder(RowLe(column, direction, le))
  {
    var rl := RowLe(column, direction, le);
    forall a: Item, b: Item
      ensures rl(a, b) || rl(b, a)
    {
      var ka, kb := SortKey(a, column), SortKey(b, column);
      assert le(ka, kb) || le(kb, ka);
    }
    forall a: Item, b: Item, c: Item | rl(a, b) && rl(b, c)
      ensures rl(a, c)
    {
      var ka, kb, kc := SortKey(a, column), SortKey(b, column), SortKey(c, column);
      if direction == "asc" {
        assert le(ka, kb) && le(kb, kc);
      } else {
        assert le(kc, kb) && le(kb, ka);
      }
    }
  }

  /** When the locale comparison is a total preorder, the result is ordered
      by the lower-cased keys, ascending for `'asc'` and descending for any
      other direction. */
  lemma SortTableSorted(data: seq<Item>, column: string, direction: string, le: (string, string) -> bool)
    requires TotalPreorder(le)
    ensures var r := SortTableData(data, column, direction, le);
      forall i, j :: 0 <= i < j < |r| ==>
        if direction == "asc" then le(SortKey(r[i], column), SortKey(r[j], column))
        else le(SortKey(r[j], column), SortKey(r[i], column))
  {
    RowLePreorder(column, direction, le);
    SortBySorted(data, RowLe(column, direction, le));
  }
}
