/** The HTML scanners of the load-test client: they pull the anti-forgery
    token and the first menu item id out of a page without ever throwing. */
module LoadTest {
  import opened Wrappers
  import opened Guids

  predicate OccursAt(s: string, pattern: string, k: int) {
    0 <= k && k + |pattern| <= |s| && s[k..k + |pattern|] == pattern
  }

  /** `s.IndexOf(pattern, from)`, compared ordinally: the first position at
      or after `from` where `pattern` occurs, or -1 when there is none. */
  function IndexOf(s: string, pattern: string, from: nat): (r: int)
    requires from <= |s|
    ensures r == -1 || (from <= r && OccursAt(s, pattern, r))
    ensures forall k | from <= k && (r == -1 || k < r) :: !OccursAt(s, pattern, k)
    decreases |s| - from
  {
    if from + |pattern| > |s| then -1
    else if s[from..from + |pattern|] == pattern then from
    else IndexOf(s, pattern, from + 1)
  }

  /* ---------------- ExtractAntiForgeryToken ---------------- */

  const TokenMarker := "name=\"__RequestVerificationToken\""
  /** The hidden-input marker is this prefix followed by the plain marker. */
  const HiddenInputPrefix := "<input type=\"hidden\" "
  const HiddenTokenMarker := HiddenInputPrefix + TokenMarker
  const ValueMarker := "value=\""

  /** The text between the quotes of the first `value="…"` at or after
      `from`, or "" when there is no such attribute, it is not closed, or
      its value is empty. */
  function ValueAfter(s: string, from: nat): (v: string)
    requires from <= |s|
    ensures v != "" ==> '"' !in v
    ensures v != "" ==> exists p | from <= p :: IsFirstValueAt(s, from, p, v)
  {
    var p := IndexOf(s, ValueMarker, from);
    if p < 0 then ""
    else
      var start := p + |ValueMarker|;
      var q := IndexOf(s, "\"", start);
      if q > start then
        NoQuoteBefore(s, start, q);
        assert IsFirstValueAt(s, from, p, s[start..q]);
        s[start..q]
      else ""
  }

  /** The first occurrence at or after `from` is what `IndexOf` finds. */
  lemma IndexOfFinds(s: string, pattern: string, from: nat, p: int)
    requires from <= p && OccursAt(s, pattern, p)
    requires forall k | from <= k < p :: !OccursAt(s, pattern, k)
    ensures from <= |s| && IndexOf(s, pattern, from) == p
  {
    var r := IndexOf(s, pattern, from);
    assert r != -1 && r <= p;
  }

  /** Conversely, a closed, non-empty, quote-free first `value="…"` at or
      after `from` is what `ValueAfter` returns. */
  lemma ValueAfterFinds(s: string, from: nat, p: int, v: string)
    requires from <= p && IsFirstValueAt(s, from, p, v)
    requires v != "" && '"' !in v
    ensures from <= |s| && ValueAfter(s, from) == v
  {
    var w := ValueMarker + v + "\"";
    var start := p + |ValueMarker|;
    var q := start + |v|;
    assert s[p..p + |w|] == w;
    assert w[..|ValueMarker|] == ValueMarker;
    assert w[|ValueMarker|..q - p] == v;
    assert w[q - p..] == "\"";
    SliceOfSlice(s, p, p + |w|, 0, |ValueMarker|);
    SliceOfSlice(s, p, p + |w|, |ValueMarker|, q - p);
    SliceOfSlice(s, p, p + |w|, q - p, |w|);
    assert s[start..q] == v;
    assert OccursAt(s, ValueMarker, p) && OccursAt(s, "\"", q);
    IndexOfFinds(s, ValueMarker, from, p);
    forall k | start <= k < q ensures !OccursAt(s, "\"", k) {
      assert s[k] == v[k - start];
      assert s[k..k + 1] == [s[k]];
    }
    IndexOfFinds(s, "\"", start, q);
  }

  lemma SliceOfSlice(s: string, a: nat, b: nat, c: nat, d: nat)
    requires a <= b <= |s| && c <= d <= b - a
    ensures s[a..b][c..d] == s[a + c..a + d]
  {
    assert forall i | 0 <= i < d - c :: s[a..b][c..d][i] == s[a + c + i];
  }

  /** The first quote at or after `from` closes a run without quotes. */
  lemma NoQuoteBefore(s: string, from: nat, q: int)
    requires from <= q <= |s|
    requires forall k | from <= k < q :: !OccursAt(s, "\"", k)
    ensures '"' !in s[from..q]
  {
    forall k | from <= k < q ensures s[k] != '"' {
      assert !OccursAt(s, "\"", k);
      assert s[k..k + 1] == [s[k]];
    }
  }

  /** `value="` + `v` + `"` occurs at `p`, and no `value="` occurs between
      `from` and `p`. */
  ghost predicate IsFirstValueAt(s: string, from: int, p: int, v: string) {
    OccursAt(s, ValueMarker + v + "\"", p)
    && forall k | from <= k < p :: !OccursAt(s, ValueMarker, k)
  }

  /** `v` is the quoted value of the first `value="` after some occurrence
      of the plain token marker, and holds no quote. */
  ghost predicate IsTokenIn(s: string, v: string) {
    '"' !in v
    && exists m, p | 0 <= m <= p :: OccursAt(s, TokenMarker, m) && IsFirstValueAt(s, m, p, v)
  }

  /** What the scan starting at the first occurrence of `marker` yields. */
  function ValueAfterMarker(s: string, marker: string): string {
    var m := IndexOf(s, marker, 0);
    if m < 0 then "" else ValueAfter(s, m)
  }

  /** One `value="` scan of `ExtractAntiForgeryToken`, starting at `start`. */
  method ScanValue(s: string, start: nat) returns (v: string)
    requires start <= |s|
    ensures v == ValueAfter(s, start)
  {
    v := "";
    var valueStart := IndexOf(s, ValueMarker, start);
    if valueStart >= 0 {
      valueStart := valueStart + 7;
      var valueEnd := IndexOf(s, "\"", valueStart);
      if valueEnd > valueStart {
        v := s[valueStart..valueEnd];
      }
    }
  }

  /** `ExtractAntiForgeryToken`: the plain `name=` marker is tried first, the
      hidden-input marker only when the first scan found nothing. */
  method ExtractAntiForgeryToken(html: Option<string>) returns (token: string)
    ensures html.None? || html.value == [] ==> token == ""
    ensures html.Some? && html.value != [] ==>
      token == if ValueAfterMarker(html.value, TokenMarker) != "" then ValueAfterMarker(html.value, TokenMarker)
               else ValueAfterMarker(html.value, HiddenTokenMarker)
    ensures token != "" ==> html.Some? && IsTokenIn(html.value, token)
  {
    if html.None? || html.value == [] {
      return "";
    }
    var s := html.value;
    var tokenStart := IndexOf(s, TokenMarker, 0);
    if tokenStart >= 0 {
      token := ScanValue(s, tokenStart);
      if token != "" {
        PlainValueIsToken(s, tokenStart, token);
        return;
      }
    }
    var hiddenInputStart := IndexOf(s, HiddenTokenMarker, 0);
    if hiddenInputStart >= 0 {
      token := ScanValue(s, hiddenInputStart);
      if token != "" {
        HiddenValueIsToken(s, hiddenInputStart, token);
        return;
      }
    }
    return "";
  }

  lemma PlainValueIsToken(s: string, m: nat, v: string)
    requires m <= |s| && OccursAt(s, TokenMarker, m)
    requires v != "" && v == ValueAfter(s, m)
    ensures IsTokenIn(s, v)
  {
    var p :| m <= p && IsFirstValueAt(s, m, p, v);
  }

  /** A value found after the hidden-input marker is also the first one
      after the plain marker that the hidden-input marker ends with. */
  lemma HiddenValueIsToken(s: string, h: nat, v: string)
    requires h <= |s| && OccursAt(s, HiddenTokenMarker, h)
    requires v != "" && v == ValueAfter(s, h)
    ensures IsTokenIn(s, v)
  {
    var p :| h <= p && IsFirstValueAt(s, h, p, v);
    HiddenMarkerHoldsTokenMarker(s, h);
    FirstValuePastPrefix(s, h, p, v);
    assert 0 <= h + |HiddenInputPrefix| <= p;
  }

  lemma HiddenMarkerHoldsTokenMarker(s: string, h: int)
    requires OccursAt(s, HiddenTokenMarker, h)
    ensures OccursAt(s, TokenMarker, h + |HiddenInputPrefix|)
  {
    var t := h + |HiddenInputPrefix|;
    assert s[t..t + |TokenMarker|] == s[h..h + |HiddenTokenMarker|][|HiddenInputPrefix|..];
  }

  lemma FirstValuePastPrefix(s: string, h: int, p: int, v: string)
    requires OccursAt(s, HiddenTokenMarker, h) && h <= p && IsFirstValueAt(s, h, p, v)
    ensures h + |HiddenInputPrefix| <= p && IsFirstValueAt(s, h + |HiddenInputPrefix|, p, v)
  {
    NoValueInsidePrefix(s, h);
    var w := ValueMarker + v + "\"";
    assert w[..|ValueMarker|] == ValueMarker;
    assert s[p..p + |ValueMarker|] == s[p..p + |w|][..|ValueMarker|];
    assert OccursAt(s, ValueMarker, p);
    assert h + |HiddenInputPrefix| <= p;
    assert OccursAt(s, w, p);
  }

  /** No `value="` starts inside the `<input type="hidden" ` prefix. */
  lemma NoValueInsidePrefix(s: string, h: int)
    requires OccursAt(s, HiddenTokenMarker, h)
    ensures forall k | h <= k < h + |HiddenInputPrefix| :: !OccursAt(s, ValueMarker, k)
  {
    assert 'v' !in HiddenInputPrefix;
    forall k | h <= k < h + |HiddenInputPrefix|
      ensures !OccursAt(s, ValueMarker, k)
    {
      assert s[k] == s[h..h + |HiddenTokenMarker|][k - h] == HiddenTokenMarker[k - h] == HiddenInputPrefix[k - h];
      assert s[k] != 'v';
      assert k + |ValueMarker| <= |s| ==> s[k..k + |ValueMarker|][0] == s[k];
    }
  }

  /** Searching from `b` instead of `a` finds the same occurrence when none
      starts in between. */
  lemma IndexOfSkip(s: string, pattern: string, a: nat, b: nat)
    requires a <= |s| && b <= |s|
    ensures a <= b && (forall k | a <= k < b :: !OccursAt(s, pattern, k)) ==>
      IndexOf(s, pattern, a) == IndexOf(s, pattern, b)
  {
    if a <= b && forall k | a <= k < b :: !OccursAt(s, pattern, k) {
      var r, r' := IndexOf(s, pattern, a), IndexOf(s, pattern, b);
      if r' >= 0 { assert r != -1 && r <= r'; }
      if r >= 0 { assert r >= b && r' != -1 && r' <= r; }
    }
  }

  /** The hidden-input scan can only find a token that the plain scan missed
      when the first plain marker lies before the hidden input: otherwise both
      scans start at the same `value="` and find the same text. */
  lemma {:induction false} HiddenScanNeedsEarlierMarker(s: string)
    requires ValueAfterMarker(s, TokenMarker) == ""
    requires ValueAfterMarker(s, HiddenTokenMarker) != ""
    ensures 0 <= IndexOf(s, TokenMarker, 0) < IndexOf(s, HiddenTokenMarker, 0)
  {
    var h := IndexOf(s, HiddenTokenMarker, 0);
    HiddenMarkerHoldsTokenMarker(s, h);
    var m := IndexOf(s, TokenMarker, 0);
    assert 0 <= m <= h + |HiddenInputPrefix|;
    NoValueInsidePrefix(s, h);
    IndexOfSkip(s, ValueMarker, h, m);
    if m >= h {
      assert false;
    }
  }

  /* ---------------- ExtractFirstMenuItemId ---------------- */

  const DataAttrPattern := "data-menu-item-id=\""
  const AddToCartPattern := "/Menu/AddToCart?id="
  const RoutePattern := "asp-route-id=\""
  const HiddenSpanPattern := "<span class=\"data-menu-item-id\""

  /** The characters that end an id inside a quoted attribute. */
  const QuoteStops: set<char> := {'"', '\''}
  /** The characters that end an id inside an AddToCart link. */
  const LinkStops: set<char> := {'"', '\'', ' ', '&', '#', '?', '>', '<'}

  /** The first position at or after `start` that is the end of `s` or holds
      a stop character. */
  function SpanEnd(s: string, start: nat, stops: set<char>): (e: nat)
    requires start <= |s|
    ensures start <= e <= |s|
    ensures forall k | start <= k < e :: s[k] !in stops
    ensures e == |s| || s[e] in stops
    decreases |s| - start
  {
    if start == |s| || s[start] in stops then start else SpanEnd(s, start + 1, stops)
  }

  /** The `while` loops of `ExtractFirstMenuItemId`: advance past every
      character that is not a stop character. */
  method ScanToStop(s: string, start: nat, stops: set<char>) returns (idx: nat)
    requires start <= |s|
    ensures idx == SpanEnd(s, start, stops)
  {
    idx := start;
    while idx < |s| && s[idx] !in stops
      invariant start <= idx <= |s|
      invariant SpanEnd(s, idx, stops) == SpanEnd(s, start, stops)
    {
      idx := idx + 1;
    }
  }

  /** `p` is the first occurrence of `pattern` at or after `from`, and `v`
      follows it up to the end of `s` or a stop character. */
  ghost predicate IsFirstIdAt(s: string, pattern: string, from: int, p: int, v: string, stops: set<char>) {
    OccursAt(s, pattern, p)
    && p + |pattern| + |v| <= |s| && s[p + |pattern|..p + |pattern| + |v|] == v
    && (p + |pattern| + |v| == |s| || s[p + |pattern| + |v|] in stops)
    && forall k | from <= k < p :: !OccursAt(s, pattern, k)
  }

  /** The id that the scan after the first `pattern` at or after `from` cuts
      out, kept only when it is a non-empty GUID. */
  function IdAfter(s: string, pattern: string, from: nat, stops: set<char>): (r: Option<string>)
    requires from <= |s|
    ensures r.Some? ==> r.value != "" && IsGuid(r.value)
    ensures r.Some? ==> forall k | 0 <= k < |r.value| :: r.value[k] !in stops
    ensures r.Some? ==> exists p | from <= p :: IsFirstIdAt(s, pattern, from, p, r.value, stops)
  {
    var i := IndexOf(s, pattern, from);
    if i < 0 then None
    else
      var start := i + |pattern|;
      var v := s[start..SpanEnd(s, start, stops)];
      if v != "" && IsGuid(v) then
        assert IsFirstIdAt(s, pattern, from, i, v, stops);
        Some(v)
      else None
  }

  /** Conversely, a non-empty GUID free of stop characters that follows the
      first occurrence of `pattern` at or after `from` up to a stop or the
      end of the text is what `IdAfter` returns. */
  lemma IdAfterFinds(s: string, pattern: string, from: nat, stops: set<char>, p: int, v: string)
    requires from <= p && IsFirstIdAt(s, pattern, from, p, v, stops)
    requires v != "" && IsGuid(v) && forall k | 0 <= k < |v| :: v[k] !in stops
    ensures from <= |s| && IdAfter(s, pattern, from, stops) == Some(v)
  {
    IndexOfFinds(s, pattern, from, p);
    var start := p + |pattern|;
    var e := SpanEnd(s, start, stops);
    forall k | start <= k < start + |v| ensures s[k] !in stops {
      assert s[k] == s[start..start + |v|][k - start] == v[k - start];
    }
    assert e == start + |v|;
  }

  function DataAttrId(s: string): Option<string> {
    IdAfter(s, DataAttrPattern, 0, QuoteStops)
  }

  function AddToCartId(s: string): Option<string> {
    IdAfter(s, AddToCartPattern, 0, LinkStops)
  }

  function RouteId(s: string): Option<string> {
    IdAfter(s, RoutePattern, 0, QuoteStops)
  }

  /** The hidden-span pattern is only a starting point: the id is read from
      the first `data-menu-item-id="` after it. */
  function HiddenSpanId(s: string): Option<string> {
    var i := IndexOf(s, HiddenSpanPattern, 0);
    if i < 0 then None else IdAfter(s, DataAttrPattern, i, QuoteStops)
  }

  /** The four patterns in the order the scanner tries them. */
  function Candidates(s: string): seq<Option<string>> {
    [DataAttrId(s), AddToCartId(s), RouteId(s), HiddenSpanId(s)]
  }

  /** The first present value of `cs`, or `None` when every one is absent. */
  function FirstSome<T>(cs: seq<Option<T>>): (r: Option<T>)
    ensures r.None? <==> forall k | 0 <= k < |cs| :: cs[k].None?
    ensures r.Some? ==> exists k | 0 <= k < |cs| :: cs[k] == r && forall j | 0 <= j < k :: cs[j].None?
  {
    if cs == [] then None
    else if cs[0].Some? then cs[0]
    else
      var r := FirstSome(cs[1..]);
      assert forall k | 1 <= k < |cs| :: cs[k] == cs[1..][k - 1];
      r
  }

  /** `ExtractFirstMenuItemId`: null for a null page (the source catches the
      exception), otherwise the first pattern that yields a GUID. */
  method ExtractFirstMenuItemId(html: Option<string>) returns (id: Option<string>)
    ensures html.None? ==> id == None
    ensures html.Some? ==> id == FirstSome(Candidates(html.value))
    ensures id.Some? ==> id.value != "" && IsGuid(id.value) && '"' !in id.value && '\'' !in id.value
  {
    if html.None? {
      return None;
    }
    var s := html.value;
    ghost var cs := Candidates(s);
    id := ScanPattern(s, DataAttrPattern, 0, QuoteStops);
    if id.Some? {
      assert FirstSome(cs) == cs[0];
      return;
    }
    assert FirstSome(cs) == FirstSome(cs[1..]);
    id := ScanPattern(s, AddToCartPattern, 0, LinkStops);
    if id.Some? {
      return;
    }
    assert FirstSome(cs) == FirstSome(cs[2..]);
    id := ScanPattern(s, RoutePattern, 0, QuoteStops);
    if id.Some? {
      return;
    }
    assert FirstSome(cs) == FirstSome(cs[3..]) == FirstSome([HiddenSpanId(s)]);
    var idx := IndexOf(s, HiddenSpanPattern, 0);
    if idx >= 0 {
      id := ScanPattern(s, DataAttrPattern, idx, QuoteStops);
      if id.Some? {
        return;
      }
    }
    return None;
  }

  /** A GUID after the first `data-menu-item-id="` wins, whatever the later
      patterns would find. */
  lemma DataAttrWins(s: string, p: int, v: string)
    requires IsFirstIdAt(s, DataAttrPattern, 0, p, v, QuoteStops)
    requires v != "" && IsGuid(v) && '"' !in v && '\'' !in v
    ensures FirstSome(Candidates(s)) == Some(v)
  {
    IdAfterFinds(s, DataAttrPattern, 0, QuoteStops, p, v);
    assert Candidates(s)[0] == Some(v);
  }

  /** One pattern block of `ExtractFirstMenuItemId`: find the pattern, step
      past it, scan to a stop character and keep the text if it is a GUID. */
  method ScanPattern(s: string, pattern: string, from: nat, stops: set<char>) returns (id: Option<string>)
    requires from <= |s|
    ensures id == IdAfter(s, pattern, from, stops)
  {
    var idx := IndexOf(s, pattern, from);
    if idx < 0 {
      return None;
    }
    idx := idx + |pattern|;
    var startIdx := idx;
    idx := ScanToStop(s, idx, stops);
    var extractedId := s[startIdx..idx];
    if extractedId != "" && IsGuid(extractedId) {
      return Some(extractedId);
    }
    return None;
  }

  /** An id read from an AddToCart link stops before every link delimiter. */
  lemma LinkIdHasNoDelimiter(s: string)
    requires DataAttrId(s).None? && AddToCartId(s).Some?
    ensures FirstSome(Candidates(s)) == AddToCartId(s)
    ensures forall c | c in LinkStops :: c !in AddToCartId(s).value
  {
  }

  /** The hidden-span pattern can only yield an id that the data attribute
      pattern missed when the first `data-menu-item-id="` lies before the span:
      otherwise both read the same attribute. */
  lemma {:induction false} HiddenSpanNeedsEarlierAttribute(s: string)
    requires DataAttrId(s).None? && HiddenSpanId(s).Some?
    ensures 0 <= IndexOf(s, DataAttrPattern, 0) < IndexOf(s, HiddenSpanPattern, 0)
  {
    var h := IndexOf(s, HiddenSpanPattern, 0);
    var a := IndexOf(s, DataAttrPattern, 0);
    assert h >= 0;
    assert IndexOf(s, DataAttrPattern, h) >= 0;
    IndexOfSkip(s, DataAttrPattern, 0, h);
    SameHitSameId(s, DataAttrPattern, 0, h, QuoteStops);
    if a < 0 || a >= h {
      assert false;
    }
  }

  /** Two scans for the same pattern that stop at the same occurrence read
      the same id. */
  lemma SameHitSameId(s: string, pattern: string, a: nat, b: nat, stops: set<char>)
    requires a <= |s| && b <= |s|
    ensures IndexOf(s, pattern, a) == IndexOf(s, pattern, b) ==>
      IdAfter(s, pattern, a, stops) == IdAfter(s, pattern, b, stops)
  {
  }
}
