/** GUIDs as the services and the load-test client read them: `Guid.TryParse`
    and the canonical text form produced by `Guid.ToString()`. */
module Guids {
  import opened Wrappers

  type Nibble = n: int | 0 <= n < 16

  /** A GUID as its 32 hexadecimal digits, in the order they are written. */
  type Guid = s: seq<Nibble> | |s| == 32 witness seq(32, i => 0)

  predicate IsHexDigit(c: char) {
    '0' <= c <= '9' || 'a' <= c <= 'f' || 'A' <= c <= 'F'
  }

  function HexValue(c: char): Nibble
    requires IsHexDigit(c)
  {
    if '0' <= c <= '9' then c as int - '0' as int
    else if 'a' <= c <= 'f' then c as int - 'a' as int + 10
    else c as int - 'A' as int + 10
  }

  /** The lower-case digit that `Guid.ToString()` writes for a nibble. */
  function HexChar(n: Nibble): (c: char)
    ensures IsHexDigit(c) && HexValue(c) == n
  {
    if n < 10 then ('0' as int + n) as char else ('a' as int + n - 10) as char
  }

  /** White space that `Guid.TryParse` trims (the ASCII part of `char.IsWhiteSpace`). */
  predicate IsSpace(c: char) {
    c == ' ' || 9 <= c as int <= 13
  }

  function TrimStart(s: string): string {
    if s != [] && IsSpace(s[0]) then TrimStart(s[1..]) else s
  }

  function TrimEnd(s: string): string {
    if s != [] && IsSpace(s[|s| - 1]) then TrimEnd(s[..|s| - 1]) else s
  }

  /** `TrimStart` drops exactly the leading white space. */
  lemma {:induction false} TrimStartDropsSpace(s: string)
    ensures var r := TrimStart(s);
      |r| <= |s| && r == s[|s| - |r|..]
      && (r == [] || !IsSpace(r[0]))
      && forall j | 0 <= j < |s| - |r| :: IsSpace(s[j])
  {
    if s != [] && IsSpace(s[0]) {
      var t := s[1..];
      TrimStartDropsSpace(t);
      var r := TrimStart(t);
      assert t[|t| - |r|..] == s[|s| - |r|..];
      forall j | 0 <= j < |s| - |r| ensures IsSpace(s[j]) {
        if j > 0 { assert s[j] == t[j - 1]; }
      }
    } else {
      assert s[0..] == s;
    }
  }

  /** `TrimEnd` drops exactly the trailing white space. */
  lemma {:induction false} TrimEndDropsSpace(s: string)
    ensures var r := TrimEnd(s);
      |r| <= |s| && r == s[..|r|]
      && (r == [] || !IsSpace(r[|r| - 1]))
      && forall j | |r| <= j < |s| :: IsSpace(s[j])
  {
    if s != [] && IsSpace(s[|s| - 1]) {
      var t := s[..|s| - 1];
      TrimEndDropsSpace(t);
      var r := TrimEnd(t);
      assert t[..|r|] == s[..|r|];
      forall j | |r| <= j < |s| ensures IsSpace(s[j]) {
        if j < |s| - 1 { assert s[j] == t[j]; }
      }
    } else {
      assert s[..|s|] == s;
    }
  }

  function Trim(s: string): string {
    TrimEnd(TrimStart(s))
  }

  predicate AllHex(s: string) {
    forall i | 0 <= i < |s| :: IsHexDigit(s[i])
  }

  /** The "N" format: 32 hexadecimal digits. */
  function ParseExactN(t: string): (r: Option<Guid>)
    ensures r.Some? <==> |t| == 32 && AllHex(t)
    ensures r.Some? ==> forall i | 0 <= i < 32 :: r.value[i] == HexValue(t[i])
  {
    if |t| == 32 && AllHex(t) then Some(seq(32, i requires 0 <= i < 32 => HexValue(t[i]))) else None
  }

  predicate HasDashes(t: string) {
    |t| == 36 && t[8] == '-' && t[13] == '-' && t[18] == '-' && t[23] == '-'
  }

  /** The digits of a "D"-format string, its four dashes removed. */
  function Undash(t: string): (r: string)
    requires HasDashes(t)
    ensures |r| == 32
  {
    t[..8] + t[9..13] + t[14..18] + t[19..23] + t[24..]
  }

  /** The "D" format: 8-4-4-4-12 hexadecimal digits separated by dashes. */
  function ParseExactD(t: string): Option<Guid> {
    if HasDashes(t) then ParseExactN(Undash(t)) else None
  }

  /** The "B" and "P" formats: the "D" format inside braces or parentheses. */
  function ParseEnclosedD(t: string, open: char, close: char): Option<Guid> {
    if |t| == 38 && t[0] == open && t[37] == close then ParseExactD(t[1..37]) else None
  }

  /** `Guid.TryParse`: `None` where it returns false. The input is trimmed and
      the first character and the presence of a dash choose the format. */
  function ParseGuid(s: string): Option<Guid> {
    var t := Trim(s);
    if t == [] then None
    else if t[0] == '(' then ParseEnclosedD(t, '(', ')')
    else if t[0] == '{' then (if '-' in t then ParseEnclosedD(t, '{', '}') else None)
    else if '-' in t then ParseExactD(t)
    else ParseExactN(t)
  }

  predicate IsGuid(s: string) {
    ParseGuid(s).Some?
  }

  /** `Guid.TryParse` on a reference that may be null: null never parses. */
  function TryParse(s: Option<string>): (r: Option<Guid>)
    ensures s.None? ==> r.None?
    ensures s.Some? ==> r == ParseGuid(s.value)
  {
    if s.None? then None else ParseGuid(s.value)
  }

  function HexString(ds: seq<Nibble>): (r: string)
    ensures |r| == |ds| && AllHex(r)
    ensures forall i | 0 <= i < |ds| :: r[i] == HexChar(ds[i])
  {
    seq(|ds|, i requires 0 <= i < |ds| => HexChar(ds[i]))
  }

  /** `Guid.ToString()`: the lower-case "D" format. */
  function FormatGuid(g: Guid): (r: string)
    ensures |r| == 36 && HasDashes(r)
  {
    HexString(g[..8]) + "-" + HexString(g[8..12]) + "-" + HexString(g[12..16]) + "-"
      + HexString(g[16..20]) + "-" + HexString(g[20..])
  }

  /** Every formatted GUID parses back to itself, so `TryParse(id.ToString())`
      finds the GUID it was given. */
  lemma ParseFormat(g: Guid)
    ensures ParseGuid(FormatGuid(g)) == Some(g)
  {
    var f := FormatGuid(g);
    assert IsHexDigit(f[0]) && IsHexDigit(f[35]);
    assert TrimStart(f) == f;
    assert TrimEnd(f) == f;
    assert f[8] == '-';
    var u := Undash(f);
    forall i | 0 <= i < 32 ensures u[i] == HexChar(g[i]) {
      if i < 8 { assert u[i] == f[i]; }
      else if i < 12 { assert u[i] == f[i + 1]; }
      else if i < 16 { assert u[i] == f[i + 2]; }
      else if i < 20 { assert u[i] == f[i + 3]; }
      else { assert u[i] == f[i + 4]; }
    }
    assert AllHex(u);
    assert ParseExactN(u).value == g;
  }

  /** The "N" text of a GUID, 32 hex digits, parses back to it. */
  lemma ParseFormatN(g: Guid)
    ensures TryParse(Some(HexString(g))) == Some(g)
  {
    var t := HexString(g);
    assert t == [] || IsHexDigit(t[0]);
    assert TrimStart(t) == t;
    assert TrimEnd(t) == t;
    assert '-' !in t by {
      forall i | 0 <= i < |t| ensures t[i] != '-' {
        assert IsHexDigit(t[i]);
      }
    }
    assert ParseExactN(t).value == g;
  }

  /** White space before and after a GUID's text, each side on its own,
      does not change what it parses to. */
  lemma {:induction false} ParseIgnoresSpace(g: Guid, pre: string, post: string)
    requires forall i | 0 <= i < |pre| :: IsSpace(pre[i])
    requires forall i | 0 <= i < |post| :: IsSpace(post[i])
    ensures TryParse(Some(pre + FormatGuid(g) + post)) == Some(g)
  {
    var f := FormatGuid(g);
    ParseFormat(g);
    assert IsHexDigit(f[0]) && IsHexDigit(f[35]);
    PadTrim(pre, f, post);
  }

  lemma {:induction false} PadTrim(pre: string, f: string, post: string)
    requires forall i | 0 <= i < |pre| :: IsSpace(pre[i])
    requires forall i | 0 <= i < |post| :: IsSpace(post[i])
    requires f != [] && !IsSpace(f[0]) && !IsSpace(f[|f| - 1])
    ensures Trim(pre + f + post) == f
  {
    TrimStartPad(pre, f + post);
    assert pre + f + post == pre + (f + post);
    TrimEndPad(f, post);
  }

  lemma {:induction false} TrimStartPad(pad: string, t: string)
    requires forall i | 0 <= i < |pad| :: IsSpace(pad[i])
    requires t != [] && !IsSpace(t[0])
    ensures TrimStart(pad + t) == t
    decreases |pad|
  {
    if pad == [] {
      assert pad + t == t;
    } else {
      assert (pad + t)[1..] == pad[1..] + t;
      TrimStartPad(pad[1..], t);
    }
  }

  lemma {:induction false} TrimEndPad(t: string, pad: string)
    requires forall i | 0 <= i < |pad| :: IsSpace(pad[i])
    requires t != [] && !IsSpace(t[|t| - 1])
    ensures TrimEnd(t + pad) == t
    decreases |pad|
  {
    if pad == [] {
      assert t + pad == t;
    } else {
      var u := t + pad;
      assert u[..|u| - 1] == t + pad[..|pad| - 1];
      TrimEndPad(t, pad[..|pad| - 1]);
    }
  }

  /** A parsed GUID string is made of white space, hexadecimal digits, dashes,
      braces and parentheses only; in particular it holds no quote. */
  lemma GuidAlphabet(s: string, i: int)
    requires IsGuid(s) && 0 <= i < |s|
    ensures IsSpace(s[i]) || IsHexDigit(s[i]) || s[i] in "-{}()"
  {
    var u := TrimStart(s);
    var t := TrimEnd(u);
    TrimStartDropsSpace(s);
    TrimEndDropsSpace(u);
    var k := |s| - |u|;
    if i < k || i >= k + |t| {
      assert i >= k ==> u[i - k] == s[i];
    } else {
      assert t[i - k] == s[i];
      TrimmedAlphabet(t, i - k);
    }
  }

  lemma TrimmedAlphabet(t: string, j: int)
    requires t != [] && 0 <= j < |t|
    requires ParseGuid(t).Some? && Trim(t) == t
    ensures IsHexDigit(t[j]) || t[j] in "-{}()"
  {
    if t[0] == '(' || t[0] == '{' {
      if 0 < j < 37 { DashedAlphabet(t[1..37], j - 1); }
    } else if '-' in t {
      DashedAlphabet(t, j);
    }
  }

  lemma DashedAlphabet(t: string, j: int)
    requires ParseExactD(t).Some? && 0 <= j < |t|
    ensures IsHexDigit(t[j]) || t[j] == '-'
  {
    var u := Undash(t);
    if j < 8 { assert t[j] == u[j]; }
    else if 8 < j < 13 { assert t[j] == u[j - 1]; }
    else if 13 < j < 18 { assert t[j] == u[j - 2]; }
    else if 18 < j < 23 { assert t[j] == u[j - 3]; }
    else if 23 < j { assert t[j] == u[j - 4]; }
  }
}
