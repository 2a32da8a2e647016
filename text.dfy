/** The pieces of Go's `strings`, `path/filepath` and `fmt` packages that the migration
    code relies on, written over `string` (a sequence of runes). */
module Text {
  import opened Common

  /** `strings.HasSuffix`. */
  predicate HasSuffix(s: string, suffix: string) {
    |suffix| <= |s| && s[|s| - |suffix|..] == suffix
  }

  /** `strings.TrimSuffix`: drops `suffix` once when it is there, else leaves `s` alone. */
  function TrimSuffix(s: string, suffix: string): (r: string)
    ensures HasSuffix(s, suffix) ==> r + suffix == s
    ensures !HasSuffix(s, suffix) ==> r == s
  {
    if HasSuffix(s, suffix) then s[..|s| - |suffix|] else s
  }

  lemma SuffixOfAppend(s: string, t: string)
    ensures HasSuffix(s + t, t) && TrimSuffix(s + t, t) == s
  {
    assert (s + t)[|s + t| - |t|..] == t;
    assert (s + t)[..|s + t| - |t|] == s;
  }

  /** `strings.Contains`: `sub` occurs at some position of `s`; the empty string occurs everywhere. */
  predicate Contains(s: string, sub: string)
    decreases |s|
  {
    sub <= s || (|s| > 0 && Contains(s[1..], sub))
  }

  /** A string contains whatever is written inside it. */
  lemma {:induction false} ContainsInside(before: string, sub: string, after: string)
    ensures Contains(before + sub + after, sub)
    decreases |before|
  {
    if before == [] {
      assert sub <= sub + after;
      assert before + sub + after == sub + after;
    } else {
      ContainsInside(before[1..], sub, after);
      assert (before + sub + after)[1..] == before[1..] + sub + after;
    }
  }

  /** Text in front does not hide an occurrence. */
  lemma {:induction false} ContainsAfterPrefix(prefix: string, s: string, sub: string)
    requires Contains(s, sub)
    ensures Contains(prefix + s, sub)
    decreases |prefix|
  {
    if prefix != [] {
      ContainsAfterPrefix(prefix[1..], s, sub);
      assert (prefix + s)[1..] == prefix[1..] + s;
    } else {
      assert prefix + s == s;
    }
  }

  /** `strings.Join`: the parts with `sep` between neighbours. */
  function Join(parts: seq<string>, sep: string): string
    decreases |parts|
  {
    if parts == [] then []
    else if |parts| == 1 then parts[0]
    else parts[0] + sep + Join(parts[1..], sep)
  }

  /** Every part can be found in the joined text. */
  lemma {:induction false} JoinContainsParts(parts: seq<string>, sep: string, k: nat)
    requires k < |parts|
    ensures Contains(Join(parts, sep), parts[k])
    decreases |parts|
  {
    if |parts| == 1 {
      ContainsInside([], parts[0], []);
      assert [] + parts[0] + [] == parts[0];
    } else if k == 0 {
      ContainsInside([], parts[0], sep + Join(parts[1..], sep));
      assert [] + parts[0] + (sep + Join(parts[1..], sep)) == Join(parts, sep);
    } else {
      JoinContainsParts(parts[1..], sep, k - 1);
      ContainsAfterPrefix(parts[0] + sep, Join(parts[1..], sep), parts[k]);
    }
  }

  /** Position of the first `c` in `s`. */
  function IndexOf(s: string, c: char): (r: Option<nat>)
    ensures r.Some? ==> r.value < |s| && s[r.value] == c && c !in s[..r.value]
    ensures r.None? ==> c !in s
  {
    if |s| == 0 then None
    else if s[0] == c then Some(0)
    else
      match IndexOf(s[1..], c)
      case None => None
      case Some(i) =>
        assert s[..i + 1] == [s[0]] + s[1..][..i];
        Some(i + 1)
  }

  /** The text before and after the first `c`. Both `strings.SplitN(s, c, 2)` and the pair
      `parts[0]`, `strings.Join(parts[1:], c)` of `strings.Split(s, c)` are exactly this
      pair when `c` occurs, and report fewer than two parts when it does not. */
  function Cut(s: string, c: char): (r: Option<(string, string)>)
    ensures r.None? <==> c !in s
    ensures r.Some? ==> r.value.0 + [c] + r.value.1 == s && c !in r.value.0
  {
    match IndexOf(s, c)
    case None => None
    case Some(i) =>
      assert s == s[..i] + [c] + s[i + 1..];
      Some((s[..i], s[i + 1..]))
  }

  // ---------------------------------------------------------------------------
  // filepath.Base with '/' as the separator

  function StripTrailingSlashes(p: string): (r: string)
    ensures |r| <= |p| && r == p[..|r|]
    ensures r == [] || r[|r| - 1] != '/'
    decreases |p|
  {
    if |p| > 0 && p[|p| - 1] == '/' then StripTrailingSlashes(p[..|p| - 1]) else p
  }

  function AfterLastSlash(p: string): (r: string)
    ensures '/' !in r
    ensures |p| > 0 && p[|p| - 1] != '/' ==> r != []
    decreases |p|
  {
    if |p| == 0 then p
    else if p[|p| - 1] == '/' then []
    else AfterLastSlash(p[..|p| - 1]) + [p[|p| - 1]]
  }

  /** `filepath.Base`: the last element of a path; "." for the empty path, "/" for a path of
      slashes only. */
  function Base(path: string): (r: string)
    ensures r != []
  {
    if path == [] then "."
    else
      var p := StripTrailingSlashes(path);
      if p == [] then "/" else AfterLastSlash(p)
  }

  lemma {:induction false} AfterLastSlashOfPlain(p: string)
    requires '/' !in p
    ensures AfterLastSlash(p) == p
    decreases |p|
  {
    if |p| > 0 {
      var q := p[..|p| - 1];
      var last := p[|p| - 1];
      assert last in p;
      assert forall i :: 0 <= i < |q| ==> q[i] == p[i];
      assert '/' !in q;
      AfterLastSlashOfPlain(q);
      assert p == q + [last];
    }
  }

  /** A bare file name is its own base name. */
  lemma BaseOfPlainName(name: string)
    requires name != [] && '/' !in name
    ensures Base(name) == name
  {
    assert name[|name| - 1] in name;
    AfterLastSlashOfPlain(name);
  }

  // ---------------------------------------------------------------------------
  // fmt.Sscanf(s, "%d", &v) with v of type uint

  /** The largest value of a 64-bit `uint`. */
  const MaxUint: nat := 0x1_0000_0000_0000_0000 - 1

  predicate IsDigit(c: char) {
    '0' <= c <= '9'
  }

  predicate AllDigits(s: string) {
    forall i :: 0 <= i < |s| ==> IsDigit(s[i])
  }

  /** The white space that fmt's scanner skips before a number (its `isSpace` table);
      a newline is not skipped but is an error, see `ScanUint`. */
  predicate IsScanSpace(c: char) {
    || ('\t' <= c <= '\r') || c == ' '
    || c == '\U{0085}' || c == '\U{00A0}' || c == '\U{1680}'
    || ('\U{2000}' <= c <= '\U{200A}')
    || c == '\U{2028}' || c == '\U{2029}' || c == '\U{202F}' || c == '\U{205F}' || c == '\U{3000}'
  }

  /** The longest prefix of `s` made of decimal digits. */
  function LeadingDigits(s: string): (r: string)
    ensures r <= s && AllDigits(r)
    ensures |r| < |s| ==> !IsDigit(s[|r|])
  {
    if s != [] && IsDigit(s[0]) then [s[0]] + LeadingDigits(s[1..]) else []
  }

  function DecimalValue(ds: string): nat
    requires AllDigits(ds)
  {
    if ds == [] then 0 else DecimalValue(ds[..|ds| - 1]) * 10 + (ds[|ds| - 1] as int - '0' as int)
  }

  /** `fmt.Sscanf(s, "%d", &v)` for an unsigned `v`: skip white space, then read the longest run
      of decimal digits. It fails on end of input, on a newline before the number, on a
      non-digit where the number should start, and on a value that does not fit 64 bits.
      Whatever follows the digits is ignored. For `%d` the digits are the ten decimal ones;
      a '_' ends the number like any other non-digit. */
  function ScanUint(s: string): (r: Option<nat>)
    decreases |s|
  {
    if s == [] then None
    else if s[0] == '\n' then None
    else if IsScanSpace(s[0]) then ScanUint(s[1..])
    else
      var ds := LeadingDigits(s);
      if ds == [] || DecimalValue(ds) > MaxUint then None else Some(DecimalValue(ds))
  }

  function DigitChar(d: nat): (c: char)
    requires d < 10
    ensures IsDigit(c) && c as int - '0' as int == d
  {
    ('0' as int + d) as char
  }

  /** The decimal spelling of `v`, as `fmt.Sprintf("%d", v)` writes it. */
  function DecimalString(v: nat): string
    decreases v
  {
    if v < 10 then [DigitChar(v)] else DecimalString(v / 10) + [DigitChar(v % 10)]
  }

  lemma {:induction false} DecimalStringDigits(v: nat)
    ensures DecimalString(v) != [] && AllDigits(DecimalString(v))
    ensures DecimalValue(DecimalString(v)) == v
    decreases v
  {
    if v >= 10 {
      DecimalStringDigits(v / 10);
      var s := DecimalString(v);
      assert s[..|s| - 1] == DecimalString(v / 10);
    }
  }

  lemma {:induction false} LeadingDigitsOfDigits(ds: string, rest: string)
    requires AllDigits(ds)
    requires rest == [] || !IsDigit(rest[0])
    ensures LeadingDigits(ds + rest) == ds
    decreases |ds|
  {
    if ds != [] {
      assert (ds + rest)[1..] == ds[1..] + rest;
      LeadingDigitsOfDigits(ds[1..], rest);
      assert ds == [ds[0]] + ds[1..];
    }
  }

  /** Scanning a decimal spelling gives the number back, for every value a `uint` holds. */
  lemma ScanDecimalString(v: nat)
    requires v <= MaxUint
    ensures ScanUint(DecimalString(v)) == Some(v)
  {
    var s := DecimalString(v);
    DecimalStringDigits(v);
    LeadingDigitsOfDigits(s, []);
    assert s + [] == s;
  }

  /** The scanner stops at the first non-digit: text after the number does not matter,
      so "12abc" reads as 12. */
  lemma ScanIgnoresTrailingText(ds: string, rest: string)
    requires ds != [] && AllDigits(ds)
    requires rest == [] || !IsDigit(rest[0])
    ensures ScanUint(ds + rest) == ScanUint(ds)
  {
    LeadingDigitsOfDigits(ds, rest);
    LeadingDigitsOfDigits(ds, []);
    assert ds + [] == ds;
    assert IsDigit(ds[0]);
  }
}
