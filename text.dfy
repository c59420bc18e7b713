/**
 * The handful of Python string operations the pipeline relies on: decimal
 * formatting of integers (`str(i)`, `f"{n:04d}"`), `str.strip`, `str.lower`,
 * `str.endswith`, the first part of `str.split`, and the Windows flavour of
 * `os.path.basename` / `os.path.splitext`.
 */
module Text {
  import opened Wrappers

  // ---------------------------------------------------------------------------
  // Decimal digits
  // ---------------------------------------------------------------------------

  predicate IsDigit(c: char) {
    '0' <= c <= '9'
  }

  predicate AllDigits(s: string) {
    forall i :: 0 <= i < |s| ==> IsDigit(s[i])
  }

  function DigitChar(d: nat): (c: char)
    requires d < 10
    ensures IsDigit(c)
  {
    (48 + d) as char
  }

  function DigitValue(c: char): (d: nat)
    requires IsDigit(c)
    ensures d < 10
  {
    (c as int) - 48
  }

  /** `str(n)` for a non-negative integer: its decimal digits, most significant first. */
  function Digits(n: nat): (s: string)
    ensures 1 <= |s| && AllDigits(s)
    decreases n
  {
    if n < 10 then [DigitChar(n)] else Digits(n / 10) + [DigitChar(n % 10)]
  }

  /** The value of a string of decimal digits (leading zeros allowed). */
  function ParseDigits(s: string): nat
    requires AllDigits(s)
    decreases |s|
  {
    if s == [] then 0 else ParseDigits(s[..|s| - 1]) * 10 + DigitValue(s[|s| - 1])
  }

  /** Reading back the digits of `n` gives `n`. */
  lemma {:induction false} DigitsRoundTrip(n: nat)
    ensures ParseDigits(Digits(n)) == n
    decreases n
  {
    if n >= 10 {
      var d := Digits(n / 10);
      var s := Digits(n);
      assert s == d + [DigitChar(n % 10)];
      assert s[..|s| - 1] == d;
      DigitsRoundTrip(n / 10);
    }
  }

  /** Distinct non-negative integers print differently. */
  lemma DigitsInjective(a: nat, b: nat)
    requires Digits(a) == Digits(b)
    ensures a == b
  {
    DigitsRoundTrip(a);
    DigitsRoundTrip(b);
  }

  function Zeros(k: nat): (s: string)
    ensures |s| == k && AllDigits(s)
  {
    seq(k, _ => '0')
  }

  /** `f"{n:0{width}d}"`: the digits of `n`, left-padded with zeros to at least `width` characters. */
  function ZeroPad(n: nat, width: nat): string
  {
    var d := Digits(n);
    if |d| >= width then d else Zeros(width - |d|) + d
  }

  lemma {:induction false} ParseZeros(k: nat)
    ensures ParseDigits(Zeros(k)) == 0
    decreases k
  {
    if k > 0 {
      assert Zeros(k)[..k - 1] == Zeros(k - 1);
      ParseZeros(k - 1);
    }
  }

  lemma {:induction false} ParseIgnoresLeadingZeros(k: nat, s: string)
    requires AllDigits(s)
    ensures AllDigits(Zeros(k) + s)
    ensures ParseDigits(Zeros(k) + s) == ParseDigits(s)
    decreases |s|
  {
    var t := Zeros(k) + s;
    if s == [] {
      assert t == Zeros(k);
      ParseZeros(k);
    } else {
      assert t[..|t| - 1] == Zeros(k) + s[..|s| - 1];
      ParseIgnoresLeadingZeros(k, s[..|s| - 1]);
    }
  }

  /** Zero padding keeps the value readable and reaches the requested width. */
  lemma ZeroPadRoundTrip(n: nat, width: nat)
    ensures |ZeroPad(n, width)| >= width
    ensures AllDigits(ZeroPad(n, width)) && ParseDigits(ZeroPad(n, width)) == n
  {
    var d := Digits(n);
    DigitsRoundTrip(n);
    if |d| < width {
      ParseIgnoresLeadingZeros(width - |d|, d);
    }
  }

  /** Distinct counters give distinct zero-padded strings. */
  lemma ZeroPadInjective(a: nat, b: nat, width: nat)
    requires ZeroPad(a, width) == ZeroPad(b, width)
    ensures a == b
  {
    ZeroPadRoundTrip(a, width);
    ZeroPadRoundTrip(b, width);
  }

  /** `str(i)` for any integer. */
  function Decimal(i: int): (s: string)
    ensures s != [] && '_' !in s
    ensures s[0] == '-' <==> i < 0
  {
    if i < 0 then "-" + Digits(-i) else Digits(i)
  }

  /** Distinct integers print differently. */
  lemma DecimalInjective(a: int, b: int)
    requires Decimal(a) == Decimal(b)
    ensures a == b
  {
    var s := Decimal(a);
    if a < 0 && b < 0 {
      assert Digits(-a) == s[1..] == Digits(-b);
      DigitsInjective(-a, -b);
    } else if a >= 0 && b >= 0 {
      DigitsInjective(a, b);
    }
  }

  // ---------------------------------------------------------------------------
  // str.strip() and str.lower()
  // ---------------------------------------------------------------------------

  /** The characters Python's `str.isspace` accepts, which `str.strip()` removes. */
  predicate IsSpace(c: char) {
    || c == ' '
    || ('\t' <= c <= '\r')
    || ('\U{1C}' <= c <= '\U{1F}')
    || c == '\U{85}' || c == '\U{A0}' || c == '\U{1680}'
    || ('\U{2000}' <= c <= '\U{200A}')
    || c == '\U{2028}' || c == '\U{2029}' || c == '\U{202F}' || c == '\U{205F}' || c == '\U{3000}'
  }

  /** The number of whitespace characters at the start of `s`. */
  function LeadingSpaces(s: string): (k: nat)
    ensures k <= |s|
    ensures forall j :: 0 <= j < k ==> IsSpace(s[j])
    ensures k < |s| ==> !IsSpace(s[k])
    decreases |s|
  {
    if s != [] && IsSpace(s[0]) then 1 + LeadingSpaces(s[1..]) else 0
  }

  /** The number of whitespace characters at the end of `s[lo..hi]`. */
  function TrailingSpaces(s: string, lo: nat, hi: nat): (k: nat)
    requires lo <= hi <= |s|
    ensures k <= hi - lo
    ensures forall j :: hi - k <= j < hi ==> IsSpace(s[j])
    ensures k < hi - lo ==> !IsSpace(s[hi - 1 - k])
    decreases hi
  {
    if lo < hi && IsSpace(s[hi - 1]) then 1 + TrailingSpaces(s, lo, hi - 1) else 0
  }

  /** `r` is the slice of `s` at `i`, and everything of `s` outside it is whitespace. */
  predicate TrimmedAt(s: string, r: string, i: nat) {
    && i + |r| <= |s| && r == s[i..i + |r|]
    && (forall k :: 0 <= k < i ==> IsSpace(s[k]))
    && (forall k :: i + |r| <= k < |s| ==> IsSpace(s[k]))
  }

  /**
   * `s.strip()`: `s` without its leading and trailing whitespace, that is the
   * slice of `s` outside which there is only whitespace and which neither
   * begins nor ends with whitespace.
   */
  function Strip(s: string): (r: string)
    ensures r == [] || (!IsSpace(r[0]) && !IsSpace(r[|r| - 1]))
    ensures exists i :: TrimmedAt(s, r, i)
  {
    var i := LeadingSpaces(s);
    var m := |s| - i - TrailingSpaces(s, i, |s|);
    assert TrimmedAt(s, s[i..i + m], i);
    s[i..i + m]
  }

  function LowerChar(c: char): char {
    if 'A' <= c <= 'Z' then (c as int + 32) as char else c
  }

  /** `s.lower()` on ASCII letters. */
  function Lower(s: string): (r: string)
    ensures |r| == |s|
  {
    seq(|s|, i requires 0 <= i < |s| => LowerChar(s[i]))
  }

  // ---------------------------------------------------------------------------
  // Searching
  // ---------------------------------------------------------------------------

  predicate EndsWith(s: string, suffix: string) {
    |suffix| <= |s| && s[|s| - |suffix|..] == suffix
  }

  predicate OccursAt(s: string, pat: string, i: nat) {
    i + |pat| <= |s| && s[i..i + |pat|] == pat
  }

  function FindFrom(s: string, pat: string, i: nat): (r: Option<nat>)
    requires i <= |s|
    ensures r.Some? ==> i <= r.value && OccursAt(s, pat, r.value)
    ensures r.Some? ==> forall j :: i <= j < r.value ==> !OccursAt(s, pat, j)
    ensures r.None? ==> forall j :: i <= j <= |s| ==> !OccursAt(s, pat, j)
    decreases |s| - i
  {
    if OccursAt(s, pat, i) then Some(i)
    else if i == |s| then None
    else FindFrom(s, pat, i + 1)
  }

  /** `s.find(pat)`: the first index at which `pat` occurs in `s`, if any. */
  function Find(s: string, pat: string): (r: Option<nat>)
    ensures r.Some? ==> OccursAt(s, pat, r.value)
    ensures r.Some? ==> forall j :: 0 <= j < r.value ==> !OccursAt(s, pat, j)
    ensures r.None? ==> forall j :: 0 <= j <= |s| ==> !OccursAt(s, pat, j)
  {
    FindFrom(s, pat, 0)
  }

  /**
   * `parts = s.split(sep)` followed by `parts[0] if len(parts) > 1`: the text
   * before the first occurrence of a non-empty separator, when there is one.
   */
  function BeforeFirst(s: string, sep: string): (r: Option<string>)
    requires sep != []
    ensures r.Some? <==> exists j :: 0 <= j <= |s| && OccursAt(s, sep, j)
    ensures r.Some? ==> OccursAt(s, sep, |r.value|) && r.value == s[..|r.value|]
    ensures r.Some? ==> forall j :: 0 <= j < |r.value| ==> !OccursAt(s, sep, j)
  {
    match Find(s, sep)
    case Some(k) => Some(s[..k])
    case None => None
  }

  // ---------------------------------------------------------------------------
  // Paths (Windows flavour: both '\' and '/' separate directories)
  // ---------------------------------------------------------------------------

  predicate IsSep(c: char) {
    c == '\\' || c == '/'
  }

  function LastSepFrom(p: string, n: nat): (r: Option<nat>)
    requires n <= |p|
    ensures r.Some? ==> r.value < n && IsSep(p[r.value])
    ensures r.Some? ==> forall j :: r.value < j < n ==> !IsSep(p[j])
    ensures r.None? ==> forall j :: 0 <= j < n ==> !IsSep(p[j])
    decreases n
  {
    if n == 0 then None
    else if IsSep(p[n - 1]) then Some(n - 1)
    else LastSepFrom(p, n - 1)
  }

  /** `os.path.basename(p)`: what follows the last separator. */
  function Basename(p: string): (b: string)
    ensures forall j :: 0 <= j < |b| ==> !IsSep(b[j])
    ensures EndsWith(p, b)
    ensures |b| == |p| || IsSep(p[|p| - |b| - 1])
  {
    match LastSepFrom(p, |p|)
    case Some(k) => p[k + 1..]
    case None => p
  }

  function LastDotFrom(s: string, n: nat): (r: Option<nat>)
    requires n <= |s|
    ensures r.Some? ==> r.value < n && s[r.value] == '.'
    ensures r.Some? ==> forall j :: r.value < j < n ==> s[j] != '.'
    ensures r.None? ==> forall j :: 0 <= j < n ==> s[j] != '.'
    decreases n
  {
    if n == 0 then None
    else if s[n - 1] == '.' then Some(n - 1)
    else LastDotFrom(s, n - 1)
  }

  predicate AllDots(s: string) {
    forall j :: 0 <= j < |s| ==> s[j] == '.'
  }

  /**
   * `os.path.splitext(name)[0]` for a name without separators: the name up to
   * its last dot, unless everything before that dot is dots (`.bashrc` keeps
   * its whole name).
   */
  function Stem(name: string): (r: string)
    ensures r <= name
  {
    match LastDotFrom(name, |name|)
    case Some(d) => if AllDots(name[..d]) then name else name[..d]
    case None => name
  }

  /** `Stem` undoes appending an extension such as `.mp4` to a name that is not all dots. */
  lemma StemOfNamePlusExtension(s: string, ext: string)
    requires |ext| >= 1 && ext[0] == '.' && '.' !in ext[1..]
    requires !AllDots(s)
    ensures Stem(s + ext) == s
  {
    var name := s + ext;
    var d := LastDotFrom(name, |name|);
    assert name[|s|] == '.';
    forall j | |s| < j < |name|
      ensures name[j] != '.'
    {
      assert name[j] == ext[1..][j - |s| - 1];
    }
    assert d == Some(|s|);
    assert name[..|s|] == s;
  }
}
