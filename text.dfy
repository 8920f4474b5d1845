/**
 * The few Python string operations the program relies on:
 * `str.split(sep)`, `str.strip()`, `int(str)` and slicing with `[:n]`.
 */
module Text {
  import opened Wrappers

  /** Index of the first occurrence of `c` in `s`, or `|s|` when there is none. */
  function FindChar(s: string, c: char): (i: nat)
    ensures i <= |s|
    ensures forall k :: 0 <= k < i ==> s[k] != c
    ensures i < |s| ==> s[i] == c
  {
    if s == [] then 0
    else if s[0] == c then 0
    else 1 + FindChar(s[1..], c)
  }

  /** `sep.join(parts)`, the inverse of `Split`. */
  function Join(parts: seq<string>, sep: char): string
    requires |parts| >= 1
    decreases |parts|
  {
    if |parts| == 1 then parts[0] else parts[0] + [sep] + Join(parts[1..], sep)
  }

  /**
   * Python's `s.split(sep)` for a one-character separator: every occurrence
   * of `sep` separates two pieces, so the result is never empty and the
   * pieces joined back with `sep` give `s`.
   */
  function Split(s: string, sep: char): (parts: seq<string>)
    ensures |parts| >= 1
    ensures forall k :: 0 <= k < |parts| ==> sep !in parts[k]
    ensures Join(parts, sep) == s
    ensures |parts| >= 2 <==> sep in s
    decreases |s|
  {
    var i := FindChar(s, sep);
    if i == |s| then
      assert s[..i] == s;
      [s]
    else
      var rest := Split(s[i + 1..], sep);
      var parts := [s[..i]] + rest;
      assert parts[1..] == rest;
      assert s == s[..i] + [sep] + s[i + 1..];
      parts
  }

  /** Splitting a join of separator-free pieces gives the pieces back. */
  lemma {:induction false} SplitJoin(parts: seq<string>, sep: char)
    requires |parts| >= 1
    requires forall k :: 0 <= k < |parts| ==> sep !in parts[k]
    ensures Split(Join(parts, sep), sep) == parts
    decreases |parts|
  {
    var s := Join(parts, sep);
    var i := FindChar(s, sep);
    if |parts| == 1 {
      assert sep !in s;
    } else {
      var a := parts[0];
      var rest := Join(parts[1..], sep);
      assert s == a + [sep] + rest;
      assert s[|a|] == sep;
      assert forall k :: 0 <= k < |a| ==> s[k] == a[k];
      assert i == |a|;
      assert s[..i] == a;
      assert s[i + 1..] == rest;
      SplitJoin(parts[1..], sep);
      assert parts == [a] + parts[1..];
    }
  }

  /** The characters Python's `str.isspace()` accepts, which `str.strip()` removes. */
  predicate IsSpace(c: char) {
    || ('\t' <= c <= '\r')
    || ('\U{1c}' <= c <= ' ')
    || c == '\U{85}' || c == '\U{a0}' || c == '\U{1680}'
    || ('\U{2000}' <= c <= '\U{200a}')
    || c == '\U{2028}' || c == '\U{2029}' || c == '\U{202f}' || c == '\U{205f}' || c == '\U{3000}'
  }

  predicate AllSpace(s: string) {
    forall k :: 0 <= k < |s| ==> IsSpace(s[k])
  }

  /** Number of whitespace characters at the start of `s`. */
  function Lead(s: string): (n: nat)
    ensures n <= |s|
    ensures AllSpace(s[..n])
    ensures n < |s| ==> !IsSpace(s[n])
  {
    if s != [] && IsSpace(s[0]) then
      var n := 1 + Lead(s[1..]);
      assert forall k :: 1 <= k < n ==> s[..n][k] == s[1..][..n - 1][k - 1];
      n
    else 0
  }

  /** Number of whitespace characters at the end of `s`. */
  function Trail(s: string): (n: nat)
    ensures n <= |s|
    ensures AllSpace(s[|s| - n..])
    ensures n < |s| ==> !IsSpace(s[|s| - 1 - n])
  {
    if s != [] && IsSpace(s[|s| - 1]) then
      var t := s[..|s| - 1];
      var n := 1 + Trail(t);
      assert s[|s| - n..] == t[|t| - (n - 1)..] + [s[|s| - 1]];
      n
    else 0
  }

  /**
   * Python's `s.strip()`: `s` is whitespace, then the result, then
   * whitespace, and the result neither starts nor ends with whitespace.
   */
  function Strip(s: string): (r: string)
    ensures r == [] || (!IsSpace(r[0]) && !IsSpace(r[|r| - 1]))
  {
    var a := s[Lead(s)..];
    a[..|a| - Trail(a)]
  }

  /** `Strip` removes only whitespace, and only from the two ends. */
  lemma StripRemovesPadding(s: string)
    ensures exists i :: 0 <= i <= |s| - |Strip(s)| && AllSpace(s[..i]) && Strip(s) == s[i..i + |Strip(s)|] && AllSpace(s[i + |Strip(s)|..])
  {
    var i := Lead(s);
    var a := s[i..];
    var t := Trail(a);
    var r := a[..|a| - t];
    assert r == Strip(s);
    assert r == s[i..i + |r|];
    assert s[i + |r|..] == a[|a| - t..];
    assert AllSpace(s[..i]) && AllSpace(s[i + |r|..]);
  }

  /** Whitespace followed by a text that does not start with whitespace: `Lead` counts exactly the whitespace. */
  lemma {:induction false} LeadPadded(w: string, rest: string)
    requires AllSpace(w)
    requires rest == [] || !IsSpace(rest[0])
    ensures Lead(w + rest) == |w|
    decreases |w|
  {
    if w != [] {
      assert (w + rest)[0] == w[0];
      assert (w + rest)[1..] == w[1..] + rest;
      LeadPadded(w[1..], rest);
    } else {
      assert w + rest == rest;
    }
  }

  /** A text that does not end with whitespace, followed by whitespace: `Trail` counts exactly the whitespace. */
  lemma {:induction false} TrailPadded(rest: string, w: string)
    requires AllSpace(w)
    requires rest == [] || !IsSpace(rest[|rest| - 1])
    ensures Trail(rest + w) == |w|
    decreases |w|
  {
    if w != [] {
      var s := rest + w;
      assert s[|s| - 1] == w[|w| - 1];
      assert s[..|s| - 1] == rest + w[..|w| - 1];
      TrailPadded(rest, w[..|w| - 1]);
    } else {
      assert rest + w == rest;
    }
  }

  /** Stripping whitespace padding gives back exactly what it padded. */
  lemma StripPadded(w1: string, core: string, w2: string)
    requires AllSpace(w1) && AllSpace(w2)
    requires core == [] || (!IsSpace(core[0]) && !IsSpace(core[|core| - 1]))
    ensures Strip(w1 + core + w2) == core
  {
    var s := w1 + core + w2;
    if core == [] {
      assert s == w1 + w2;
      LeadPadded(w1 + w2, []);
      assert (w1 + w2) + [] == w1 + w2;
      assert s[|s|..] == [];
    } else {
      assert s == w1 + (core + w2);
      LeadPadded(w1, core + w2);
      assert s[|w1|..] == core + w2;
      TrailPadded(core, w2);
      assert (core + w2)[..|core|] == core;
    }
  }

  predicate IsDigit(c: char) {
    '0' <= c <= '9'
  }

  predicate AllDigits(s: string) {
    forall k :: 0 <= k < |s| ==> IsDigit(s[k])
  }

  /** The value of a string of decimal digits, most significant first. */
  function DecimalValue(ds: string): nat
    requires AllDigits(ds)
    decreases |ds|
  {
    if ds == [] then 0
    else 10 * DecimalValue(ds[..|ds| - 1]) + ((ds[|ds| - 1] as int) - ('0' as int))
  }

  /**
   * Python's `int(s)` on a string with no surrounding whitespace: an
   * optional sign followed by at least one decimal digit; anything else
   * raises `ValueError`, modelled as `None`.
   */
  function ParseInt(s: string): (r: Option<int>)
    ensures r.Some? <==> Unsigned(s) != [] && AllDigits(Unsigned(s))
    ensures r.Some? ==> r.value == if s[0] == '-' then -(DecimalValue(Unsigned(s)) as int) else DecimalValue(Unsigned(s))
  {
    if s != [] && (s[0] == '+' || s[0] == '-') then
      var ds := s[1..];
      if ds != [] && AllDigits(ds) then
        var v: int := DecimalValue(ds);
        Some(if s[0] == '-' then -v else v)
      else None
    else if s != [] && AllDigits(s) then Some(DecimalValue(s))
    else None
  }

  /** The text after an optional leading sign. */
  function Unsigned(s: string): string {
    if s != [] && (s[0] == '+' || s[0] == '-') then s[1..] else s
  }

  /** A non-empty run of decimal digits parses as its value. */
  lemma ParseIntDigits(ds: string)
    requires ds != [] && AllDigits(ds)
    ensures ParseInt(ds) == Some(DecimalValue(ds))
  {
    assert IsDigit(ds[0]);
  }

  /** Whitespace and decimal digits contain no ':' and no '-'. */
  lemma PaddedDigitsFree(w1: string, ds: string, w2: string, c: char)
    requires AllSpace(w1) && AllDigits(ds) && AllSpace(w2)
    requires c == ':' || c == '-'
    ensures c !in w1 + ds + w2
  {
    var s := w1 + ds + w2;
    forall k | 0 <= k < |s| ensures s[k] != c {
      if k < |w1| { assert IsSpace(s[k]); }
      else if k < |w1| + |ds| { assert IsDigit(ds[k - |w1|]); }
      else { assert IsSpace(w2[k - |w1| - |ds|]); }
    }
  }

  /** The canonical decimal spelling of `n` (`str(n)`). */
  function Decimal(n: nat): (s: string)
    ensures |s| >= 1 && AllDigits(s)
  {
    if n < 10 then [('0' as int + n) as char]
    else Decimal(n / 10) + [('0' as int + n % 10) as char]
  }

  /** `int(str(n)) == n`. */
  lemma {:induction false} DecimalRoundTrip(n: nat)
    ensures ParseInt(Decimal(n)) == Some(n)
    ensures DecimalValue(Decimal(n)) == n
  {
    var s := Decimal(n);
    assert IsDigit(s[0]);
    assert s[0] != '+' && s[0] != '-';
    if n >= 10 {
      DecimalRoundTrip(n / 10);
      assert s[..|s| - 1] == Decimal(n / 10);
    } else {
      assert s[..|s| - 1] == [];
    }
    assert DecimalValue(s) == n;
    assert ParseInt(s) == Some(DecimalValue(s));
    assert ParseInt(s) == Some(n);
  }

  /** Python's `str(n)` for any integer: a minus sign before the digits of a negative number. */
  function Spelling(n: int): (s: string)
    ensures s != [] && (n < 0 <==> s[0] == '-')
  {
    if n < 0 then ['-'] + Decimal(-n) else Decimal(n)
  }

  /** `int(str(n)) == n` for every integer, negative ones included. */
  lemma SignedRoundTrip(n: int)
    ensures ParseInt(Spelling(n)) == Some(n)
  {
    if n < 0 {
      var ds := Decimal(-n);
      DecimalRoundTrip(-n);
      assert (['-'] + ds)[1..] == ds;
      assert Unsigned(Spelling(n)) == ds;
    } else {
      DecimalRoundTrip(n);
    }
  }

  /** Python's slice `s[:n]`: the first `n` characters, or all of `s` when it is shorter. */
  function Prefix(s: string, n: nat): (r: string)
    ensures |r| <= n && r <= s
    ensures |r| == if |s| < n then |s| else n
  {
    if |s| <= n then s else s[..n]
  }
}
