/** The PHP string functions the proxy relies on: `trim`, `strpos` for one
    character, `explode` with a limit of two, the truth value of a string and
    the decimal form of an integer. A PHP string is modelled as a Dafny
    `string`. */
module PhpStrings {
  import opened Wrappers

  /** The characters `trim` strips when it is given no character list:
      space, tab, line feed, carriage return, NUL and vertical tab. */
  predicate IsTrimmable(c: char) {
    c == ' ' || c == '\t' || c == '\n' || c == '\r' || c == '\0' || c == '\U{B}'
  }

  predicate AllTrimmable(s: string) {
    forall i :: 0 <= i < |s| ==> IsTrimmable(s[i])
  }

  /** How many trimmable characters `s` starts with. */
  function LeadingTrimmable(s: string): (n: nat)
    ensures n <= |s|
  {
    if |s| > 0 && IsTrimmable(s[0]) then 1 + LeadingTrimmable(s[1..]) else 0
  }

  /** The first `LeadingTrimmable(s)` characters are trimmable and the next
      one, if any, is not. */
  lemma {:induction false} LeadingTrimmableSpec(s: string)
    ensures var n := LeadingTrimmable(s);
            AllTrimmable(s[..n]) && (n < |s| ==> !IsTrimmable(s[n]))
  {
    if |s| > 0 && IsTrimmable(s[0]) {
      LeadingTrimmableSpec(s[1..]);
      var n := LeadingTrimmable(s);
      forall i | 0 <= i < n ensures IsTrimmable(s[..n][i]) {
        if i > 0 { assert s[..n][i] == s[1..][..n - 1][i - 1]; }
      }
    }
  }

  /** How many trimmable characters `s` ends with. */
  function TrailingTrimmable(s: string): (n: nat)
    ensures n <= |s|
  {
    if |s| > 0 && IsTrimmable(s[|s| - 1]) then 1 + TrailingTrimmable(s[..|s| - 1]) else 0
  }

  /** The last `TrailingTrimmable(s)` characters are trimmable and the one
      before them, if any, is not. */
  lemma {:induction false} TrailingTrimmableSpec(s: string)
    ensures var n := TrailingTrimmable(s);
            AllTrimmable(s[|s| - n..]) && (n < |s| ==> !IsTrimmable(s[|s| - 1 - n]))
  {
    if |s| > 0 && IsTrimmable(s[|s| - 1]) {
      var init := s[..|s| - 1];
      TrailingTrimmableSpec(init);
      var n := TrailingTrimmable(s);
      var tail := s[|s| - n..];
      forall i | 0 <= i < |tail| ensures IsTrimmable(tail[i]) {
        if i < n - 1 { assert tail[i] == init[|init| - (n - 1)..][i]; }
      }
    }
  }

  /** PHP `trim($s)`: `s` without its trimmable prefix and suffix. */
  function Trim(s: string): (r: string)
    ensures |r| <= |s|
  {
    var l := LeadingTrimmable(s);
    var t := TrailingTrimmable(s[l..]);
    s[l..|s| - t]
  }

  /** What `Trim` cuts off on either side is all trimmable, and the ends of
      what it keeps are not. */
  lemma TrimSpec(s: string)
    ensures var r := Trim(s);
            r == [] || (!IsTrimmable(r[0]) && !IsTrimmable(r[|r| - 1]))
    ensures var r := Trim(s);
            var l := LeadingTrimmable(s);
            l + |r| <= |s| && r == s[l..l + |r|] && AllTrimmable(s[..l]) && AllTrimmable(s[l + |r|..])
  {
    var l := LeadingTrimmable(s);
    var u := s[l..];
    var t := TrailingTrimmable(u);
    var r := u[..|u| - t];
    assert r == Trim(s);
    LeadingTrimmableSpec(s);
    TrailingTrimmableSpec(u);
    assert u[|u| - t..] == s[l + |r|..];
    if r != [] {
      assert r[0] == s[l];
      assert r[|r| - 1] == u[|u| - 1 - t];
    }
  }

  lemma {:induction false} LeadingOfPadded(p: string, r: string)
    requires AllTrimmable(p)
    requires r == [] || !IsTrimmable(r[0])
    ensures LeadingTrimmable(p + r) == |p|
  {
    if p != [] {
      assert (p + r)[1..] == p[1..] + r;
      LeadingOfPadded(p[1..], r);
    }
  }

  lemma {:induction false} TrailingOfPadded(r: string, q: string)
    requires AllTrimmable(q)
    requires r == [] || !IsTrimmable(r[|r| - 1])
    ensures TrailingTrimmable(r + q) == |q|
  {
    if q != [] {
      assert (r + q)[..|r + q| - 1] == r + q[..|q| - 1];
      TrailingOfPadded(r, q[..|q| - 1]);
    }
  }

  /** `Trim` strips exactly the padding: a string whose ends are not
      trimmable comes back out of any trimmable padding unchanged. */
  lemma TrimPadded(p: string, r: string, q: string)
    requires AllTrimmable(p) && AllTrimmable(q)
    requires r == [] || (!IsTrimmable(r[0]) && !IsTrimmable(r[|r| - 1]))
    ensures Trim(p + r + q) == r
  {
    var s := p + r + q;
    if r == [] {
      assert s == p + q && s + [] == s;
      assert AllTrimmable(s) by {
        forall i | 0 <= i < |s| ensures IsTrimmable(s[i]) {
          if i >= |p| { assert s[i] == q[i - |p|]; }
        }
      }
      LeadingOfPadded(s, []);
    } else {
      assert s == p + (r + q);
      LeadingOfPadded(p, r + q);
      assert s[|p|..] == r + q;
      TrailingOfPadded(r, q);
    }
  }

  /** Trimming twice is trimming once. */
  lemma TrimIdempotent(s: string)
    ensures Trim(Trim(s)) == Trim(s)
  {
    var t := Trim(s);
    TrimSpec(s);
    TrimPadded([], t, []);
    assert [] + t + [] == t;
  }

  /** The first position of `c` in `s` (PHP `strpos` with a one-character
      needle), or `None` when `c` does not occur. */
  function IndexOf(s: string, c: char): (r: Option<nat>)
    ensures r.None? <==> c !in s
    ensures r.Some? ==> r.value < |s| && s[r.value] == c && c !in s[..r.value]
  {
    if s == [] then None
    else if s[0] == c then Some(0)
    else match IndexOf(s[1..], c)
      case None => None
      case Some(i) =>
        assert s[..i + 1] == [s[0]] + s[1..][..i];
        Some(i + 1)
  }

  /** In `a + [c] + b` with no `c` in `a`, the first `c` is the one after `a`. */
  lemma IndexOfAfter(a: string, c: char, b: string)
    requires c !in a
    ensures IndexOf(a + [c] + b, c) == Some(|a|)
  {
    var s := a + [c] + b;
    assert s[|a|] == c;
  }

  /** PHP `explode(sep, s, 2)`: the text before the first `sep` and, when
      there is one, the text after it; with no `sep` the whole of `s` is the
      only piece. */
  function SplitFirst(s: string, sep: char): (r: (string, Option<string>))
    ensures r.1.None? <==> sep !in s
  {
    match IndexOf(s, sep)
    case None => (s, None)
    case Some(i) => (s[..i], Some(s[i + 1..]))
  }

  /** The pieces of `SplitFirst` put back together with `sep` give `s`, and
      the first piece holds no `sep`. */
  lemma SplitFirstSpec(s: string, sep: char)
    ensures var r := SplitFirst(s, sep);
            (r.1.None? ==> r.0 == s) && (r.1.Some? ==> s == r.0 + [sep] + r.1.value && sep !in r.0)
  {
    var r := SplitFirst(s, sep);
    if r.1.Some? {
      var i := IndexOf(s, sep).value;
      assert s == s[..i] + [sep] + s[i + 1..];
    }
  }

  /** A string's truth value in PHP: false exactly for "" and "0". */
  predicate IsTruthy(s: string) {
    s != "" && s != "0"
  }

  function DigitChar(d: nat): (c: char)
    requires d < 10
    ensures '0' <= c <= '9'
  {
    "0123456789"[d]
  }

  function DigitValue(c: char): (d: nat)
    requires '0' <= c <= '9'
    ensures d < 10 && DigitChar(d) == c
  {
    (c as int - '0' as int) as nat
  }

  predicate AllDigits(s: string) {
    forall i :: 0 <= i < |s| ==> '0' <= s[i] <= '9'
  }

  /** The decimal digits of `n`, most significant first, without leading
      zeros. */
  function Digits(n: nat): (r: string)
    ensures |r| > 0 && AllDigits(r)
    ensures r[0] == '0' ==> n == 0
  {
    if n < 10 then [DigitChar(n)] else Digits(n / 10) + [DigitChar(n % 10)]
  }

  /** The number a string of decimal digits denotes. */
  function DigitsValue(s: string): nat
    requires AllDigits(s)
  {
    if s == [] then 0 else 10 * DigitsValue(s[..|s| - 1]) + DigitValue(s[|s| - 1])
  }

  /** Reading the digits of `n` gives back `n`. */
  lemma {:induction false} DigitsRoundTrip(n: nat)
    ensures DigitsValue(Digits(n)) == n
  {
    if n >= 10 {
      DigitsRoundTrip(n / 10);
      var s := Digits(n);
      assert s[..|s| - 1] == Digits(n / 10);
    }
  }

  /** PHP's conversion of an integer to a string: its decimal digits,
      preceded by '-' when it is negative, with no leading zero. Only zero
      gives "0". */
  function DecimalString(n: int): (r: string)
    ensures |r| > 0
    ensures r == "0" <==> n == 0
    ensures n < 0 <==> r[0] == '-'
    ensures n >= 0 ==> AllDigits(r) && DigitsValue(r) == n
    ensures n < 0 ==> AllDigits(r[1..]) && DigitsValue(r[1..]) == -n
    ensures n > 0 ==> r[0] != '0'
    ensures n < 0 ==> |r| > 1 && r[1] != '0'
  {
    if n < 0 then
      DigitsRoundTrip(-n);
      assert ("-" + Digits(-n))[1..] == Digits(-n);
      "-" + Digits(-n)
    else
      DigitsRoundTrip(n);
      Digits(n)
  }
}
