/** String primitives the loader and the server rely on, with the exact
    semantics of the host language operations they stand for: JavaScript's
    `trim`, `startsWith`, `includes`, `replaceAll` with an empty replacement
    and `toLowerCase` on ASCII letters; Go's `strings.Join`, `fmt.Sprint` of
    an integer and `strconv.Atoi`. */
module Strings {
  import opened Wrappers

  // ---------------------------------------------------------------------
  // Whitespace and trimming (ECMAScript WhiteSpace and LineTerminator)
  // ---------------------------------------------------------------------

  /** The characters `String.prototype.trim` removes and `\s` matches. */
  predicate IsWhitespace(c: char)
  {
    || c == '\t' || c == '\n' || c == '\U{000B}' || c == '\U{000C}' || c == '\r'
    || c == ' ' || c == '\U{00A0}' || c == '\U{1680}'
    || ('\U{2000}' <= c <= '\U{200A}')
    || c == '\U{2028}' || c == '\U{2029}' || c == '\U{202F}' || c == '\U{205F}'
    || c == '\U{3000}' || c == '\U{FEFF}'
  }

  predicate AllWhitespace(s: string)
  {
    forall i :: 0 <= i < |s| ==> IsWhitespace(s[i])
  }

  /** A string with no whitespace at either end: what `trim` returns. */
  predicate Trimmed(s: string)
  {
    |s| == 0 || (!IsWhitespace(s[0]) && !IsWhitespace(s[|s| - 1]))
  }

  /** The length of the longest all-whitespace prefix: where the text
      `trimStart` keeps begins. */
  function LeadingSpace(s: string): (n: nat)
    ensures n <= |s| && AllWhitespace(s[..n])
    ensures n == |s| || !IsWhitespace(s[n])
  {
    if |s| > 0 && IsWhitespace(s[0]) then
      var m := LeadingSpace(s[1..]);
      assert forall i :: 0 <= i < m ==> s[..m + 1][i + 1] == s[1..][..m][i];
      m + 1
    else 0
  }

  /** The start of the longest all-whitespace suffix: where the text
      `trimEnd` keeps ends. */
  function TrailingStart(s: string): (n: nat)
    ensures n <= |s| && AllWhitespace(s[n..])
    ensures n == 0 || !IsWhitespace(s[n - 1])
  {
    if |s| > 0 && IsWhitespace(s[|s| - 1]) then
      var n := TrailingStart(s[..|s| - 1]);
      assert forall i :: 0 <= i < |s| - 1 - n ==> s[n..][i] == s[..|s| - 1][n..][i];
      n
    else |s|
  }

  /** JavaScript `s.trim()`: the text between the leading and the trailing
      whitespace. */
  function Trim(s: string): (r: string)
    ensures Trimmed(r)
    ensures |r| <= |s|
  {
    var t := s[LeadingSpace(s)..];
    t[..TrailingStart(t)]
  }

  /** What `trim` cuts away is whitespace, on both sides of an infix: `s` is
      some whitespace, then `Trim(s)`, then some whitespace. */
  lemma TrimIsInfix(s: string)
    ensures var k := LeadingSpace(s);
      && k + |Trim(s)| <= |s|
      && s[k..k + |Trim(s)|] == Trim(s)
      && AllWhitespace(s[..k])
      && AllWhitespace(s[k + |Trim(s)|..])
  {
    var k := LeadingSpace(s);
    var t := s[k..];
    var n := TrailingStart(t);
    assert Trim(s) == t[..n];
    assert t[n..] == s[k + n..];
  }

  /** Trimming leaves an already trimmed string alone. */
  lemma TrimOfTrimmed(s: string)
    requires Trimmed(s)
    ensures Trim(s) == s
  {
  }

  /** A string of nothing but whitespace trims to the empty string. */
  lemma TrimOfBlank(s: string)
    requires AllWhitespace(s)
    ensures Trim(s) == ""
  {
  }

  /** Trimming twice is trimming once. */
  lemma TrimIdempotent(s: string)
    ensures Trim(Trim(s)) == Trim(s)
  {
    TrimOfTrimmed(Trim(s));
  }

  // ---------------------------------------------------------------------
  // Prefix and infix tests
  // ---------------------------------------------------------------------

  /** JavaScript `s.startsWith(p)` and Go `strings.HasPrefix(s, p)`. */
  predicate StartsWith(s: string, p: string)
  {
    |p| <= |s| && s[..|p|] == p
  }

  /** JavaScript `s.includes(p)`, equivalently `s.indexOf(p) > -1`. */
  predicate Contains(s: string, p: string)
  {
    exists i :: 0 <= i <= |s| && OccursAt(s, p, i)
  }

  /** `p` occurs in `s` starting at index `i`. */
  predicate OccursAt(s: string, p: string, i: nat)
  {
    i + |p| <= |s| && s[i..i + |p|] == p
  }

  lemma StartsWithAppend(a: string, b: string)
    ensures StartsWith(a + b, a)
  {
    assert (a + b)[..|a|] == a;
  }

  lemma AppendAssoc(a: string, b: string, c: string)
    ensures a + (b + c) == (a + b) + c
  {
  }

  lemma ContainsAppended(a: string, p: string)
    ensures Contains(a + p, p)
  {
    assert OccursAt(a + p, p, |a|);
  }

  lemma StartsWithImpliesContains(s: string, p: string)
    requires StartsWith(s, p)
    ensures Contains(s, p)
  {
    assert OccursAt(s, p, 0);
  }

  // ---------------------------------------------------------------------
  // replaceAll(p, "")
  // ---------------------------------------------------------------------

  /** JavaScript `s.replaceAll(p, "")` for a non-empty literal `p`: the
      occurrences found scanning left to right, without overlap, are deleted. */
  function RemoveAll(s: string, p: string): (r: string)
    requires |p| > 0
    ensures |r| <= |s|
    ensures !Contains(s, p) ==> r == s
    decreases |s|
  {
    if |s| < |p| then s
    else if s[..|p|] == p then
      assert OccursAt(s, p, 0);
      RemoveAll(s[|p|..], p)
    else
      var rest := RemoveAll(s[1..], p);
      assert !Contains(s, p) ==> !Contains(s[1..], p) by {
        if Contains(s[1..], p) {
          var i :| 0 <= i <= |s[1..]| && OccursAt(s[1..], p, i);
          assert s[1..][i..i + |p|] == s[i + 1..i + 1 + |p|];
          assert OccursAt(s, p, i + 1);
        }
      }
      [s[0]] + rest
  }

  /** An occurrence in the tail is an occurrence one place later. */
  lemma OccursInTail(s: string, p: string, i: nat)
    requires |s| > 0 && OccursAt(s[1..], p, i)
    ensures OccursAt(s, p, i + 1)
  {
    assert s[1..][i..i + |p|] == s[i + 1..i + 1 + |p|];
  }

  /** Without an occurrence at the front, the first character is kept. */
  lemma RemoveAllKeepsFirst(s: string, p: string)
    requires |p| > 0 && |s| > 0 && !OccursAt(s, p, 0)
    ensures RemoveAll(s, p) == [s[0]] + RemoveAll(s[1..], p)
  {
    if |s| >= |p| {
      assert s[..|p|] == s[0..0 + |p|];
    }
  }

  /** No occurrence in the first `k` positions of `s` means none in the
      first `k - 1` positions of its tail. */
  lemma NoneInTail(s: string, p: string, k: nat)
    requires 0 < k <= |s|
    requires forall i :: 0 <= i < k ==> !OccursAt(s, p, i)
    ensures forall i :: 0 <= i < k - 1 ==> !OccursAt(s[1..], p, i)
  {
    forall i | 0 <= i < k - 1
      ensures !OccursAt(s[1..], p, i)
    {
      if OccursAt(s[1..], p, i) {
        OccursInTail(s, p, i);
      }
    }
  }

  /** Re-associates one kept character in front of a kept prefix. */
  lemma KeptPrefix(s: string, k: nat, rest: string)
    requires 0 < k <= |s|
    ensures [s[0]] + (s[1..][..k - 1] + rest) == s[..k] + rest
    ensures s[1..][k - 1..] == s[k..]
  {
    assert s[..k] == [s[0]] + s[1..][..k - 1];
  }

  /** When no occurrence starts in the first `k` positions, those characters
      are kept as they are. */
  lemma {:induction false} RemoveAllSkip(s: string, p: string, k: nat)
    requires |p| > 0 && k <= |s|
    requires forall i :: 0 <= i < k ==> !OccursAt(s, p, i)
    ensures RemoveAll(s, p) == s[..k] + RemoveAll(s[k..], p)
    decreases k
  {
    if k == 0 {
      assert s[k..] == s;
    } else {
      RemoveAllKeepsFirst(s, p);
      NoneInTail(s, p, k);
      RemoveAllSkip(s[1..], p, k - 1);
      KeptPrefix(s, k, RemoveAll(s[k..], p));
    }
  }

  /** The leftmost occurrence is deleted: the text before it is kept and
      removal goes on right after it. */
  lemma RemoveAllDeletesLeftmost(s: string, p: string, k: nat)
    requires |p| > 0 && OccursAt(s, p, k)
    requires forall j :: 0 <= j < k ==> !OccursAt(s, p, j)
    ensures RemoveAll(s, p) == s[..k] + RemoveAll(s[k + |p|..], p)
  {
    RemoveAllSkip(s, p, k);
    var t := s[k..];
    assert t[..|p|] == s[k..k + |p|];
    assert t[|p|..] == s[k + |p|..];
  }

  // ---------------------------------------------------------------------
  // Joining
  // ---------------------------------------------------------------------

  /** Go `strings.Join(xs, sep)`. */
  function Join(xs: seq<string>, sep: string): (r: string)
    ensures |xs| == 0 ==> r == ""
    ensures |xs| == 1 ==> r == xs[0]
    ensures |xs| > 0 ==> StartsWith(r, xs[0])
  {
    if |xs| == 0 then ""
    else if |xs| == 1 then xs[0]
    else
      var tail := sep + Join(xs[1..], sep);
      assert (xs[0] + tail)[..|xs[0]|] == xs[0];
      xs[0] + tail
  }

  /** Joining one more element appends the separator and that element. */
  lemma {:induction false} JoinSnoc(xs: seq<string>, x: string, sep: string)
    requires |xs| > 0
    ensures Join(xs + [x], sep) == Join(xs, sep) + sep + x
    decreases |xs|
  {
    if |xs| == 1 {
      assert xs + [x] == [xs[0], x];
      assert (xs + [x])[1..] == [x];
    } else {
      assert (xs + [x])[1..] == xs[1..] + [x];
      JoinSnoc(xs[1..], x, sep);
    }
  }

  // ---------------------------------------------------------------------
  // ASCII lower-casing
  // ---------------------------------------------------------------------

  function LowerChar(c: char): (r: char)
  {
    if 'A' <= c <= 'Z' then (c as int + 32) as char else c
  }

  /** `toLowerCase` restricted to ASCII letters; every other character is kept. */
  function AsciiLower(s: string): (r: string)
    ensures |r| == |s|
    ensures forall i :: 0 <= i < |s| ==> r[i] == LowerChar(s[i])
  {
    seq(|s|, i requires 0 <= i < |s| => LowerChar(s[i]))
  }

  // ---------------------------------------------------------------------
  // Decimal text: fmt.Sprint of an int and strconv.Atoi
  // ---------------------------------------------------------------------

  /** Go's `int` on a 64-bit platform. */
  type Int64 = x: int | -0x8000_0000_0000_0000 <= x < 0x8000_0000_0000_0000

  predicate IsDigit(c: char)
  {
    '0' <= c <= '9'
  }

  predicate AllDigits(s: string)
  {
    forall i :: 0 <= i < |s| ==> IsDigit(s[i])
  }

  function DigitChar(d: nat): (c: char)
    requires d < 10
    ensures IsDigit(c)
  {
    ('0' as int + d) as char
  }

  function DigitValue(c: char): (d: nat)
    requires IsDigit(c)
    ensures d < 10
  {
    c as int - '0' as int
  }

  /** The digits of `n` in base ten, most significant first, no leading zero. */
  function NatText(n: nat): (r: string)
    ensures |r| > 0 && AllDigits(r)
    ensures |r| > 1 ==> r[0] != '0'
    decreases n
  {
    if n < 10 then [DigitChar(n)] else NatText(n / 10) + [DigitChar(n % 10)]
  }

  /** `fmt.Sprint` of an integer: a minus sign for negatives, then the digits. */
  function IntText(n: int): (r: string)
    ensures n >= 0 ==> AllDigits(r)
    ensures n < 0 ==> |r| > 1 && r[0] == '-' && AllDigits(r[1..])
  {
    if n < 0 then "-" + NatText(-n) else NatText(n)
  }

  /** The value of a string of decimal digits (leading zeros allowed). */
  function DigitsValue(s: string): (n: nat)
    requires AllDigits(s)
    decreases |s|
  {
    if |s| == 0 then 0 else 10 * DigitsValue(s[..|s| - 1]) + DigitValue(s[|s| - 1])
  }

  lemma {:induction false} DigitsValueOfNatText(n: nat)
    ensures DigitsValue(NatText(n)) == n
    decreases n
  {
    if n >= 10 {
      var t := NatText(n / 10) + [DigitChar(n % 10)];
      assert t[..|t| - 1] == NatText(n / 10);
      DigitsValueOfNatText(n / 10);
    }
  }

  /** The text after an optional leading sign. */
  function Unsigned(s: string): (d: string)
    ensures |s| > 0 && (s[0] == '+' || s[0] == '-') ==> d == s[1..]
    ensures !(|s| > 0 && (s[0] == '+' || s[0] == '-')) ==> d == s
  {
    if |s| > 0 && (s[0] == '+' || s[0] == '-') then s[1..] else s
  }

  /** The syntax `strconv.Atoi` accepts: an optional sign, then one or more
      ASCII digits. */
  predicate AtoiSyntax(s: string)
  {
    |Unsigned(s)| > 0 && AllDigits(Unsigned(s))
  }

  predicate InInt64(v: int)
  {
    -0x8000_0000_0000_0000 <= v < 0x8000_0000_0000_0000
  }

  /** The largest `uint64`, the bound `ParseUint` checks after each digit. */
  const MaxUint64 := 0xFFFF_FFFF_FFFF_FFFF

  /** The length of the run of digits `s` begins with. */
  function LeadingDigits(s: string): (k: nat)
    ensures k <= |s| && AllDigits(s[..k])
    ensures k == |s| || !IsDigit(s[k])
  {
    if |s| > 0 && IsDigit(s[0]) then
      var m := LeadingDigits(s[1..]);
      assert forall i :: 0 <= i < m ==> s[..m + 1][i + 1] == s[1..][..m][i];
      m + 1
    else 0
  }

  /** Some all-digit prefix of `u` has a value beyond `uint64`: reading
      left to right, `ParseUint` stops there with a range error, before it
      sees any later character. */
  predicate DigitPrefixOverflows(u: string)
  {
    exists i :: 0 < i <= |u| && AllDigits(u[..i]) && DigitsValue(u[..i]) > MaxUint64
  }

  /** Go's `strconv.Atoi` on a 64-bit platform: an optional `+` or `-`, then
      one or more ASCII digits, and a value that fits an `int`. The digits
      are read left to right, so a run of digits that already exceeds
      `uint64` is a range error even when a bad character follows it;
      anything else malformed is a syntax error. */
  function Atoi(s: string): (r: Result<Int64, string>)
    ensures !AtoiSyntax(s) && DigitPrefixOverflows(Unsigned(s)) ==> r == Failure("value out of range")
    ensures !AtoiSyntax(s) && !DigitPrefixOverflows(Unsigned(s)) ==> r == Failure("invalid syntax")
    ensures AtoiSyntax(s) && |s| > 0 && s[0] == '-' ==>
      r == if InInt64(-(DigitsValue(s[1..]) as int)) then Success(-(DigitsValue(s[1..]) as int)) else Failure("value out of range")
    ensures AtoiSyntax(s) && |s| > 0 && s[0] == '+' ==>
      r == if InInt64(DigitsValue(s[1..])) then Success(DigitsValue(s[1..])) else Failure("value out of range")
    ensures AtoiSyntax(s) && s[0] != '-' && s[0] != '+' ==>
      r == if InInt64(DigitsValue(s)) then Success(DigitsValue(s)) else Failure("value out of range")
    ensures r.Success? ==> |s| > 0
    ensures r.Success? && s[0] != '-' && s[0] != '+' ==> AllDigits(s) && r.value == DigitsValue(s)
    ensures r.Success? && (s[0] == '-' || s[0] == '+') ==> |s| > 1 && AllDigits(s[1..])
  {
    var digits := Unsigned(s);
    if |digits| == 0 || !AllDigits(digits) then Failure(ParseError(digits))
    else
      var magnitude := DigitsValue(digits);
      var v := if s[0] == '-' then -(magnitude as int) else magnitude as int;
      if InInt64(v) then Success(v)
      else Failure("value out of range")
  }

  /** The error `ParseUint` reports for malformed unsigned text: reading
      left to right, a range error if the digits before the first bad
      character already exceed `uint64`, a syntax error otherwise. */
  function ParseError(u: string): (e: string)
    requires !(|u| > 0 && AllDigits(u))
    ensures DigitPrefixOverflows(u) ==> e == "value out of range"
    ensures !DigitPrefixOverflows(u) ==> e == "invalid syntax"
  {
    OverflowIffRunOverflows(u);
    if DigitsValue(u[..LeadingDigits(u)]) > MaxUint64 then "value out of range" else "invalid syntax"
  }

  /** A prefix of a digit string is worth no more than the whole. */
  lemma {:induction false} DigitsValuePrefix(t: string, i: nat)
    requires AllDigits(t) && i <= |t|
    ensures DigitsValue(t[..i]) <= DigitsValue(t)
    decreases |t| - i
  {
    if i < |t| {
      var u := t[..|t| - 1];
      assert AllDigits(u) by {
        assert forall j :: 0 <= j < |u| ==> u[j] == t[j];
      }
      assert u[..i] == t[..i];
      DigitsValuePrefix(u, i);
      assert DigitsValue(t) == 10 * DigitsValue(u) + DigitValue(t[|t| - 1]);
    } else {
      assert t[..i] == t;
    }
  }

  /** Some digit prefix overflows exactly when the whole leading digit run
      does. */
  lemma OverflowIffRunOverflows(u: string)
    ensures DigitPrefixOverflows(u) <==> DigitsValue(u[..LeadingDigits(u)]) > MaxUint64
  {
    var k := LeadingDigits(u);
    if DigitPrefixOverflows(u) {
      var i :| 0 < i <= |u| && AllDigits(u[..i]) && DigitsValue(u[..i]) > MaxUint64;
      assert u[..k][..i] == u[..i];
      DigitsValuePrefix(u[..k], i);
    }
  }

  /** A run of digits beyond `uint64` is reported as out of range whatever
      follows it. */
  lemma OverflowBeforeBadCharacter(d: string, tail: string)
    requires |d| > 0 && AllDigits(d) && DigitsValue(d) > MaxUint64
    ensures Atoi(d + tail) == Failure("value out of range")
  {
    var s := d + tail;
    assert IsDigit(s[0]);
    assert Unsigned(s) == s;
    assert s[..|d|] == d;
    assert DigitPrefixOverflows(Unsigned(s));
    if AtoiSyntax(s) {
      DigitsValuePrefix(s, |d|);
    }
  }

  /** `strconv.Atoi` reads back what `fmt.Sprint` writes, for every `int`. */
  lemma AtoiOfIntText(n: Int64)
    ensures Atoi(IntText(n)) == Success(n)
  {
    var t := IntText(n);
    if n < 0 {
      var m: nat := -(n as int);
      assert t == "-" + NatText(m);
      assert t[1..] == NatText(m);
      DigitsValueOfNatText(m);
      assert DigitsValue(t[1..]) == m;
    } else {
      assert t == NatText(n);
      assert !(t[0] == '+' || t[0] == '-') by { assert IsDigit(t[0]); }
      DigitsValueOfNatText(n);
    }
  }
}
