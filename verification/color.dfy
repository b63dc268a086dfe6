/** The colour syntax the first loader accepts for its theme colours:

      ^(#([0-9A-Fa-f]{3}){1,2}
       |rgb\(\d+,\s*\d+,\s*\d+\)
       |rgba\(\d+,\s*\d+,\s*\d+,\s*[\d.]+\)
       |hsl\(\d+,\s*[\d.]+%,\s*[\d.]+%\)
       |hsla\(\d+,\s*[\d.]+%,\s*[\d.]+%,\s*[\d.]+\))$

    The functional forms are written as token patterns. `Derives` is the
    regular-expression meaning (some way of splitting the input fits the
    pattern); `Scan` is a greedy left-to-right recogniser. They agree on
    every pattern whose repetitions are each followed by something that
    cannot continue them, which holds of all four forms. */
module ColorGrammar {
  import opened Wrappers
  import opened Strings

  /** A literal, `\d+`, `[\d.]+` or `\s*`. */
  datatype Token = Lit(text: string) | Digits | Decimal | Spaces

  predicate InClass(t: Token, c: char)
  {
    match t
    case Lit(_) => false
    case Digits => IsDigit(c)
    case Decimal => IsDigit(c) || c == '.'
    case Spaces => IsWhitespace(c)
  }

  predicate AllInClass(t: Token, s: string)
  {
    forall i :: 0 <= i < |s| ==> InClass(t, s[i])
  }

  /** Fewest characters a repetition must take: `+` needs one, `*` none. */
  function MinRun(t: Token): nat
  {
    if t.Spaces? then 0 else 1
  }

  /** The regular-expression meaning of a token pattern. */
  ghost predicate Derives(s: string, p: seq<Token>)
    decreases |p|
  {
    if |p| == 0 then s == ""
    else if p[0].Lit? then StartsWith(s, p[0].text) && Derives(s[|p[0].text|..], p[1..])
    else exists k :: MinRun(p[0]) <= k <= |s| && RunFits(s, p[0], k) && Derives(s[k..], p[1..])
  }

  /** The first `k` characters of `s` all belong to the repetition's class. */
  ghost predicate RunFits(s: string, t: Token, k: nat)
    requires k <= |s|
  {
    AllInClass(t, s[..k])
  }

  /** Length of the longest prefix of `s` inside the class of `t`. */
  function Span(s: string, t: Token): (n: nat)
    ensures n <= |s|
    ensures AllInClass(t, s[..n])
    ensures n < |s| ==> !InClass(t, s[n])
    decreases |s|
  {
    if |s| > 0 && InClass(t, s[0]) then
      var m := 1 + Span(s[1..], t);
      assert forall i :: 1 <= i < m ==> s[..m][i] == s[1..][..m - 1][i - 1];
      m
    else 0
  }

  /** Greedy recognition: every repetition takes as much as it can. */
  function Scan(s: string, p: seq<Token>): bool
    decreases |p|
  {
    if |p| == 0 then s == ""
    else if p[0].Lit? then StartsWith(s, p[0].text) && Scan(s[|p[0].text|..], p[1..])
    else
      var n := Span(s, p[0]);
      MinRun(p[0]) <= n && Scan(s[n..], p[1..])
  }

  /** Every repetition is followed by a token that must start with a
      character outside the repetition's class. */
  predicate WellFormed(p: seq<Token>)
    decreases |p|
  {
    |p| == 0 || ((p[0].Lit? || (|p| > 1 && Guards(p[0], p[1]))) && WellFormed(p[1..]))
  }

  predicate Guards(t: Token, next: Token)
  {
    match next
    case Lit(l) => |l| > 0 && !InClass(t, l[0])
    case Spaces => false
    case _ => t.Spaces?
  }

  /** What a guard token derives starts with a character outside the class of
      the repetition it guards. */
  lemma GuardBlocks(s: string, t: Token, q: seq<Token>)
    requires |q| > 0 && Guards(t, q[0]) && Derives(s, q)
    ensures |s| > 0 && !InClass(t, s[0])
  {
    if q[0].Lit? {
      assert s[..|q[0].text|] == q[0].text;
    } else {
      var k :| MinRun(q[0]) <= k <= |s| && RunFits(s, q[0], k) && Derives(s[k..], q[1..]);
      assert s[..k][0] == s[0];
    }
  }

  /** A run that fits the class is never longer than the greedy span. */
  lemma {:induction false} SpanMaximal(s: string, t: Token, k: nat)
    requires k <= |s| && RunFits(s, t, k)
    ensures k <= Span(s, t)
    decreases k
  {
    if k > 0 {
      assert s[..k][0] == s[0];
      assert s[1..][..k - 1] == s[..k][1..];
      SpanMaximal(s[1..], t, k - 1);
    }
  }

  /** The greedy span stops at the first character outside the class. */
  lemma {:induction false} SpanStopsAt(s: string, t: Token, k: nat)
    requires k < |s| && !InClass(t, s[k])
    ensures Span(s, t) <= k
    decreases k
  {
    if k > 0 && InClass(t, s[0]) {
      assert s[1..][k - 1] == s[k];
      SpanStopsAt(s[1..], t, k - 1);
    }
  }

  /** Greedy recognition and the regular-expression meaning agree on
      well-formed patterns. */
  lemma {:induction false} ScanIffDerives(s: string, p: seq<Token>)
    requires WellFormed(p)
    ensures Scan(s, p) <==> Derives(s, p)
    decreases |p|
  {
    if |p| == 0 {
    } else {
      var q := p[1..];
      if p[0].Lit? {
        if StartsWith(s, p[0].text) {
          ScanIffDerives(s[|p[0].text|..], q);
        }
      } else {
        var t := p[0];
        var n := Span(s, t);
        ScanIffDerives(s[n..], q);
        if Scan(s, p) {
          assert RunFits(s, t, n);
        }
        if Derives(s, p) {
          var k :| MinRun(t) <= k <= |s| && RunFits(s, t, k) && Derives(s[k..], q);
          SpanMaximal(s, t, k);
          GuardBlocks(s[k..], t, q);
          SpanStopsAt(s, t, k);
          assert k == n;
        }
      }
    }
  }

  // ---------------------------------------------------------------------
  // The accepted colour forms
  // ---------------------------------------------------------------------

  const Rgb: seq<Token> := [Lit("rgb("), Digits, Lit(","), Spaces, Digits, Lit(","), Spaces, Digits, Lit(")")]
  const Rgba: seq<Token> := [Lit("rgba("), Digits, Lit(","), Spaces, Digits, Lit(","), Spaces, Digits, Lit(","), Spaces, Decimal, Lit(")")]
  const Hsl: seq<Token> := [Lit("hsl("), Digits, Lit(","), Spaces, Decimal, Lit("%,"), Spaces, Decimal, Lit("%)")]
  const Hsla: seq<Token> := [Lit("hsla("), Digits, Lit(","), Spaces, Decimal, Lit("%,"), Spaces, Decimal, Lit("%,"), Spaces, Decimal, Lit(")")]

  predicate IsHexDigit(c: char)
  {
    IsDigit(c) || 'a' <= c <= 'f' || 'A' <= c <= 'F'
  }

  /** `#` followed by exactly three or exactly six hexadecimal digits. */
  predicate IsHexColor(s: string)
  {
    (|s| == 4 || |s| == 7) && s[0] == '#' && forall i :: 1 <= i < |s| ==> IsHexDigit(s[i])
  }

  /** The whole-string match of the colour regular expression. */
  ghost predicate MatchesColorSyntax(s: string)
  {
    IsHexColor(s) || Derives(s, Rgb) || Derives(s, Rgba) || Derives(s, Hsl) || Derives(s, Hsla)
  }

  lemma RgbWellFormed()
    ensures WellFormed(Rgb)
  {
    assert WellFormed(Rgb[8..]) by { assert Rgb[8..][1..] == []; }
    assert WellFormed(Rgb[7..]) by { assert Rgb[7..][1..] == Rgb[8..]; }
    assert WellFormed(Rgb[6..]) by { assert Rgb[6..][1..] == Rgb[7..]; }
    assert WellFormed(Rgb[5..]) by { assert Rgb[5..][1..] == Rgb[6..]; }
    assert WellFormed(Rgb[4..]) by { assert Rgb[4..][1..] == Rgb[5..]; }
    assert WellFormed(Rgb[3..]) by { assert Rgb[3..][1..] == Rgb[4..]; }
    assert WellFormed(Rgb[2..]) by { assert Rgb[2..][1..] == Rgb[3..]; }
    assert WellFormed(Rgb[1..]) by { assert Rgb[1..][1..] == Rgb[2..]; }
    assert WellFormed(Rgb[0..]) by { assert Rgb[0..][1..] == Rgb[1..]; }
    assert Rgb[0..] == Rgb;
  }

  lemma RgbaTailWellFormed()
    ensures WellFormed(Rgba[6..])
  {
    assert WellFormed(Rgba[11..]) by { assert Rgba[11..][1..] == []; }
    assert WellFormed(Rgba[10..]) by { assert Rgba[10..][1..] == Rgba[11..]; }
    assert WellFormed(Rgba[9..]) by { assert Rgba[9..][1..] == Rgba[10..]; }
    assert WellFormed(Rgba[8..]) by { assert Rgba[8..][1..] == Rgba[9..]; }
    assert WellFormed(Rgba[7..]) by { assert Rgba[7..][1..] == Rgba[8..]; }
    assert WellFormed(Rgba[6..]) by { assert Rgba[6..][1..] == Rgba[7..]; }
  }

  lemma RgbaMiddleWellFormed()
    ensures WellFormed(Rgba[3..])
  {
    RgbaTailWellFormed();
    assert WellFormed(Rgba[5..]) by { assert Rgba[5..][1..] == Rgba[6..]; }
    assert WellFormed(Rgba[4..]) by { assert Rgba[4..][1..] == Rgba[5..]; }
    assert WellFormed(Rgba[3..]) by { assert Rgba[3..][1..] == Rgba[4..]; }
  }

  lemma RgbaWellFormed()
    ensures WellFormed(Rgba)
  {
    RgbaMiddleWellFormed();
    assert WellFormed(Rgba[2..]) by { assert Rgba[2..][1..] == Rgba[3..]; }
    assert WellFormed(Rgba[1..]) by { assert Rgba[1..][1..] == Rgba[2..]; }
    assert WellFormed(Rgba[0..]) by { assert Rgba[0..][1..] == Rgba[1..]; }
    assert Rgba[0..] == Rgba;
  }

  lemma HslWellFormed()
    ensures WellFormed(Hsl)
  {
    assert WellFormed(Hsl[8..]) by { assert Hsl[8..][1..] == []; }
    assert WellFormed(Hsl[7..]) by { assert Hsl[7..][1..] == Hsl[8..]; }
    assert WellFormed(Hsl[6..]) by { assert Hsl[6..][1..] == Hsl[7..]; }
    assert WellFormed(Hsl[5..]) by { assert Hsl[5..][1..] == Hsl[6..]; }
    assert WellFormed(Hsl[4..]) by { assert Hsl[4..][1..] == Hsl[5..]; }
    assert WellFormed(Hsl[3..]) by { assert Hsl[3..][1..] == Hsl[4..]; }
    assert WellFormed(Hsl[2..]) by { assert Hsl[2..][1..] == Hsl[3..]; }
    assert WellFormed(Hsl[1..]) by { assert Hsl[1..][1..] == Hsl[2..]; }
    assert WellFormed(Hsl[0..]) by { assert Hsl[0..][1..] == Hsl[1..]; }
    assert Hsl[0..] == Hsl;
  }

  lemma HslaTailWellFormed()
    ensures WellFormed(Hsla[6..])
  {
    assert WellFormed(Hsla[11..]) by { assert Hsla[11..][1..] == []; }
    assert WellFormed(Hsla[10..]) by { assert Hsla[10..][1..] == Hsla[11..]; }
    assert WellFormed(Hsla[9..]) by { assert Hsla[9..][1..] == Hsla[10..]; }
    assert WellFormed(Hsla[8..]) by { assert Hsla[8..][1..] == Hsla[9..]; }
    assert WellFormed(Hsla[7..]) by { assert Hsla[7..][1..] == Hsla[8..]; }
    assert WellFormed(Hsla[6..]) by { assert Hsla[6..][1..] == Hsla[7..]; }
  }

  lemma HslaMiddleWellFormed()
    ensures WellFormed(Hsla[3..])
  {
    HslaTailWellFormed();
    assert WellFormed(Hsla[5..]) by { assert Hsla[5..][1..] == Hsla[6..]; }
    assert WellFormed(Hsla[4..]) by { assert Hsla[4..][1..] == Hsla[5..]; }
    assert WellFormed(Hsla[3..]) by { assert Hsla[3..][1..] == Hsla[4..]; }
  }

  lemma HslaWellFormed()
    ensures WellFormed(Hsla)
  {
    HslaMiddleWellFormed();
    assert WellFormed(Hsla[2..]) by { assert Hsla[2..][1..] == Hsla[3..]; }
    assert WellFormed(Hsla[1..]) by { assert Hsla[1..][1..] == Hsla[2..]; }
    assert WellFormed(Hsla[0..]) by { assert Hsla[0..][1..] == Hsla[1..]; }
    assert Hsla[0..] == Hsla;
  }

  lemma ScanMatchesSyntax(c: string)
    ensures (IsHexColor(c) || Scan(c, Rgb) || Scan(c, Rgba) || Scan(c, Hsl) || Scan(c, Hsla)) <==> MatchesColorSyntax(c)
  {
    RgbWellFormed();
    RgbaWellFormed();
    HslWellFormed();
    HslaWellFormed();
    ScanIffDerives(c, Rgb);
    ScanIffDerives(c, Rgba);
    ScanIffDerives(c, Hsl);
    ScanIffDerives(c, Hsla);
  }

  /** `validateColor(color)`: the colour itself when it matches the syntax,
      `null` otherwise. An absent colour is tested as the text "undefined",
      which does not match. */
  function ValidateColor(color: Option<string>): (r: Option<string>)
    ensures color.None? ==> r.None?
    ensures color.Some? ==> (r == color <==> MatchesColorSyntax(color.value))
    ensures color.Some? ==> (r.None? <==> !MatchesColorSyntax(color.value))
  {
    match color
    case None => None
    case Some(c) =>
      ScanMatchesSyntax(c);
      if IsHexColor(c) || Scan(c, Rgb) || Scan(c, Rgba) || Scan(c, Hsl) || Scan(c, Hsla) then Some(c) else None
  }
}
