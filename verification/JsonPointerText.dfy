/**
 Pointers as text (sections 3 and 4 of RFC 6901), and why the string tests of the code (startswith, slicing, length, the
 regular expression) are the token tests of the model.
 */
module JsonPointerText {
  import opened Wrappers
  import opened JsonDocument
  import opened JsonChanges
  import Decimal

  function Escape(s: string): string {
    if s == "" then ""
    else (if s[0] == '~' then "~0" else if s[0] == '/' then "~1" else [s[0]]) + Escape(s[1..])
  }

  function Text(t: Token): string {
    match t
    case Num(n) => Decimal.ToText(n)
    case Name(s) => Escape(s)
  }

  function Render(p: Path): string {
    if p == [] then "" else "/" + Text(p[0]) + Render(p[1..])
  }

  /** A numeral without leading zeros. Such text is always the token Num. */
  predicate Canonical(s: string) {
    Decimal.AllDigits(s) && (s[0] != '0' || |s| == 1)
  }

  predicate Proper(p: Path) {
    forall t <- p :: t.Name? ==> !Canonical(t.s)
  }

  /** The escapes of section 3 of RFC 6901, character by character. */
  lemma EscapedCharacter(c: char, s: string)
    ensures Escape([c] + s) == (if c == '~' then "~0" else if c == '/' then "~1" else [c]) + Escape(s)
  {
    assert ([c] + s)[1..] == s;
  }

  // ----- tokens --------------------------------------------------------------------------------------

  lemma {:induction false} EscapeHasNoSlash(s: string)
    ensures '/' !in Escape(s)
  {
    if s != "" { EscapeHasNoSlash(s[1..]); }
  }

  lemma TextHasNoSlash(t: Token)
    ensures '/' !in Text(t)
  {
    match t
    case Num(n) => assert forall i :: 0 <= i < |Decimal.ToText(n)| ==> Decimal.IsDigit(Decimal.ToText(n)[i]);
    case Name(s) => EscapeHasNoSlash(s);
  }

  lemma {:induction false} EscapeInjective(s: string, t: string)
    requires Escape(s) == Escape(t)
    ensures s == t
    decreases s
  {
    if s == "" || t == "" {
      assert s == t;
    } else {
      var e := Escape(s);
      var n := if s[0] == '~' || s[0] == '/' then 2 else 1;
      assert s[0] == t[0] by {
        if s[0] != '~' && s[0] != '/' { assert e[0] == s[0]; } else { assert e[0] == '~' && e[1] == if s[0] == '~' then '0' else '1'; }
        if t[0] != '~' && t[0] != '/' { assert e[0] == t[0]; } else { assert e[0] == '~' && e[1] == if t[0] == '~' then '0' else '1'; }
      }
      assert e[n..] == Escape(s[1..]) == Escape(t[1..]);
      EscapeInjective(s[1..], t[1..]);
      assert s == [s[0]] + s[1..] && t == [t[0]] + t[1..];
    }
  }

  /** Text without '~' is its own escape, and an escape without '~' is the text itself. */
  lemma {:induction false} EscapePlain(s: string)
    requires '~' !in Escape(s)
    ensures Escape(s) == s
  {
    if s != "" {
      assert Escape(s)[0] != '~';
      assert Escape(s) == [s[0]] + Escape(s[1..]);
      EscapePlain(s[1..]);
    }
  }

  lemma {:induction false} EscapeOfPlain(s: string)
    requires '~' !in s && '/' !in s
    ensures Escape(s) == s
  {
    if s != "" { EscapeOfPlain(s[1..]); }
  }

  lemma TextInjective(t: Token, u: Token)
    requires Proper([t, u]) && Text(t) == Text(u)
    ensures t == u
  {
    assert t in [t, u] && u in [t, u];
    match (t, u)
    case (Num(m), Num(n)) => Decimal.Injective(m, n);
    case (Name(a), Name(b)) => EscapeInjective(a, b);
    case (Num(m), Name(b)) => NumeralIsCanonical(m, b);
    case (Name(a), Num(n)) => NumeralIsCanonical(n, a);
  }

  lemma NumeralIsCanonical(n: nat, s: string)
    requires Escape(s) == Decimal.ToText(n)
    ensures Canonical(s)
  {
    var d := Decimal.ToText(n);
    assert '~' !in d by { assert forall i :: 0 <= i < |d| ==> Decimal.IsDigit(d[i]); }
    EscapePlain(s);
  }

  // ----- prefixes ------------------------------------------------------------------------------------

  lemma {:induction false} RenderSplit(p: Path, q: Path)
    ensures Render(p + q) == Render(p) + Render(q)
  {
    if p == [] {
      assert p + q == q;
    } else {
      assert (p + q)[1..] == p[1..] + q;
      RenderSplit(p[1..], q);
    }
  }

  /** Two slash-free words, each followed by nothing or by a slash, end at the same place. */
  lemma FirstWord(a: string, x: string, b: string, y: string)
    requires '/' !in a && '/' !in b
    requires x != "" && x[0] == '/'
    requires y == "" || y[0] == '/'
    requires a + x <= b + y
    ensures a == b && x <= y
  {
    var s := b + y;
    assert forall i :: 0 <= i < |b| ==> s[i] == b[i];
    assert forall i :: 0 <= i < |a + x| ==> s[i] == (a + x)[i];
    assert s[|a|] == '/' && forall i :: 0 <= i < |a| ==> s[i] == a[i];
    assert |a| >= |b|;
    assert y != "" ==> s[|b|] == '/';
    assert |b| >= |a|;
    assert x == (a + x)[|a|..] == s[|a|..|a| + |x|] == y[..|x|];
  }

  lemma AfterSlash(a: string, w: string)
    ensures |a + "/" + w| == |a| + 1 + |w|
    ensures (a + "/" + w)[..|a| + 1] == a + "/" && (a + "/" + w)[..|a|] == a
    ensures (a + "/" + w)[|a|] == '/' && (a + "/" + w)[|a| + 1..] == w
  {
  }

  /** The text of a path below c: c, a slash, the next token and the rest. */
  lemma RenderBelow(c: Path, p: Path)
    requires c < p
    ensures Render(p) == Render(c) + "/" + (Text(p[|c|]) + Render(p[|c| + 1..]))
  {
    var q := p[|c|..];
    assert p == c + q && q[1..] == p[|c| + 1..];
    RenderSplit(c, q);
  }

  /** path.startswith(container + "/") asks whether the container lies properly above the path. */
  lemma StartsWithIsAbove(c: Path, p: Path)
    requires Proper(c) && Proper(p)
    ensures Render(c) + "/" <= Render(p) <==> c < p
  {
    if c < p {
      RenderBelow(c, p);
    }
    if Render(c) + "/" <= Render(p) {
      StartsWithMeansAbove(c, p);
    }
  }

  lemma {:induction false} StartsWithMeansAbove(c: Path, p: Path)
    requires Proper(c) && Proper(p) && Render(c) + "/" <= Render(p)
    ensures c < p
  {
    assert p != [];
    if c != [] {
      SameHead(Text(c[0]), Render(c[1..]), Text(p[0]), Render(p[1..]), c[0], p[0]);
      assert forall t <- [c[0], p[0]] :: t in c || t in p;
      TextInjective(c[0], p[0]);
      StartsWithMeansAbove(c[1..], p[1..]);
      assert c == [c[0]] + c[1..] && p == [p[0]] + p[1..];
    }
  }

  lemma SameHead(a: string, x: string, b: string, y: string, t: Token, u: Token)
    requires a == Text(t) && b == Text(u)
    requires (x == "" || x[0] == '/') && (y == "" || y[0] == '/')
    requires "/" + a + x + "/" <= "/" + b + y
    ensures a == b && x + "/" <= y
  {
    var l, r := "/" + a + x + "/", "/" + b + y;
    TextHasNoSlash(t);
    TextHasNoSlash(u);
    assert l[1..] == a + (x + "/") && r[1..] == b + y;
    assert l[1..] == r[1..|l|] == r[1..][..|l| - 1];
    FirstWord(a, x + "/", b, y);
  }

  /** path[len(container) + 1:] is the text of the remaining tokens, without the leading slash. */
  lemma RelativePath(c: Path, p: Path)
    requires c < p
    ensures |Render(c)| + 1 <= |Render(p)|
    ensures "/" + Render(p)[|Render(c)| + 1..] == Render(p[|c|..])
    ensures '/' in Render(p)[|Render(c)| + 1..] <==> |p| - |c| > 1
  {
    var w, x := Text(p[|c|]), Render(p[|c| + 1..]);
    RenderBelow(c, p);
    RenderFirst(p[|c|..]);
    assert p[|c|..][1..] == p[|c| + 1..];
    AfterSlash(Render(c), w + x);
    SlashAfterWord(w, x);
  }

  lemma RenderFirst(q: Path)
    requires q != []
    ensures Render(q) == "/" + (Text(q[0]) + Render(q[1..]))
    ensures '/' !in Text(q[0])
    ensures Render(q[1..]) == "" <==> |q| == 1
    ensures Render(q[1..]) != "" ==> Render(q[1..])[0] == '/'
  {
    TextHasNoSlash(q[0]);
  }

  lemma SlashAfterWord(w: string, x: string)
    requires '/' !in w && (x == "" || x[0] == '/')
    ensures '/' in w + x <==> x != ""
  {
    if x != "" { assert (w + x)[|w|] == '/'; }
  }

  /** Of two containers above the same path, the one with the longer text is the one with more tokens. */
  lemma LongerText(a: Path, b: Path, p: Path)
    requires a < p && b < p
    ensures |Render(a)| < |Render(b)| <==> |a| < |b|
  {
    if |a| < |b| {
      assert a < b by { assert a == p[..|a|] && b == p[..|b|]; }
      RelativePath(a, b);
    } else if |b| < |a| {
      assert b < a by { assert a == p[..|a|] && b == p[..|b|]; }
      RelativePath(b, a);
    } else {
      assert a == b by { assert a == p[..|a|] && b == p[..|b|]; }
    }
  }

  // ----- the regular expression -----------------------------------------------------------------------

  /** Digits, and before the end at most one newline: (\d+)$. */
  predicate DigitsToEnd(s: string) {
    Decimal.AllDigits(s) || (s != "" && s[|s| - 1] == '\n' && Decimal.AllDigits(s[..|s| - 1]))
  }

  /** ^(.*)/(\d+)$ matches s with its first group equal to g. */
  predicate RegexMatches(s: string, g: string) {
    |g| < |s| && s[..|g|] == g && s[|g|] == '/' && '\n' !in g && DigitsToEnd(s[|g| + 1..])
  }

  /** Digits to the end, read character by character. */
  lemma DigitsToEndPlain(s: string)
    requires DigitsToEnd(s)
    ensures '~' !in s && '/' !in s
  {
    assert forall i :: 0 <= i < |s| ==> Decimal.IsDigit(s[i]) || s[i] == '\n';
  }

  lemma TokenEndsInDigits(t: Token)
    ensures DigitsToEnd(Text(t)) <==> EndsInDigits(t)
  {
    if t.Name? {
      if DigitsToEnd(Escape(t.s)) {
        DigitsToEndPlain(Escape(t.s));
        EscapePlain(t.s);
      }
      if DigitsToEnd(t.s) {
        DigitsToEndPlain(t.s);
        EscapeOfPlain(t.s);
      }
    }
  }

  lemma {:induction false} NewlineInEscape(s: string)
    ensures '\n' in Escape(s) <==> '\n' in s
  {
    if s != "" {
      NewlineInEscape(s[1..]);
      assert s == [s[0]] + s[1..];
    }
  }

  lemma NewlineInText(t: Token)
    ensures '\n' in Text(t) <==> HasNewline(t)
  {
    match t
    case Num(n) =>
      assert forall i :: 0 <= i < |Decimal.ToText(n)| ==> Decimal.IsDigit(Decimal.ToText(n)[i]);
    case Name(s) => NewlineInEscape(s);
  }

  lemma {:induction false} NewlineInRender(p: Path)
    ensures '\n' in Render(p) <==> exists t <- p :: HasNewline(t)
  {
    if p != [] {
      NewlineInRender(p[1..]);
      NewlineInText(p[0]);
      assert p == [p[0]] + p[1..];
    }
  }

  /** After the last slash of a text there is only one way to match. */
  lemma RegexAtLastSlash(a: string, w: string, g: string)
    requires '/' !in w
    ensures RegexMatches(a + "/" + w, g) <==> g == a && '\n' !in a && DigitsToEnd(w)
  {
    var s := a + "/" + w;
    AfterSlash(a, w);
    if RegexMatches(s, g) {
      DigitsToEndPlain(s[|g| + 1..]);
      assert forall i :: |g| < i < |s| ==> s[i] == s[|g| + 1..][i - |g| - 1];
      assert forall i :: |a| < i < |s| ==> s[i] == w[i - |a| - 1];
      assert |g| == |a|;
    }
  }

  /** The first group of the match is the text of the container, and there is a match exactly when there is one. */
  lemma RegexFindsContainer(p: Path, g: string)
    ensures RegexMatches(Render(p), g) <==> ArrayOf(p).Some? && g == Render(ArrayOf(p).value)
  {
    if p != [] {
      var c, t := p[..|p| - 1], p[|p| - 1];
      RenderBelow(c, p);
      assert Text(t) + Render(p[|p|..]) == Text(t);
      TextHasNoSlash(t);
      RegexAtLastSlash(Render(c), Text(t), g);
      TokenEndsInDigits(t);
      NewlineInRender(c);
    }
  }
}
