/** The parts of Go's `strings` package that the printers and parsers use. */
module Text {
  import opened Wrappers

  /** `unicode.IsSpace` */
  predicate IsSpace(c: char) {
    || '\t' <= c <= '\r' || c == ' ' || c == '\U{85}' || c == '\U{A0}' || c == '\U{1680}'
    || '\U{2000}' <= c <= '\U{200A}' || c == '\U{2028}' || c == '\U{2029}' || c == '\U{202F}'
    || c == '\U{205F}' || c == '\U{3000}'
  }

  predicate IsNewline(c: char) {
    c == '\n'
  }

  function TrimLeft(s: string, p: char -> bool): (r: string)
    ensures |r| <= |s| && r == s[|s| - |r|..]
    ensures r != "" ==> !p(r[0])
  {
    if s != "" && p(s[0]) then TrimLeft(s[1..], p) else s
  }

  function TrimRight(s: string, p: char -> bool): (r: string)
    ensures |r| <= |s| && r == s[..|r|]
    ensures r != "" ==> !p(r[|r| - 1])
    ensures forall i :: |r| <= i < |s| ==> p(s[i])
  {
    if s != "" && p(s[|s| - 1]) then TrimRight(s[..|s| - 1], p) else s
  }

  function TrimSpace(s: string): string {
    TrimRight(TrimLeft(s, IsSpace), IsSpace)
  }

  /** Neither end can be trimmed. */
  predicate Trimmed(s: string) {
    s == "" || (!IsSpace(s[0]) && !IsSpace(s[|s| - 1]))
  }

  /** The pieces between newlines: at least one. */
  function Split(s: string): (r: seq<string>)
    ensures r != []
  {
    if s == "" then [""]
    else if s[0] == '\n' then [""] + Split(s[1..])
    else
      var rest := Split(s[1..]);
      [[s[0]] + rest[0]] + rest[1..]
  }

  /** The lines, each ended by a newline. */
  function Unlines(lines: seq<string>): string {
    if lines == [] then "" else lines[0] + "\n" + Unlines(lines[1..])
  }

  /* ----- trimming ----- */

  lemma {:induction false} TrimLeftBlank(a: string, s: string, p: char -> bool)
    requires forall c <- a :: p(c)
    requires s == "" || !p(s[0])
    ensures TrimLeft(a + s, p) == s
  {
    if a == "" {
      assert a + s == s;
    } else {
      assert (a + s)[1..] == a[1..] + s;
      TrimLeftBlank(a[1..], s, p);
    }
  }

  lemma {:induction false} TrimRightBlank(s: string, b: string, p: char -> bool)
    requires forall c <- b :: p(c)
    requires s == "" || !p(s[|s| - 1])
    ensures TrimRight(s + b, p) == s
  {
    if b == "" {
      assert s + b == s;
    } else {
      assert (s + b)[..|s + b| - 1] == s + b[..|b| - 1];
      TrimRightBlank(s, b[..|b| - 1], p);
    }
  }

  /** White space around a trimmed text is what trimming removes. */
  lemma TrimSpaceAround(a: string, s: string, b: string)
    requires (forall c <- a :: IsSpace(c)) && (forall c <- b :: IsSpace(c)) && Trimmed(s) && s != ""
    ensures TrimSpace(a + s + b) == s
  {
    assert a + s + b == a + (s + b);
    TrimLeftBlank(a, s + b, IsSpace);
    TrimRightBlank(s, b, IsSpace);
  }

  lemma TrimSpaceBlank(a: string)
    requires forall c <- a :: IsSpace(c)
    ensures TrimSpace(a) == ""
  {
    assert a + "" == a;
    TrimLeftBlank(a, "", IsSpace);
  }

  lemma TrimSpaceTrimmed(s: string)
    requires Trimmed(s)
    ensures TrimSpace(s) == s
  {}

  /* ----- lines ----- */

  lemma {:induction false} SplitAtNewline(a: string, b: string)
    ensures Split(a + "\n" + b) == Split(a) + Split(b)
    decreases |a|
  {
    var s := a + "\n" + b;
    if a == "" {
      assert s[1..] == b;
    } else {
      assert s[1..] == a[1..] + "\n" + b;
      SplitAtNewline(a[1..], b);
    }
  }

  lemma {:induction false} SplitOneLine(a: string)
    requires '\n' !in a
    ensures Split(a) == [a]
  {
    if a != "" {
      assert a[0] in a && a == [a[0]] + a[1..];
      SplitOneLine(a[1..]);
    }
  }

  lemma {:induction false} UnlinesAppend(a: seq<string>, b: seq<string>)
    ensures Unlines(a + b) == Unlines(a) + Unlines(b)
  {
    if a == [] {
      assert a + b == b;
    } else {
      assert (a + b)[1..] == a[1..] + b;
      UnlinesAppend(a[1..], b);
    }
  }

  lemma {:induction false} UnlinesSplit(s: string)
    ensures Unlines(Split(s)) == s + "\n"
  {
    if s == "" {
      assert Unlines([""]) == "" + "\n" + Unlines([]);
    } else {
      UnlinesSplit(s[1..]);
      var rest := Split(s[1..]);
      if s[0] == '\n' {
        assert ([""] + rest)[1..] == rest;
      } else {
        var all := [[s[0]] + rest[0]] + rest[1..];
        assert all[1..] == rest[1..];
        assert Unlines(rest) == rest[0] + "\n" + Unlines(rest[1..]);
        assert [s[0]] + rest[0] + "\n" + Unlines(rest[1..]) == [s[0]] + (rest[0] + "\n" + Unlines(rest[1..]));
      }
    }
  }

  /* ----- words and lists ----- */

  /** The maximal runs of characters that are not white space; `cur` is the run read so far. */
  function FieldsFrom(s: string, cur: string): seq<string> {
    if s == "" then (if cur == "" then [] else [cur])
    else if IsSpace(s[0]) then (if cur == "" then [] else [cur]) + FieldsFrom(s[1..], "")
    else FieldsFrom(s[1..], cur + [s[0]])
  }

  function Fields(s: string): seq<string> {
    FieldsFrom(s, "")
  }

  /** `strings.Join` */
  function Join(parts: seq<string>, sep: string): string {
    if parts == [] then "" else if |parts| == 1 then parts[0] else parts[0] + sep + Join(parts[1..], sep)
  }

  /* ----- decimal numbers (`%d`) ----- */

  function Digit(n: nat): char
    requires n < 10
  {
    "0123456789"[n]
  }

  function Decimal(n: nat): (s: string)
    ensures s != "" && '-' !in s
  {
    if n < 10 then [Digit(n)] else Decimal(n / 10) + [Digit(n % 10)]
  }

  lemma DigitInjective(n: nat, m: nat)
    requires n < 10 && m < 10 && Digit(n) == Digit(m)
    ensures n == m
  {}

  lemma {:induction false} DecimalInjective(n: nat, m: nat)
    requires Decimal(n) == Decimal(m)
    ensures n == m
  {
    var s, t := Decimal(n), Decimal(m);
    assert s[|s| - 1] == Digit(n % 10) && t[|t| - 1] == Digit(m % 10);
    DigitInjective(n % 10, m % 10);
    if n >= 10 && m >= 10 {
      assert Decimal(n / 10) == s[..|s| - 1] == t[..|t| - 1] == Decimal(m / 10);
      DecimalInjective(n / 10, m / 10);
    } else {
      assert n >= 10 ==> |s| > 1;
      assert m >= 10 ==> |t| > 1;
    }
  }

  /* ----- the order of strings ----- */

  /** Go's `<` on strings. */
  predicate Below(a: string, b: string) {
    b != "" && (a == "" || a[0] < b[0] || (a[0] == b[0] && Below(a[1..], b[1..])))
  }

  lemma {:induction false} BelowIsTotal(a: string, b: string)
    ensures a == b || Below(a, b) || Below(b, a)
    ensures !(Below(a, b) && Below(b, a)) && !Below(a, a)
  {
    if a != "" && b != "" {
      BelowIsTotal(a[1..], b[1..]);
      BelowIsTotal(a[1..], a[1..]);
      assert a == [a[0]] + a[1..] && b == [b[0]] + b[1..];
    } else if a != "" {
      BelowIsTotal(a[1..], a[1..]);
    }
  }

  lemma {:induction false} BelowIsTransitive(a: string, b: string, c: string)
    requires Below(a, b) && Below(b, c)
    ensures Below(a, c)
  {
    if a != "" && a[0] == b[0] && b[0] == c[0] {
      BelowIsTransitive(a[1..], b[1..], c[1..]);
    }
  }

  /** The first character at which two strings differ decides; of a string and a longer one the shorter is below. */
  lemma {:induction false} BelowIff(a: string, b: string)
    ensures Below(a, b) <==>
      exists k :: 0 <= k < |b| && k <= |a| && a[..k] == b[..k] && (k == |a| || a[k] < b[k])
  {
    if Below(a, b) {
      var k := FirstDifference(a, b);
    }
    if k :| 0 <= k < |b| && k <= |a| && a[..k] == b[..k] && (k == |a| || a[k] < b[k]) {
      DifferenceDecides(a, b, k);
    }
  }

  lemma {:induction false} FirstDifference(a: string, b: string) returns (k: nat)
    requires Below(a, b)
    ensures k < |b| && k <= |a| && a[..k] == b[..k] && (k == |a| || a[k] < b[k])
  {
    if a == "" || a[0] < b[0] {
      k := 0;
    } else {
      var n := FirstDifference(a[1..], b[1..]);
      k := n + 1;
      assert a[..k] == [a[0]] + a[1..][..n] && b[..k] == [b[0]] + b[1..][..n];
    }
  }

  lemma {:induction false} DifferenceDecides(a: string, b: string, k: nat)
    requires k < |b| && k <= |a| && a[..k] == b[..k] && (k == |a| || a[k] < b[k])
    ensures Below(a, b)
  {
    if k > 0 {
      assert a[0] == a[..k][0] && b[0] == b[..k][0];
      assert a[1..][..k - 1] == a[..k][1..] && b[1..][..k - 1] == b[..k][1..];
      DifferenceDecides(a[1..], b[1..], k - 1);
    }
  }

  /** White space anywhere separates the words on its two sides. */
  lemma {:induction false} FieldsAtSpace(a: string, c: char, b: string)
    requires IsSpace(c)
    ensures Fields(a + [c] + b) == Fields(a) + Fields(b)
  {
    FieldsFromAtSpace(a, c, b, "");
  }

  lemma {:induction false} FieldsFromAtSpace(a: string, c: char, b: string, cur: string)
    requires IsSpace(c)
    ensures FieldsFrom(a + [c] + b, cur) == FieldsFrom(a, cur) + FieldsFrom(b, "")
    decreases |a|
  {
    hide IsSpace;
    var s := a + [c] + b;
    if a == "" {
      assert s == [c] + b && s[1..] == b;
    } else {
      assert s[1..] == a[1..] + [c] + b && s[0] == a[0];
      FieldsFromAtSpace(a[1..], c, b, if IsSpace(a[0]) then "" else cur + [a[0]]);
    }
  }

  /** A text without white space is one word, if it is not empty. */
  lemma {:induction false} FieldsOfOneWord(w: string, cur: string)
    requires forall i :: 0 <= i < |w| ==> !IsSpace(w[i])
    ensures FieldsFrom(w, cur) == if cur + w == "" then [] else [cur + w]
  {
    hide IsSpace;
    if w == "" {
      assert cur + w == cur;
    } else {
      FieldsOfOneWord(w[1..], cur + [w[0]]);
      assert cur + [w[0]] + w[1..] == cur + w;
    }
  }

  /* ----- lists whose elements are ended by a character ----- */

  ghost predicate Free(c: char, tokens: seq<string>) {
    forall i :: 0 <= i < |tokens| ==> c !in tokens[i]
  }

  function Terminated(tokens: seq<string>, end: char): string {
    if tokens == [] then "" else tokens[0] + [end] + Terminated(tokens[1..], end)
  }

  lemma CutAt(x: string, r: string, y: string, s: string, end: char)
    requires end !in x && end !in y && x + [end] + r == y + [end] + s
    ensures x == y && r == s
  {
    var t := x + [end] + r;
    assert t[|x|] == end && t[|y|] == end;
    assert forall k :: 0 <= k < |x| ==> t[k] == x[k];
    assert forall k :: 0 <= k < |y| ==> t[k] == y[k];
    assert |x| == |y|;
    assert x == t[..|x|] && r == t[|x| + 1..];
  }

  lemma {:induction false} TerminatedApart(a: seq<string>, b: seq<string>, end: char)
    requires Free(end, a) && Free(end, b) && Terminated(a, end) == Terminated(b, end)
    ensures a == b
  {
    if a != [] && b != [] {
      CutAt(a[0], Terminated(a[1..], end), b[0], Terminated(b[1..], end), end);
      TerminatedApart(a[1..], b[1..], end);
      assert a == [a[0]] + a[1..] && b == [b[0]] + b[1..];
    }
  }

  lemma {:induction false} TerminatedAppend(a: seq<string>, b: seq<string>, end: char)
    ensures Terminated(a + b, end) == Terminated(a, end) + Terminated(b, end)
  {
    if a == [] {
      assert a + b == b;
    } else {
      assert (a + b)[1..] == a[1..] + b;
      TerminatedAppend(a[1..], b, end);
      Associates(a[0] + [end], Terminated(a[1..], end), Terminated(b, end));
    }
  }

  lemma {:induction false} JoinTerminates(parts: seq<string>, sep: char)
    requires parts != []
    ensures Join(parts, [sep]) + [sep] == Terminated(parts, sep)
  {
    if |parts| == 1 {
      assert Terminated(parts[1..], sep) == "";
    } else {
      JoinTerminates(parts[1..], sep);
      Associates(parts[0] + [sep], Join(parts[1..], [sep]), [sep]);
    }
  }

}
