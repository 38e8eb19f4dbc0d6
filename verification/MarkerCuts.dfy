/** Where two texts meet at white space, no BEGIN marker can span the seam. */
module MarkerCuts {
  import opened Wrappers
  import opened Markers
  import opened MarkerFacts

  predicate EndsBlank(g: string) {
    g != "" && IsSpace(g[|g| - 1])
  }

  /** After leading white space the text is over, or goes on with `#` or `<`. */
  predicate Blunt(c: string) {
    var d := DropSpaces(c);
    d == "" || d[0] == '#' || d[0] == '<'
  }

  /** A literal of the patterns that cannot start where a blunt text goes on. */
  predicate Sharp(lit: string) {
    IsToken(lit) && lit[0] != '#' && lit[0] != '<'
  }

  lemma SpacesThenMore(g: string, c: string)
    requires DropSpaces(g) == ""
    ensures DropSpaces(g + c) == DropSpaces(c)
    ensures RunLen(g + c, IsSpace) == |g| + RunLen(c, IsSpace)
  {
    hide RunLen;
    var n := RunLen(c, IsSpace);
    RunFacts(g, IsSpace);
    RunFacts(c, IsSpace);
    RunLenIs(g + c, IsSpace, |g| + n);
    assert (g + c)[|g| + n..] == c[n..];
  }

  lemma NoLiteralAfterSpaces(lit: string, g: string, c: string)
    requires Sharp(lit) && Blunt(c) && DropSpaces(g) == ""
    ensures DropPadded(lit, g + c).None?
  {
    hide RunLen, IsToken;
    SpacesThenMore(g, c);
    SharpIsNotEmpty(lit);
    var d := DropSpaces(c);
    assert d == "" || lit[0] != d[0];
  }

  /** A token that matches at the start of `d + c` ends inside `d`, and so does what follows it. */
  lemma TokenInside(lit: string, d: string, c: string)
    requires IsToken(lit) && EndsBlank(d) && lit <= d + c
    ensures lit <= d && EndsBlank(Drop(lit, d).value)
    ensures Drop(lit, d + c) == Some(Drop(lit, d).value + c)
  {
    hide IsToken;
    TokenStops(lit, d, c);
    assert forall i :: 0 <= i < |lit| ==> lit[i] == (d + c)[i];
    assert lit <= d;
    DropForward(lit, d, c);
    SuffixLast(Drop(lit, d).value, d);
  }

  lemma PaddedCut(lit: string, g: string, c: string)
    requires Sharp(lit) && EndsBlank(g) && Blunt(c) && DropPadded(lit, g + c).Some?
    ensures DropPadded(lit, g).Some? && EndsBlank(DropPadded(lit, g).value)
    ensures DropPadded(lit, g + c) == Some(DropPadded(lit, g).value + c)
    ensures RunLen(g + c, IsSpace) > 0 <==> RunLen(g, IsSpace) > 0
  {
    hide RunLen, IsToken, Blunt, Drop;
    if DropSpaces(g) == "" {
      NoLiteralAfterSpaces(lit, g, c);
      assert false;
    }
    DropSpacesAppend(g, c);
    SuffixLast(DropSpaces(g), g);
    TokenInside(lit, DropSpaces(g), c);
  }

  lemma SharpIsNotEmpty(lit: string)
    requires Sharp(lit)
    ensures lit != "" && lit[0] != '#' && lit[0] != '<'
  {}

  lemma LiteralsAreSharp()
    ensures Sharp(BEGIN) && Sharp("block=") && Sharp(ARROW) && IsToken("<!--")
  {}

  lemma HeadCut(g: string, c: string)
    requires EndsBlank(g) && Blunt(c) && MatchHead(g + c, BEGIN).Some?
    ensures MatchHead(g, BEGIN).Some? && EndsBlank(MatchHead(g, BEGIN).value)
    ensures MatchHead(g + c, BEGIN) == Some(MatchHead(g, BEGIN).value + c)
  {
    hide DropPadded, Drop, Blunt, Sharp, IsToken, EndsBlank;
    LiteralsAreSharp();
    TokenInside("<!--", g, c);
    var g1 := Drop("<!--", g).value;
    PaddedCut(BEGIN, g1, c);
    PaddedCut("block=", DropPadded(BEGIN, g1).value, c);
    HeadRestEndsBlank(g);
  }

  lemma HeadRestEndsBlank(g: string)
    requires EndsBlank(g) && MatchHead(g, BEGIN).Some?
    ensures EndsBlank(MatchHead(g, BEGIN).value)
  {
    hide MatchHead;
    var x := MatchHead(g, BEGIN).value;
    if x == "" {
      HeadLast(g, BEGIN);
    } else {
      SuffixLast(x, g);
    }
  }

  lemma NameAt(s: string, q: nat, w: nat)
    requires q == RunLen(s, IsSpace) && w == RunLen(s[q..], IsWord)
    ensures MatchName(s) ==
      if 0 < q && 0 < w && q + w < |s| && s[q + w] == '=' then Some(Name(s[q..q + w], s[q + w + 1..])) else None
  {
    hide RunLen;
  }

  lemma SlicesInside(g: string, c: string, i: nat, j: nat)
    requires i <= j < |g|
    ensures (g + c)[j] == g[j] && (g + c)[i..j] == g[i..j] && (g + c)[j + 1..] == g[j + 1..] + c
  {}

  /** When both runs of a name end inside `g`, so does the name. */
  lemma NameInside(g: string, c: string, q: nat, w: nat)
    requires q == RunLen(g, IsSpace) < |g| && w == RunLen(g[q..], IsWord) < |g| - q
    ensures MatchName(g + c) ==
      match MatchName(g) case None => None case Some(n) => Some(n.(rest := n.rest + c))
    ensures MatchName(g).Some? ==> g[q + w] == '=' && MatchName(g).value.rest == g[q + w + 1..]
  {
    hide RunLen, MatchName;
    SplitAppend(g, c, IsSpace);
    SplitAppend(g[q..], c, IsWord);
    NameAt(g, q, w);
    NameAt(g + c, q, w);
    SlicesInside(g, c, q, q + w);
  }

  lemma WordStopsAtBlank(g: string)
    requires EndsBlank(g)
    ensures RunLen(g, IsWord) < |g|
  {
    RunFacts(g, IsWord);
    var n := RunLen(g, IsWord);
    assert n == |g| ==> IsWord(g[|g| - 1]);
  }

  lemma NameCut(g: string, c: string)
    requires EndsBlank(g) && Blunt(c) && MatchName(g + c).Some?
    ensures MatchName(g).Some? && EndsBlank(MatchName(g).value.rest)
    ensures MatchName(g + c).value.rest == MatchName(g).value.rest + c
  {
    hide RunLen, MatchName, Blunt;
    var q := RunLen(g, IsSpace);
    if q == |g| {
      NoNameAfterSpaces(g, c);
      assert false;
    }
    assert g[q..][|g[q..]| - 1] == g[|g| - 1];
    WordStopsAtBlank(g[q..]);
    var w := RunLen(g[q..], IsWord);
    NameInside(g, c, q, w);
    SuffixLast(g[q + w + 1..], g);
  }

  lemma NoNameAfterSpaces(g: string, c: string)
    requires RunLen(g, IsSpace) == |g| && Blunt(c)
    ensures MatchName(g + c).None?
  {
    hide RunLen;
    SpacesThenMore(g, c);
    var d := DropSpaces(c);
    RunLenIs(d, IsWord, 0);
    assert d == DropSpaces(g + c);
  }

  lemma {:induction false} ValueCut(g: string, c: string)
    requires EndsBlank(g) && Blunt(c) && MatchValue(g + c).Some?
    ensures MatchValue(g).Some?
    decreases |g|
  {
    hide LastArrow, RunLen, MatchTail, Blunt;
    var v := RunLen(g, NonSpace);
    RunFacts(g, NonSpace);
    SplitAppend(g, c, NonSpace);
    assert g[v..] != "" && g[v..][|g[v..]| - 1] == g[|g| - 1];
    if MatchTail(g[v..] + c).Some? {
      TailCut(g[v..], c);
    }
  }

  lemma {:induction false} TailCut(g: string, c: string)
    requires EndsBlank(g) && Blunt(c) && MatchTail(g + c).Some?
    ensures MatchTail(g).Some?
    decreases |g|
  {
    hide MatchName, DropPadded, Blunt, Sharp;
    if MatchName(g + c).Some? {
      NameCut(g, c);
      ValueCut(MatchName(g).value.rest, c);
    } else {
      LiteralsAreSharp();
      PaddedCut(ARROW, g, c);
      ArrowIsNoName(g);
    }
  }

  lemma BeginCut(g: string, c: string)
    requires EndsBlank(g) && Blunt(c) && Begins(g + c)
    ensures Begins(g)
  {
    hide MatchHead, MatchValue, Blunt;
    HeadCut(g, c);
    ValueCut(MatchHead(g, BEGIN).value, c);
  }

  /** Two texts without BEGIN markers make one, when they meet at white space. */
  lemma {:induction false} GapsJoin(g: string, c: string)
    requires EndsBlank(g) && Blunt(c) && BeginFree(g) && BeginFree(c)
    ensures BeginFree(g + c)
  {
    hide MatchBegin, Blunt;
    forall i | 0 <= i <= |g + c|
      ensures !Begins((g + c)[i..])
    {
      if i < |g| {
        assert (g + c)[i..] == g[i..] + c && g[i..][|g[i..]| - 1] == g[|g| - 1];
        if Begins(g[i..] + c) {
          BeginCut(g[i..], c);
          assert false;
        }
      } else {
        assert (g + c)[i..] == c[i - |g|..];
      }
    }
  }
}
