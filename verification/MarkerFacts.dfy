/** How the marker patterns behave when text is put together and taken apart. */
module MarkerFacts {
  import opened Wrappers
  import opened Markers

  /* ----- literals and runs across a concatenation ----- */

  lemma RunAppend(s: string, r: string, p: char -> bool)
    requires RunLen(s, p) < |s| || r == "" || !p(r[0])
    ensures RunLen(s + r, p) == RunLen(s, p)
  {
    RunFacts(s, p);
    RunLenIs(s + r, p, RunLen(s, p));
  }

  /** The text after a run that is already closed by `s`, or would be by `r`. */
  lemma SplitAppend(s: string, r: string, p: char -> bool)
    requires RunLen(s, p) < |s| || r == "" || !p(r[0])
    ensures RunLen(s + r, p) == RunLen(s, p)
    ensures (s + r)[RunLen(s, p)..] == s[RunLen(s, p)..] + r
    ensures (s + r)[..RunLen(s, p)] == s[..RunLen(s, p)]
  {
    RunAppend(s, r, p);
  }

  lemma RunGrows(s: string, r: string, p: char -> bool)
    ensures RunLen(s, p) <= RunLen(s + r, p)
  {
    if RunLen(s, p) < |s| {
      RunAppend(s, r, p);
    } else {
      RunFacts(s, p);
      RunFacts(s + r, p);
      var v := RunLen(s + r, p);
      assert v < |s + r| ==> !p((s + r)[v]);
    }
  }

  lemma DropSpacesAppend(s: string, r: string)
    requires DropSpaces(s) != "" || (r != "" && !IsSpace(r[0]))
    ensures DropSpaces(s + r) == DropSpaces(s) + r
    ensures RunLen(s + r, IsSpace) == RunLen(s, IsSpace)
  {
    RunAppend(s, r, IsSpace);
    assert (s + r)[RunLen(s, IsSpace)..] == s[RunLen(s, IsSpace)..] + r;
  }

  lemma DropForward(lit: string, s: string, r: string)
    requires lit <= s
    ensures Drop(lit, s + r) == Some(Drop(lit, s).value + r)
  {
    assert (s + r)[|lit|..] == s[|lit|..] + r;
  }

  lemma PaddedForward(lit: string, s: string, r: string)
    requires lit != "" && DropPadded(lit, s).Some?
    ensures DropPadded(lit, s + r) == Some(DropPadded(lit, s).value + r)
    ensures RunLen(s + r, IsSpace) == RunLen(s, IsSpace)
  {
    DropSpacesAppend(s, r);
    DropForward(lit, DropSpaces(s), r);
  }

  /** `lit` cannot start in `g` and run on into a text that opens with `c`. */
  predicate Fits(lit: string, g: string, c: char) {
    |g| < |lit| ==> lit[|g|] != c
  }

  /** A literal found across `g + c` lies inside `g` when it cannot run into `c`. */
  lemma DropBack(lit: string, g: string, c: string)
    requires c != "" && Fits(lit, g, c[0])
    requires lit <= g + c
    ensures lit <= g
    ensures Drop(lit, g + c) == Some(Drop(lit, g).value + c)
  {
    assert forall i :: 0 <= i < |lit| ==> lit[i] == (g + c)[i];
    assert (g + c)[|g|] == c[0];
    assert (g + c)[|lit|..] == g[|lit|..] + c;
  }

  lemma PaddedBack(lit: string, g: string, c: string)
    requires c != "" && !IsSpace(c[0]) && Fits(lit, DropSpaces(g), c[0])
    requires DropPadded(lit, g + c).Some?
    ensures DropPadded(lit, g).Some?
    ensures DropPadded(lit, g + c) == Some(DropPadded(lit, g).value + c)
    ensures RunLen(g + c, IsSpace) == RunLen(g, IsSpace)
  {
    hide RunLen, Drop;
    DropSpacesAppend(g, c);
    DropBack(lit, DropSpaces(g), c);
  }

  lemma NoAngle(lit: string, g: string)
    requires '<' !in lit
    ensures Fits(lit, g, '<')
  {}

  lemma {:induction false} HeadForward(s: string, word: string, r: string)
    requires word != "" && MatchHead(s, word).Some?
    ensures MatchHead(s + r, word) == Some(MatchHead(s, word).value + r)
  {
    hide DropPadded, Drop;
    DropForward("<!--", s, r);
    var s1 := Drop("<!--", s).value;
    PaddedForward(word, s1, r);
    PaddedForward("block=", DropPadded(word, s1).value, r);
  }

  /** A marker head that starts in `g` cannot reach into a text `c` that opens with `<`. */
  lemma HeadBack(g: string, word: string, c: string)
    requires g != "" && c != "" && c[0] == '<' && '<' !in word
    requires MatchHead(g + c, word).Some?
    ensures MatchHead(g, word).Some?
    ensures MatchHead(g + c, word) == Some(MatchHead(g, word).value + c)
  {
    hide DropPadded;
    var open := "<!--";
    assert Fits(open, g, '<') && '<' !in "block=";
    assert open <= g + c;
    DropBack(open, g, c);
    var g1 := Drop(open, g).value;
    NoAngle(word, DropSpaces(g1));
    PaddedBack(word, g1, c);
    var g2 := DropPadded(word, g1).value;
    NoAngle("block=", DropSpaces(g2));
    PaddedBack("block=", g2, c);
  }

  /* ----- BEGIN ----- */

  lemma ArrowForward(tok: string, more: string)
    requires tok <= more && LastArrow(tok).Some?
    ensures LastArrow(more).Some?
  {
    var k := LastArrow(tok).value;
    assert more == tok + more[|tok|..];
    assert more[k..] == tok[k..] + more[|tok|..];
    assert ARROW <= more[k..];
  }

  lemma NameForward(s: string, r: string)
    requires MatchName(s).Some?
    ensures MatchName(s + r) == Some(MatchName(s).value.(rest := MatchName(s).value.rest + r))
  {
    hide RunLen;
    var q := RunLen(s, IsSpace);
    SplitAppend(s, r, IsSpace);
    var w := RunLen(s[q..], IsWord);
    SplitAppend(s[q..], r, IsWord);
    assert (s + r)[q + w + 1..] == s[q + w + 1..] + r && (s + r)[q..q + w] == s[q..q + w];
  }

  /** Where the arrow follows, there is no further attribute. */
  lemma ArrowIsNoName(s: string)
    requires DropPadded(ARROW, s).Some?
    ensures MatchName(s).None?
  {
    var q := RunLen(s, IsSpace);
    assert s[q..][0] == '-';
    RunLenIs(s[q..], IsWord, 0);
  }

  lemma {:induction false} ValueForward(s: string, r: string)
    requires MatchValue(s).Some?
    ensures MatchValue(s + r).Some?
    decreases |s|
  {
    hide LastArrow, RunLen, MatchTail;
    var v := RunLen(s, NonSpace);
    if v < |s| {
      SplitAppend(s, r, NonSpace);
      if MatchTail(s[v..]).Some? {
        TailForward(s[v..], r);
      }
    } else {
      RunGrows(s, r, NonSpace);
      var v' := RunLen(s + r, NonSpace);
      assert s[v..] == "" && s[..v] == s;
      ArrowForward(s, (s + r)[..v']);
    }
  }

  lemma {:induction false} TailForward(s: string, r: string)
    requires MatchTail(s).Some?
    ensures MatchTail(s + r).Some?
    decreases |s|
  {
    hide MatchName, DropPadded;
    if MatchName(s).Some? {
      NameForward(s, r);
      ValueForward(MatchName(s).value.rest, r);
    } else {
      PaddedForward(ARROW, s, r);
      ArrowIsNoName(s + r);
    }
  }

  /** A BEGIN match is still there when text is appended (it may grow). */
  lemma BeginForward(s: string, r: string)
    requires Begins(s)
    ensures Begins(s + r)
  {
    hide MatchHead, MatchValue;
    HeadForward(s, BEGIN, r);
    ValueForward(MatchHead(s, BEGIN).value, r);
  }

  /** The opening shared by every printed BEGIN marker. */
  const OPENING := "<!-- CURATOR:BEGIN "

  predicate Opens(c: string) {
    OPENING <= c
  }

  /** What follows `<!--` in a printed marker cannot continue an attribute list. */
  lemma OpeningStopsTail(s: string)
    requires OPENING[4..] <= s
    ensures MatchTail(s).None?
  {
    hide RunLen;
    assert OPENING[4..] == " " + ("CURATOR" + ":BEGIN ");
    var r := ":BEGIN " + s[15..];
    assert s == OPENING[4..] + s[15..];
    assert s == " " + ("CURATOR" + r);
    RunPast(" ", "CURATOR" + r, IsSpace);
    RunPast("CURATOR", r, IsWord);
    assert s[1 + 7] == ':' && s[1..][0] == 'C';
  }

  lemma OpeningToken(c: string)
    requires Opens(c)
    ensures c[0] == '<' && c[..4] == "<!--"
    ensures RunLen(c, NonSpace) == 4
    ensures OPENING[4..] <= c[4..]
  {
    hide RunLen;
    assert forall i :: 0 <= i < |OPENING| ==> c[i] == OPENING[i];
    RunLenIs(c, NonSpace, 4);
    assert c[4..][..|OPENING| - 4] == OPENING[4..];
  }

  lemma ArrowBack(g: string)
    requires LastArrow(g + "<!--").Some?
    ensures LastArrow(g).Some?
  {
    var tok := g + "<!--";
    var k := LastArrow(tok).value;
    assert tok[k] == tok[k..][0] == '-' && tok[k + 2] == tok[k..][2] == '>';
    assert k + 3 <= |g|;
    assert tok[k..] == g[k..] + "<!--";
    assert ARROW <= g[k..];
  }

  lemma ValueBackAtEnd(g: string, c: string)
    requires Opens(c) && MatchValue(g + c).Some? && RunLen(g, NonSpace) == |g|
    ensures MatchValue(g).Some?
  {
    hide LastArrow, RunLen, MatchTail, Opens;
    OpeningToken(c);
    RunFacts(g, NonSpace);
    RunFacts(c, NonSpace);
    RunLenIs(g + c, NonSpace, |g| + 4);
    assert (g + c)[|g| + 4..] == c[4..];
    OpeningStopsTail(c[4..]);
    assert (g + c)[..|g| + 4] == g + "<!--";
    ArrowBack(g);
    assert g[..|g|] == g;
  }

  lemma {:induction false} ValueBack(g: string, c: string)
    requires Opens(c) && MatchValue(g + c).Some?
    ensures MatchValue(g).Some?
    decreases |g|
  {
    hide LastArrow, RunLen, MatchTail, Opens;
    OpeningToken(c);
    var v := RunLen(g, NonSpace);
    if v < |g| {
      SplitAppend(g, c, NonSpace);
      if MatchTail(g[v..] + c).Some? {
        TailBack(g[v..], c);
      }
    } else {
      ValueBackAtEnd(g, c);
    }
  }

  lemma NameBack(g: string, c: string)
    requires c != "" && c[0] == '<' && MatchName(g + c).Some?
    ensures MatchName(g).Some?
    ensures MatchName(g + c) == Some(MatchName(g).value.(rest := MatchName(g).value.rest + c))
  {
    hide RunLen;
    var q := RunLen(g, IsSpace);
    SplitAppend(g, c, IsSpace);
    var w := RunLen(g[q..], IsWord);
    SplitAppend(g[q..], c, IsWord);
    assert (g + c)[|g|] == '<';
    assert (g + c)[q + w + 1..] == g[q + w + 1..] + c && (g + c)[q..q + w] == g[q..q + w];
  }

  lemma {:induction false} TailBack(g: string, c: string)
    requires Opens(c) && MatchTail(g + c).Some?
    ensures MatchTail(g).Some?
    decreases |g|
  {
    hide MatchName, DropPadded;
    OpeningToken(c);
    if MatchName(g + c).Some? {
      NameBack(g, c);
      ValueBack(MatchName(g).value.rest, c);
    } else {
      NoAngle(ARROW, DropSpaces(g));
      PaddedBack(ARROW, g, c);
      ArrowIsNoName(g);
    }
  }

  /** No BEGIN match that starts in `g` needs the printed marker that follows it. */
  lemma {:induction false} BeginBack(g: string, c: string)
    requires g != "" && Opens(c) && Begins(g + c)
    ensures Begins(g)
  {
    hide MatchHead, MatchValue;
    OpeningToken(c);
    HeadBack(g, BEGIN, c);
    ValueBack(MatchHead(g, BEGIN).value, c);
  }

  /* ----- END ----- */

  lemma EndForward(s: string, id: string, r: string)
    requires MatchEnd(s, id).Some?
    ensures MatchEnd(s + r, id).Some?
  {
    hide MatchHead, DropPadded;
    HeadForward(s, END, r);
    var s1 := MatchHead(s, END).value;
    DropForward(id, s1, r);
    PaddedForward(ARROW, Drop(id, s1).value, r);
  }

  /** The last character survives in every non-empty suffix. */
  lemma SuffixLast(r: string, s: string)
    requires IsSuffix(r, s) && r != ""
    ensures r[|r| - 1] == s[|s| - 1]
  {
    assert r == s[|s| - |r|..];
  }

  lemma PaddedLast(lit: string, s: string)
    requires lit != "" && DropPadded(lit, s) == Some("")
    ensures s != "" && s[|s| - 1] == lit[|lit| - 1]
  {
    SuffixLast(DropSpaces(s), s);
    assert DropSpaces(s) == lit + "" == lit;
  }

  lemma HeadLast(s: string, word: string)
    requires MatchHead(s, word) == Some("")
    ensures s != "" && s[|s| - 1] == '='
  {
    hide DropPadded, Drop;
    var s1 := Drop("<!--", s).value;
    var s2 := DropPadded(word, s1).value;
    SuffixTransitive(s2, s1, s);
    PaddedLast("block=", s2);
    SuffixLast(s2, s);
  }

  lemma TokenStops(tok: string, g: string, c: string)
    requires IsToken(tok) && tok <= g + c && g != "" && IsSpace(g[|g| - 1])
    ensures |tok| < |g|
  {
    assert forall i :: 0 <= i < |tok| ==> tok[i] in tok && tok[i] == (g + c)[i];
    assert (g + c)[|g| - 1] == g[|g| - 1];
  }

  /** An END match that starts in `g` cannot need what follows a final blank of `g`. */
  lemma EndBack(g: string, id: string, c: string)
    requires g != "" && IsSpace(g[|g| - 1]) && c != "" && c[0] == '<' && IsToken(id)
    requires MatchEnd(g + c, id).Some?
    ensures MatchEnd(g, id).Some?
  {
    hide MatchHead, DropPadded;
    HeadBack(g, END, c);
    var g1 := MatchHead(g, END).value;
    if g1 == "" {
      HeadLast(g, END);
    }
    SuffixLast(g1, g);
    TokenStops(id, g1, c);
    DropBack(id, g1, c);
    var g2 := Drop(id, g1).value;
    NoAngle(ARROW, DropSpaces(g2));
    PaddedBack(ARROW, g2, c);
  }

  lemma SpacesOnly(lit: string, g: string)
    requires lit != "" && DropSpaces(g) == ""
    ensures DropPadded(lit, g + "\n").None?
  {
    RunFacts(g, IsSpace);
    RunLenIs(g + "\n", IsSpace, |g| + 1);
  }

  lemma PaddedTrim(lit: string, g: string)
    requires lit != "" && '\n' !in lit
    requires DropPadded(lit, g + "\n").Some?
    ensures DropPadded(lit, g).Some?
    ensures DropPadded(lit, g + "\n") == Some(DropPadded(lit, g).value + "\n")
    ensures RunLen(g, IsSpace) > 0 <==> RunLen(g + "\n", IsSpace) > 0
  {
    if DropSpaces(g) == "" {
      SpacesOnly(lit, g);
      assert false;
    }
    DropSpacesAppend(g, "\n");
    DropBack(lit, DropSpaces(g), "\n");
  }

  lemma HeadTrim(g: string, word: string)
    requires word != "" && '\n' !in word
    requires MatchHead(g + "\n", word).Some?
    ensures MatchHead(g, word).Some?
    ensures MatchHead(g + "\n", word) == Some(MatchHead(g, word).value + "\n")
  {
    hide DropPadded;
    var open := "<!--";
    assert Fits(open, g, '\n') && '\n' !in "block=";
    DropBack(open, g, "\n");
    var g1 := Drop(open, g).value;
    PaddedTrim(word, g1);
    PaddedTrim("block=", DropPadded(word, g1).value);
  }

  /** A trailing newline is never part of an END match. */
  lemma EndTrim(g: string, id: string)
    requires IsToken(id) && MatchEnd(g + "\n", id).Some?
    ensures MatchEnd(g, id).Some?
  {
    hide MatchHead, DropPadded;
    HeadTrim(g, END);
    var g1 := MatchHead(g, END).value;
    DropBack(id, g1, "\n");
    PaddedTrim(ARROW, Drop(id, g1).value);
  }

  /* ----- printed markers ----- */

  lemma RunPast(tok: string, r: string, p: char -> bool)
    requires forall c <- tok :: p(c)
    requires r != "" && !p(r[0])
    ensures RunLen(tok + r, p) == |tok|
    ensures (tok + r)[|tok|..] == r && (tok + r)[..|tok|] == tok
  {
    RunLenIs(tok + r, p, |tok|);
  }

  lemma DropLiteral(lit: string, r: string)
    ensures Drop(lit, lit + r) == Some(r)
  {
    assert (lit + r)[|lit|..] == r;
  }

  lemma PaddedLiteral(lit: string, r: string)
    requires lit != "" && !IsSpace(lit[0])
    ensures DropPadded(lit, " " + (lit + r)) == Some(r)
    ensures RunLen(" " + (lit + r), IsSpace) == 1
  {
    RunPast(" ", lit + r, IsSpace);
    DropLiteral(lit, r);
  }

  lemma PrintedHead(word: string, r: string)
    requires word != "" && !IsSpace(word[0])
    ensures MatchHead("<!-- " + word + " block=" + r, word) == Some(r)
  {
    hide DropPadded;
    var s2 := " " + ("block=" + r);
    PaddedLiteral("block=", r);
    PaddedLiteral(word, s2);
    var s1 := " " + (word + s2);
    DropLiteral("<!--", s1);
    assert "<!-- " + word + " block=" + r == "<!--" + s1;
  }

  lemma {:induction false} PrintedEnd(id: string, r: string)
    ensures MatchEnd(PrintEnd(id) + r, id) == Some(r)
  {
    hide MatchHead, DropPadded;
    PaddedLiteral(ARROW, r);
    var s2 := " " + (ARROW + r);
    DropLiteral(id, s2);
    PrintedHead(END, id + s2);
    assert "<!-- CURATOR:END block=" == "<!-- " + END + " block=";
    assert s2 == " -->" + r;
    Regroup3("<!-- CURATOR:END block=", id, " -->", r);
  }

  lemma TailClose(r: string)
    ensures MatchTail(" -->" + r) == Some(Tail([], r))
  {
    PaddedLiteral(ARROW, r);
    assert " -->" + r == " " + (ARROW + r);
    ArrowIsNoName(" -->" + r);
  }

  /** Inside a marker a token is read whole when the rest of the pattern matches. */
  lemma ValueWhole(tok: string, r: string)
    requires IsToken(tok) && r != "" && IsSpace(r[0]) && MatchTail(r).Some?
    ensures MatchValue(tok + r) == Some(Begin(tok, MatchTail(r).value.attrs, MatchTail(r).value.rest))
  {
    hide MatchTail;
    RunPast(tok, r, NonSpace);
  }

  lemma NameRead(key: string, r: string)
    requires IsName(key)
    ensures MatchName(" " + (key + ("=" + r))) == Some(Name(key, r))
  {
    var s2 := "=" + r;
    var s1 := key + s2;
    RunPast(key, s2, IsWord);
    assert IsWord(key[0]) && !IsSpace(key[0]) by {
      assert key[0] in key;
    }
    RunPast(" ", s1, IsSpace);
    var s := " " + s1;
    assert s[1..] == s1 && s[1..1 + |key|] == key && s[1 + |key| + 1..] == r;
    assert s[1 + |key|] == s1[|key|] == '=';
  }

  lemma TailAttr(key: string, value: string, r: string)
    requires IsName(key) && IsToken(value) && r != "" && IsSpace(r[0]) && MatchTail(r).Some?
    ensures var t := MatchTail(r).value;
      MatchTail(PrintAttr(key, value) + r) == Some(Tail([Attr(key, value)] + t.attrs, t.rest))
  {
    hide MatchValue, MatchName;
    ValueWhole(value, r);
    NameRead(key, value + r);
    Regroup4(" ", key, "=", value, r);
  }

  function AttrList(key: string, value: string): seq<Attr> {
    if value == "" then [] else [Attr(key, value)]
  }

  lemma TailAttrs(key: string, value: string, r: string)
    requires IsName(key) && (value == "" || IsToken(value))
    requires r != "" && IsSpace(r[0]) && MatchTail(r).Some?
    ensures var s := PrintAttr(key, value) + r;
      && s != "" && IsSpace(s[0])
      && MatchTail(s) == Some(Tail(AttrList(key, value) + MatchTail(r).value.attrs, MatchTail(r).value.rest))
  {
    hide MatchTail;
    if value != "" {
      TailAttr(key, value, r);
    } else {
      assert PrintAttr(key, value) + r == r;
      assert [] + MatchTail(r).value.attrs == MatchTail(r).value.attrs;
    }
  }

  lemma PrintedTail(zone: string, provenance: string, r: string)
    requires (zone == "" || IsToken(zone)) && (provenance == "" || IsToken(provenance))
    ensures var s := PrintAttr("zone", zone) + (PrintAttr("provenance", provenance) + (" -->" + r));
      && s != "" && IsSpace(s[0])
      && MatchTail(s) == Some(Tail(AttrList("zone", zone) + AttrList("provenance", provenance), r))
  {
    hide MatchTail, PrintAttr, AttrList;
    TailClose(r);
    var t0 := " -->" + r;
    TailAttrs("provenance", provenance, t0);
    assert AttrList("provenance", provenance) + [] == AttrList("provenance", provenance);
    TailAttrs("zone", zone, PrintAttr("provenance", provenance) + t0);
  }

  lemma Regroup3(a: string, b: string, c: string, r: string)
    ensures a + b + c + r == a + (b + (c + r))
  {
    assert a + b + c + r == a + b + (c + r);
  }

  lemma Regroup4(a: string, b: string, c: string, d: string, r: string)
    ensures a + b + c + d + r == a + (b + (c + (d + r)))
  {
    Regroup3(a + b, c, d, r);
  }

  lemma Regroup(a: string, b: string, c: string, d: string, e: string, r: string)
    ensures a + b + c + d + e + r == a + (b + (c + (d + (e + r))))
  {
    assert a + b + c + d + e + r == a + b + c + d + (e + r);
    assert a + b + c + d + (e + r) == a + b + c + (d + (e + r));
    assert a + b + c + (d + (e + r)) == a + b + (c + (d + (e + r)));
  }

  /** Every printed BEGIN marker is read back as itself, whatever surrounds it. */
  lemma {:induction false} PrintedBegin(id: string, zone: string, provenance: string, r: string)
    requires IsToken(id) && (zone == "" || IsToken(zone)) && (provenance == "" || IsToken(provenance))
    ensures MatchBegin(PrintBegin(id, zone, provenance) + r)
         == Some(Begin(id, AttrList("zone", zone) + AttrList("provenance", provenance), r))
  {
    hide MatchHead, MatchValue, MatchTail, PrintAttr, AttrList;
    PrintedTail(zone, provenance, r);
    var t := PrintAttr("zone", zone) + (PrintAttr("provenance", provenance) + (" -->" + r));
    ValueWhole(id, t);
    PrintedHead(BEGIN, id + t);
    assert "<!-- CURATOR:BEGIN block=" == "<!-- " + BEGIN + " block=";
    Regroup("<!-- CURATOR:BEGIN block=", id, PrintAttr("zone", zone), PrintAttr("provenance", provenance), " -->", r);
  }

  lemma PrintedOpens(id: string, zone: string, provenance: string, r: string)
    ensures Opens(PrintBegin(id, zone, provenance) + r)
  {
    var rest := "block=" + id + PrintAttr("zone", zone) + PrintAttr("provenance", provenance) + " -->" + r;
    assert "<!-- CURATOR:BEGIN block=" == OPENING + "block=";
    assert PrintBegin(id, zone, provenance) + r == OPENING + rest;
  }

  lemma PrintedAttrs(zone: string, provenance: string)
    ensures var attrs := AttrList("zone", zone) + AttrList("provenance", provenance);
      AttrValue(attrs, "zone") == zone && AttrValue(attrs, "provenance") == provenance
  {}
}
