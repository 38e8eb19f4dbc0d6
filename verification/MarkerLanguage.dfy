/** The markers as a language: which texts the BEGIN and END patterns match. */
module MarkerLanguage {
  import opened Wrappers
  import opened Markers
  import opened MarkerFacts

  predicate Spaces(s: string) {
    forall i :: 0 <= i < |s| ==> IsSpace(s[i])
  }

  /** One or more attributes, each behind white space: `key=value`. */
  ghost predicate AttrsText(t: string, attrs: seq<Attr>)
    decreases |attrs|
  {
    if attrs == [] then t == ""
    else exists w, rest :: AttrThenRest(t, w, attrs[0], rest) && AttrsText(rest, attrs[1..])
  }

  predicate AttrThenRest(t: string, w: string, a: Attr, rest: string) {
    t == w + (a.key + ("=" + (a.value + rest))) && w != "" && Spaces(w) && IsName(a.key) && IsToken(a.value)
  }

  /** `<!--`, the word, `block=`, then `rest`, with white space where the pattern has it. */
  predicate HeadThenRest(t: string, w1: string, word: string, w2: string, rest: string) {
    t == "<!--" + (w1 + (word + (w2 + ("block=" + rest)))) && Spaces(w1) && w2 != "" && Spaces(w2)
  }

  /** ID, attributes, white space, arrow. */
  ghost predicate ClosesBegin(t: string, id: string, attrs: seq<Attr>, at: string, w: string) {
    t == id + (at + (w + "-->")) && IsToken(id) && AttrsText(at, attrs) && Spaces(w)
  }

  /** The text of a BEGIN marker with this ID and these attributes. */
  ghost predicate IsBegin(m: string, id: string, attrs: seq<Attr>) {
    exists w1, w2, t, at, w3 :: HeadThenRest(m, w1, "CURATOR:BEGIN", w2, t) && ClosesBegin(t, id, attrs, at, w3)
  }

  /** The text of an END marker for this ID. */
  ghost predicate IsEnd(m: string, id: string) {
    exists w1, w2, w3 :: HeadThenRest(m, w1, "CURATOR:END", w2, id + (w3 + "-->")) && Spaces(w3)
  }

  /* ----- heads ----- */

  lemma SpacesRun(w: string, r: string)
    requires Spaces(w) && r != "" && !IsSpace(r[0])
    ensures RunLen(w + r, IsSpace) == |w| && DropSpaces(w + r) == r
  {
    hide IsSpace;
    RunLenIs(w + r, IsSpace, |w|);
  }

  lemma PaddedComplete(lit: string, w: string, r: string)
    requires lit != "" && !IsSpace(lit[0]) && Spaces(w)
    ensures DropPadded(lit, w + (lit + r)) == Some(r) && RunLen(w + (lit + r), IsSpace) == |w|
  {
    hide IsSpace;
    SpacesRun(w, lit + r);
    DropLiteral(lit, r);
  }

  lemma PaddedSound(lit: string, s: string) returns (w: string)
    requires DropPadded(lit, s).Some?
    ensures Spaces(w) && s == w + (lit + DropPadded(lit, s).value) && |w| == RunLen(s, IsSpace)
  {
    hide IsSpace;
    RunFacts(s, IsSpace);
    w := s[..RunLen(s, IsSpace)];
    assert s == w + DropSpaces(s);
  }

  lemma HeadComplete(t: string, w1: string, word: string, w2: string, rest: string)
    requires HeadThenRest(t, w1, word, w2, rest) && word != "" && !IsSpace(word[0])
    ensures MatchHead(t, word) == Some(rest)
  {
    hide DropPadded, IsSpace, RunLen;
    DropLiteral("<!--", w1 + (word + (w2 + ("block=" + rest))));
    PaddedComplete(word, w1, w2 + ("block=" + rest));
    LiteralsStart();
    PaddedComplete("block=", w2, rest);
  }

  lemma LiteralsStart()
    ensures !IsSpace("block="[0]) && !IsSpace("-->"[0]) && !IsSpace("CURATOR:BEGIN"[0]) && !IsSpace("CURATOR:END"[0])
  {}

  lemma HeadSound(t: string, word: string) returns (w1: string, w2: string)
    requires MatchHead(t, word).Some?
    ensures HeadThenRest(t, w1, word, w2, MatchHead(t, word).value)
  {
    hide DropPadded, IsSpace, RunLen;
    var s1 := Drop("<!--", t).value;
    w1 := PaddedSound(word, s1);
    var s2 := DropPadded(word, s1).value;
    w2 := PaddedSound("block=", s2);
  }

  /* ----- BEGIN ----- */

  lemma NameComplete(w: string, key: string, r: string)
    requires w != "" && Spaces(w) && IsName(key)
    ensures MatchName(w + (key + ("=" + r))) == Some(Name(key, r))
  {
    hide IsSpace, IsWord, RunLen;
    var t := key + ("=" + r);
    var s := w + t;
    assert key[0] in key;
    WordsAreNoSpaces(key[0]);
    SpacesRun(w, t);
    assert s[|w|..] == t;
    EqualsIsNoWord();
    assert t[|key|] == '=';
    RunLenIs(t, IsWord, |key|);
    assert s[|w|..|w| + |key|] == key && s[|w| + |key|] == '=' && s[|w| + |key| + 1..] == r;
  }

  lemma WordsAreNoSpaces(c: char)
    requires IsWord(c)
    ensures !IsSpace(c)
  {}

  lemma EqualsIsNoWord()
    ensures !IsWord('=') && !IsWord('-')
  {}

  lemma NoNameBeforeArrow(w: string, r: string)
    requires Spaces(w)
    ensures MatchName(w + ("-->" + r)).None?
  {
    hide IsSpace, RunLen;
    LiteralsStart();
    SpacesRun(w, "-->" + r);
    assert (w + ("-->" + r))[|w|..] == "-->" + r;
    EqualsIsNoWord();
    RunLenIs("-->" + r, IsWord, 0);
  }

  lemma {:induction false} TailComplete(at: string, w: string, attrs: seq<Attr>, r: string)
    requires AttrsText(at, attrs) && Spaces(w)
    ensures MatchTail(at + (w + ("-->" + r))).Some?
    decreases |attrs|, 0
  {
    hide MatchName, MatchValue, IsSpace, RunLen, DropPadded;
    if attrs == [] {
      var s := w + ("-->" + r);
      assert at + s == s;
      NoNameBeforeArrow(w, r);
      LiteralsStart();
      PaddedComplete("-->", w, r);
    } else {
      var w', rest :| AttrThenRest(at, w', attrs[0], rest) && AttrsText(rest, attrs[1..]);
      var after := attrs[0].value + (rest + (w + ("-->" + r)));
      assert at + (w + ("-->" + r)) == w' + (attrs[0].key + ("=" + after));
      NameComplete(w', attrs[0].key, after);
      ValueComplete(attrs[0].value, rest, w, attrs[1..], r);
    }
  }

  /** Attributes and the white space behind them are over, or go on with white space. */
  lemma AttrsStartWithSpace(at: string, w: string, attrs: seq<Attr>)
    requires AttrsText(at, attrs) && Spaces(w)
    ensures at + w == "" || IsSpace((at + w)[0])
  {
    hide IsSpace;
    if attrs != [] {
      var w', rest :| AttrThenRest(at, w', attrs[0], rest) && AttrsText(rest, attrs[1..]);
      assert (at + w)[0] == w'[0];
    }
  }

  lemma {:induction false} ValueComplete(id: string, at: string, w: string, attrs: seq<Attr>, r: string)
    requires IsToken(id) && AttrsText(at, attrs) && Spaces(w)
    ensures MatchValue(id + (at + (w + ("-->" + r)))).Some?
    decreases |attrs|, 1
  {
    hide MatchTail, IsSpace, RunLen, LastArrow, AttrsText;
    var rest := at + (w + ("-->" + r));
    var s := id + rest;
    AttrsStartWithSpace(at, w, attrs);
    RunFacts(s, NonSpace);
    var v := RunLen(s, NonSpace);
    if at + w == "" {
      assert rest == "-->" + r;
      ArrowInRun(id, r);
    } else {
      assert rest[0] == (at + w)[0];
      RunPast(id, rest, NonSpace);
      TailComplete(at, w, attrs, r);
    }
  }

  /** An arrow directly behind a token is part of the same run, and an arrow is found in it. */
  lemma ArrowInRun(id: string, r: string)
    requires IsToken(id)
    ensures var s := id + ("-->" + r);
      var v := RunLen(s, NonSpace);
      v > 0 && LastArrow(s[..v]).Some?
  {
    hide IsSpace;
    var s := id + ("-->" + r);
    var v := RunLen(s, NonSpace);
    RunFacts(s, NonSpace);
    LiteralsStart();
    DashIsNoSpace();
    assert forall i :: 0 <= i < |id| ==> id[i] in id && s[i] == id[i];
    assert s[|id|] == '-' && s[|id| + 1] == '-' && s[|id| + 2] == '>';
    assert v >= |id| + 3;
    assert s[..v][|id|..] == s[|id|..v];
    assert ARROW <= s[..v][|id|..];
  }

  lemma DashIsNoSpace()
    ensures !IsSpace('-') && !IsSpace('>')
  {}

  lemma {:induction false} TailSound(s: string) returns (at: string, w: string)
    requires MatchTail(s).Some?
    ensures AttrsText(at, MatchTail(s).value.attrs) && Spaces(w)
    ensures s == at + (w + ("-->" + MatchTail(s).value.rest))
    decreases |s|
  {
    hide IsSpace, MatchValue, DropPadded, IsName, IsToken, AttrsText, MatchName;
    match MatchName(s)
    case Some(n) =>
      var ws := NameSound(s);
      var at', w' := ValueSound(n.rest);
      var m := MatchValue(n.rest).value;
      var a := Attr(n.name, m.id);
      w := w';
      at := ws + (a.key + ("=" + (a.value + at')));
      OneMoreAttr(at, ws, a, at', m.attrs);
      AttrBefore(ws, a.key, a.value, at', w, m.rest);
    case None =>
      w := PaddedSound(ARROW, s);
      at := "";
      NoAttrs();
      assert s == "" + s;
  }

  lemma OneMoreAttr(at: string, w: string, a: Attr, rest: string, attrs: seq<Attr>)
    requires AttrThenRest(at, w, a, rest) && AttrsText(rest, attrs)
    ensures AttrsText(at, [a] + attrs)
  {
    hide IsSpace, IsName, IsToken, AttrThenRest;
    var all := [a] + attrs;
    assert all[0] == a && all[1..] == attrs;
    assert AttrThenRest(at, w, all[0], rest) && AttrsText(rest, all[1..]);
  }

  lemma AttrBefore(ws: string, key: string, value: string, at: string, w: string, r: string)
    ensures ws + (key + ("=" + (value + (at + (w + ("-->" + r))))))
         == ws + (key + ("=" + (value + at))) + (w + ("-->" + r))
  {
    var x := w + ("-->" + r);
    Associates(value, at, x);
    Associates("=", value + at, x);
    Associates(key, "=" + (value + at), x);
    Associates(ws, key + ("=" + (value + at)), x);
  }

  lemma NameSound(s: string) returns (w: string)
    requires MatchName(s).Some?
    ensures var n := MatchName(s).value;
      w != "" && Spaces(w) && IsName(n.name) && s == w + (n.name + ("=" + n.rest))
  {
    var q, k := NameParts(s);
    hide MatchName, IsSpace, IsWord, RunLen, IsName;
    RunFacts(s, IsSpace);
    w := s[..q];
    CutWord(s[q..], k);
    WordIsName(s[q..], k);
    assert s == w + s[q..];
  }

  /** Where the space before the name ends, and how long the name is. */
  lemma NameParts(s: string) returns (q: nat, k: nat)
    requires MatchName(s).Some?
    ensures 0 < q == RunLen(s, IsSpace) <= |s| && 0 < k == RunLen(s[q..], IsWord) < |s| - q && s[q..][k] == '='
    ensures MatchName(s).value == Name(s[q..][..k], s[q..][k + 1..])
  {
    hide RunLen;
    q := RunLen(s, IsSpace);
    k := RunLen(s[q..], IsWord);
    assert s[q + k] == s[q..][k];
    assert s[q..q + k] == s[q..][..k] && s[q + k + 1..] == s[q..][k + 1..];
  }

  lemma WordIsName(t: string, k: nat)
    requires 0 < k == RunLen(t, IsWord)
    ensures IsName(t[..k])
  {
    RunFacts(t, IsWord);
  }

  lemma CutWord(t: string, k: nat)
    requires k < |t| && t[k] == '='
    ensures t == t[..k] + ("=" + t[k + 1..])
  {}

  lemma {:induction false} ValueSound(s: string) returns (at: string, w: string)
    requires MatchValue(s).Some?
    ensures var m := MatchValue(s).value;
      && IsToken(m.id) && AttrsText(at, m.attrs) && Spaces(w)
      && s == m.id + (at + (w + ("-->" + m.rest)))
    decreases |s|
  {
    hide IsSpace, MatchTail, IsToken, LastArrow, AttrsText;
    var v := RunLen(s, NonSpace);
    assert s == s[..v] + s[v..];
    if MatchTail(s[v..]).Some? {
      at, w := TailSound(s[v..]);
    } else {
      var k := LastArrow(s[..v]).value;
      at, w := "", "";
      NoAttrs();
      ArrowCut(s, v, k);
    }
  }

  lemma ArrowCut(s: string, v: nat, k: nat)
    requires v <= |s| && k + 3 <= v && ARROW <= s[..v][k..]
    ensures s == s[..k] + ("" + ("" + ("-->" + s[k + 3..])))
  {
    assert s[..v][k..] == s[k..v] && s[k..v][..3] == s[k..k + 3];
    assert "" + ("-->" + s[k + 3..]) == "-->" + s[k + 3..];
    assert s == s[..k] + s[k..k + 3] + s[k + 3..];
  }

  lemma NoAttrs()
    ensures AttrsText("", []) && Spaces("")
  {}

  /** What the BEGIN pattern matches is a BEGIN marker with that ID and these attributes. */
  lemma {:induction false} BeginIsSound(s: string) returns (m: string)
    requires MatchBegin(s).Some?
    ensures s == m + MatchBegin(s).value.rest && IsBegin(m, MatchBegin(s).value.id, MatchBegin(s).value.attrs)
  {
    hide MatchHead, MatchValue, IsSpace, IsToken, AttrsText;
    var w1, w2 := HeadSound(s, BEGIN);
    var s1 := MatchHead(s, BEGIN).value;
    var at, w3 := ValueSound(s1);
    var b := MatchValue(s1).value;
    var t := b.id + (at + (w3 + "-->"));
    assert s1 == t + b.rest;
    m := "<!--" + (w1 + ("CURATOR:BEGIN" + (w2 + ("block=" + t))));
    assert HeadThenRest(m, w1, "CURATOR:BEGIN", w2, t) && ClosesBegin(t, b.id, b.attrs, at, w3);
    HeadBefore(w1, w2, t, b.rest);
  }

  lemma HeadBefore(w1: string, w2: string, t: string, r: string)
    ensures "<!--" + (w1 + ("CURATOR:BEGIN" + (w2 + ("block=" + (t + r)))))
         == "<!--" + (w1 + ("CURATOR:BEGIN" + (w2 + ("block=" + t)))) + r
  {}

  /** Every BEGIN marker is matched where it starts, whatever follows it. */
  lemma {:induction false} BeginIsComplete(m: string, id: string, attrs: seq<Attr>, r: string)
    requires IsBegin(m, id, attrs)
    ensures MatchBegin(m + r).Some?
  {
    hide MatchHead, MatchValue, IsSpace, IsToken, AttrsText;
    var w1, w2, t, at, w3 :| HeadThenRest(m, w1, "CURATOR:BEGIN", w2, t) && ClosesBegin(t, id, attrs, at, w3);
    HeadBefore(w1, w2, t, r);
    LiteralsStart();
    HeadComplete(m + r, w1, BEGIN, w2, t + r);
    assert t + r == id + (at + (w3 + ("-->" + r)));
    ValueComplete(id, at, w3, attrs, r);
  }

  /** So a BEGIN marker is found at the start of a text exactly when one stands there. */
  lemma {:induction false} BeginIsMatchedIff(s: string)
    ensures MatchBegin(s).Some? <==> exists m, id, attrs :: m <= s && IsBegin(m, id, attrs)
  {
    hide MatchBegin, IsBegin;
    if MatchBegin(s).Some? {
      var m := BeginIsSound(s);
    }
    if m, id, attrs :| m <= s && IsBegin(m, id, attrs) {
      assert s == m + s[|m|..];
      BeginIsComplete(m, id, attrs, s[|m|..]);
    }
  }

  /* ----- END ----- */

  /** An END marker for an ID is found at the start of a text exactly when one stands there. */
  lemma {:induction false} EndIsMatchedIff(s: string, id: string)
    ensures MatchEnd(s, id).Some? <==> exists m :: m <= s && IsEnd(m, id)
    ensures MatchEnd(s, id).Some? ==> exists m :: IsEnd(m, id) && s == m + MatchEnd(s, id).value
  {
    hide IsEnd, MatchEnd;
    if MatchEnd(s, id).Some? {
      var m := EndIsSound(s, id);
    }
    if m :| m <= s && IsEnd(m, id) {
      assert s == m + s[|m|..];
      EndIsComplete(m, id, s[|m|..]);
    }
  }

  lemma EndIsSound(s: string, id: string) returns (m: string)
    requires MatchEnd(s, id).Some?
    ensures IsEnd(m, id) && s == m + MatchEnd(s, id).value
  {
    hide MatchHead, DropPadded, IsSpace;
    var w1, w2 := HeadSound(s, END);
    var s1 := MatchHead(s, END).value;
    var s2 := Drop(id, s1).value;
    var w3 := PaddedSound(ARROW, s2);
    var r := DropPadded(ARROW, s2).value;
    var t := id + (w3 + "-->");
    assert s1 == t + r;
    m := "<!--" + (w1 + ("CURATOR:END" + (w2 + ("block=" + t))));
    assert HeadThenRest(m, w1, "CURATOR:END", w2, id + (w3 + "-->"));
    EndHeadBefore(w1, w2, t, r);
  }

  lemma EndHeadBefore(w1: string, w2: string, t: string, r: string)
    ensures "<!--" + (w1 + ("CURATOR:END" + (w2 + ("block=" + (t + r)))))
         == "<!--" + (w1 + ("CURATOR:END" + (w2 + ("block=" + t)))) + r
  {}

  lemma EndIsComplete(m: string, id: string, r: string)
    requires IsEnd(m, id)
    ensures MatchEnd(m + r, id) == Some(r)
  {
    hide MatchHead, DropPadded, IsSpace;
    var w1, w2, w3 :| HeadThenRest(m, w1, "CURATOR:END", w2, id + (w3 + "-->")) && Spaces(w3);
    var t := id + (w3 + "-->");
    EndHeadBefore(w1, w2, t, r);
    LiteralsStart();
    HeadComplete(m + r, w1, END, w2, t + r);
    assert t + r == id + (w3 + ("-->" + r));
    DropLiteral(id, w3 + ("-->" + r));
    PaddedComplete(ARROW, w3, r);
  }

  /* ----- which attributes count ----- */

  /** Of several attributes with one key the last counts. */
  lemma {:induction false} LastAttributeCounts(attrs: seq<Attr>, more: seq<Attr>, a: Attr)
    requires forall i :: 0 <= i < |more| ==> more[i].key != a.key
    ensures AttrValue(attrs + [a] + more, a.key) == a.value
    decreases |more|
  {
    if more == [] {
      assert attrs + [a] + more == attrs + [a];
      assert (attrs + [a])[|attrs|] == a;
    } else {
      var all := attrs + [a] + more;
      assert all[..|all| - 1] == attrs + [a] + more[..|more| - 1] && all[|all| - 1] == more[|more| - 1];
      LastAttributeCounts(attrs, more[..|more| - 1], a);
    }
  }

  /** The character classes: `\\s`, its complement and `\\w`. */
  lemma {:induction false} CharClasses(c: char)
    ensures IsSpace(c) <==> c == ' ' || c == '\t' || c == '\n' || c == '\r' || c == '\U{0C}'
    ensures NonSpace(c) <==> !IsSpace(c)
    ensures IsWord(c) <==> 'a' <= c <= 'z' || 'A' <= c <= 'Z' || '0' <= c <= '9' || c == '_'
  {}
}
