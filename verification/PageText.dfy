/**
 Printing a parsed page with `writeBlock` and parsing it again.

 `writeBlock` ends every block with a newline that the text after the block
 already carries, so printing is not the inverse of parsing: it adds exactly
 one newline behind each END marker, and leaves everything else as it is.
 */
module PageText {
  import opened Wrappers
  import opened Markers
  import opened MarkerFacts
  import opened WikiParse

  /* ----- printing (merge.go) ----- */

  function WriteBlock(nb: Block, body: string): string {
    (if nb.zone != "" || nb.provenance != "" then
       "<!-- CURATOR:BEGIN block=" + nb.id
       + (if nb.zone != "" then " zone=" + nb.zone else "")
       + (if nb.provenance != "" then " provenance=" + nb.provenance else "")
       + " -->\n"
     else
       "<!-- CURATOR:BEGIN block=" + nb.id + " -->\n")
    + body + "\n<!-- CURATOR:END block=" + nb.id + " -->\n"
  }

  function PrintBlocks(blocks: seq<Block>, epilogue: string): string {
    if blocks == [] then epilogue
    else WriteBlock(blocks[0], blocks[0].body) + blocks[0].following + PrintBlocks(blocks[1..], epilogue)
  }

  function PrintDoc(doc: ParsedDoc): string {
    doc.prologue + PrintBlocks(doc.blocks, doc.epilogue)
  }

  /* ----- which documents a parse can produce ----- */

  ghost predicate PrintableBlock(b: Block) {
    && IsToken(b.id)
    && (b.zone == "" || IsToken(b.zone))
    && (b.provenance == "" || IsToken(b.provenance))
    && EndFree(b.body, b.id)
  }

  /** Text after the last END marker, none of which opens a further block. */
  predicate IsTail(following: string, epilogue: string) {
    ScanFrom(following + epilogue) == Scan(following, [], epilogue)
  }

  ghost predicate PrintableBlocks(blocks: seq<Block>, epilogue: string)
    requires blocks != []
  {
    && PrintableBlock(blocks[0])
    && if |blocks| == 1 then IsTail(blocks[0].following, epilogue)
       else BeginFree(blocks[0].following) && PrintableBlocks(blocks[1..], epilogue)
  }

  ghost predicate Printable(doc: ParsedDoc) {
    if doc.blocks == [] then doc.epilogue == "" && ScanFrom(doc.prologue).blocks == []
    else BeginFree(doc.prologue) && PrintableBlocks(doc.blocks, doc.epilogue)
  }

  /** What becomes of blocks and epilogue when they are printed and read back. */
  function Settle(blocks: seq<Block>, epilogue: string): (r: (seq<Block>, string))
    requires blocks != []
  {
    var b := blocks[0];
    if |blocks| == 1 then
      if b.following == "" then ([b], "\n" + epilogue)
      else ([b.(following := "\n" + b.following)], epilogue)
    else
      var (rest, e) := Settle(blocks[1..], epilogue);
      ([b.(following := "\n" + b.following)] + rest, e)
  }

  function Settled(doc: ParsedDoc): ParsedDoc {
    if doc.blocks == [] then doc
    else
      var (blocks, epilogue) := Settle(doc.blocks, doc.epilogue);
      ParsedDoc(doc.prologue, blocks, epilogue)
  }

  /** Settling touches nothing but the text after END markers. */
  lemma {:induction false} SettleKeepsBlocks(blocks: seq<Block>, epilogue: string)
    requires blocks != []
    ensures var s := Settle(blocks, epilogue).0;
      && |s| == |blocks|
      && forall k :: 0 <= k < |s| ==> s[k] == blocks[k].(following := s[k].following)
  {
    if |blocks| > 1 {
      SettleKeepsBlocks(blocks[1..], epilogue);
      var s := Settle(blocks, epilogue).0;
      assert forall k :: 1 <= k < |s| ==> s[k] == Settle(blocks[1..], epilogue).0[k - 1];
    }
  }

  /* ----- leftmost matches in printed text ----- */

  lemma FirstIs(s: string, p: string -> bool, n: nat)
    requires n <= |s| && p(s[n..]) && Nowhere(s, p, 0, n)
    ensures FindFirst(s, p, 0) == Some(n)
  {
    if FindFirst(s, p, 0).None? {
      assert false;
    }
  }

  lemma FirstAfterGap(g: string, c: string)
    requires BeginFree(g) && Opens(c) && Begins(c)
    ensures FindFirst(g + c, Begins, 0) == Some(|g|)
  {
    hide MatchBegin, Opens, FindFirst;
    forall i | 0 <= i < |g|
      ensures !Begins((g + c)[i..])
    {
      assert (g + c)[i..] == g[i..] + c;
      if Begins(g[i..] + c) {
        BeginBack(g[i..], c);
        assert false;
      }
    }
    assert (g + c)[|g|..] == c;
    FirstIs(g + c, Begins, |g|);
  }

  lemma NoMatchAtNewline(s: string, id: string)
    requires s == "" || s[0] == '\n'
    ensures !Begins(s) && !Ends(id)(s)
  {
    assert !("<!--" <= s);
  }

  /** No END marker starts inside a printed body, nor in the newlines around it. */
  lemma EndNotInside(body: string, id: string, c: string, i: nat)
    requires IsToken(id) && EndFree(body, id) && c != "" && c[0] == '<'
    requires i < |body| + 2
    ensures !Ends(id)(("\n" + body + "\n" + c)[i..])
  {
    hide MatchEnd;
    var inner := "\n" + body + "\n";
    var z := ("\n" + body)[i..];
    var y := inner[i..];
    assert y == z + "\n" && (inner + c)[i..] == y + c;
    if i == 0 {
      NoMatchAtNewline(z, id);
    } else {
      assert z == body[i - 1..];
    }
    if Ends(id)(y + c) {
      EndBack(y, id, c);
      EndTrim(z, id);
      assert false;
    }
  }

  lemma FirstEnd(body: string, id: string, r: string)
    requires IsToken(id) && EndFree(body, id)
    ensures FindFirst("\n" + body + "\n" + (PrintEnd(id) + r), Ends(id), 0) == Some(|body| + 2)
  {
    hide MatchEnd, FindFirst, EndFree;
    var inner := "\n" + body + "\n";
    var c := PrintEnd(id) + r;
    assert c[0] == '<';
    forall i | 0 <= i < |inner|
      ensures !Ends(id)((inner + c)[i..])
    {
      EndNotInside(body, id, c, i);
    }
    PrintedEnd(id, r);
    assert (inner + c)[|inner|..] == c;
    FirstIs(inner + c, Ends(id), |inner|);
  }

  lemma InnerText(body: string, id: string, r: string)
    ensures var s := "\n" + body + "\n" + (PrintEnd(id) + r);
      TrimBody(s[..|body| + 2]) == body && s[|body| + 2..] == PrintEnd(id) + r
  {
    var s := "\n" + body + "\n" + (PrintEnd(id) + r);
    assert s[..|body| + 2] == "\n" + body + "\n";
    assert ("\n" + body + "\n")[1..] == body + "\n";
    assert (body + "\n")[..|body|] == body;
  }

  lemma WriteBegin(b: Block, rest: string)
    ensures WriteBlock(b, b.body) ==
      PrintBegin(b.id, b.zone, b.provenance) + "\n" + b.body + ("\n" + PrintEnd(b.id) + "\n")
  {
    var open, end := "<!-- CURATOR:BEGIN block=", "\n<!-- CURATOR:END block=";
    var z, v := PrintAttr("zone", b.zone), PrintAttr("provenance", b.provenance);
    assert " " + "zone" + "=" == " zone=" && " " + "provenance" + "=" == " provenance=";
    assert " -->" + "\n" == " -->\n" && "\n" + "<!-- CURATOR:END block=" == end;
    var begin := open + b.id + z + v + " -->\n";
    assert begin == open + b.id + z + v + " -->" + "\n";
    assert open + b.id + "" == open + b.id;
    assert WriteBlock(b, b.body) == begin + b.body + end + b.id + " -->\n";
    var e := end + b.id + " -->\n";
    assert begin + b.body + end + b.id + " -->\n" == begin + b.body + e;
    assert e == "\n" + PrintEnd(b.id) + "\n";
  }

  lemma WriteBlockShape(b: Block, r: string)
    ensures WriteBlock(b, b.body) + r
         == PrintBegin(b.id, b.zone, b.provenance)
            + ("\n" + b.body + "\n" + (PrintEnd(b.id) + ("\n" + r)))
  {
    hide PrintBegin, PrintEnd, WriteBlock;
    WriteBegin(b, r);
    var begin, end := PrintBegin(b.id, b.zone, b.provenance), PrintEnd(b.id);
    assert begin + "\n" + b.body + ("\n" + end + "\n") + r == begin + ("\n" + b.body + "\n" + (end + ("\n" + r)));
  }

  /** One printed block after a gap is read back, and reading goes on behind its END marker. */
  lemma {:induction false} ScanPrintedBlock(g: string, b: Block, r: string)
    requires BeginFree(g) && PrintableBlock(b)
    ensures var next := ScanFrom("\n" + r);
      ScanFrom(g + (WriteBlock(b, b.body) + r)) ==
      Scan(g, [b.(following := next.gap)] + next.blocks, next.epilogue)
  {
    hide MatchBegin, MatchEnd, ScanFrom, AttrValue, TrimBody, WriteBlock, PrintBegin, PrintEnd, FindFirst, EndFree,
      BeginFree, Opens, AttrList;
    var after := "\n" + r;
    var inner := "\n" + b.body + "\n" + (PrintEnd(b.id) + after);
    var c := PrintBegin(b.id, b.zone, b.provenance) + inner;
    WriteBlockShape(b, r);
    PrintedBegin(b.id, b.zone, b.provenance, inner);
    PrintedOpens(b.id, b.zone, b.provenance, inner);
    var begin := MatchBegin(c).value;
    FirstAfterGap(g, c);
    assert (g + c)[|g|..] == c && (g + c)[..|g|] == g;
    FirstEnd(b.body, b.id, after);
    InnerText(b.body, b.id, after);
    PrintedEnd(b.id, after);
    ScanClosed(g + c, |g|, begin, |b.body| + 2, after);
    PrintedAttrs(b.zone, b.provenance);
  }

  /* ----- printing, then parsing ----- */

  lemma FindAfterNewline(s: string)
    ensures FindFirst("\n" + s, Begins, 0) ==
      match FindFirst(s, Begins, 0) case None => None case Some(n) => Some(n + 1)
  {
    hide MatchBegin;
    var t := "\n" + s;
    NoMatchAtNewline(t, "");
    assert t[0..] == t;
    assert forall i :: 1 <= i <= |t| ==> t[i..] == s[i - 1..];
    match FindFirst(s, Begins, 0)
    case None =>
      assert Nowhere(t, Begins, 0, |t| + 1);
    case Some(n) =>
      FirstIs(t, Begins, n + 1);
  }

  /** A newline in front of a text that opens no block changes only that text. */
  lemma ScanAfterNewline(s: string)
    requires ScanFrom(s).blocks == []
    ensures ScanFrom("\n" + s) == if ScanFrom(s).gap == "" then Scan("", [], "\n" + s) else Scan("\n" + s, [], "")
  {
    hide MatchBegin, MatchEnd, FindFirst;
    FindAfterNewline(s);
    if FindFirst(s, Begins, 0).Some? {
      var n := FindFirst(s, Begins, 0).value;
      assert ("\n" + s)[n + 1..] == s[n..];
      NoMatchAtNewline("", "");
      assert s != "";
    }
  }

  lemma SettleTail(following: string, epilogue: string)
    requires IsTail(following, epilogue)
    ensures ScanFrom("\n" + (following + epilogue)) ==
      if following == "" then Scan("", [], "\n" + epilogue) else Scan("\n" + following, [], epilogue)
  {
    var s := following + epilogue;
    ScanAfterNewline(s);
    ScanShape(s);
    assert following == "" ==> s == epilogue;
    assert following != "" ==> s == following && epilogue == "";
  }

  /** Without blocks a scan gives all its text either to the gap or to the epilogue. */
  lemma ScanShape(s: string)
    ensures var scan := ScanFrom(s);
      scan.blocks == [] ==> scan == Scan("", [], s) || scan == Scan(s, [], "")
  {
    hide MatchBegin, MatchEnd;
  }

  lemma NewlineKeepsGap(g: string)
    requires BeginFree(g)
    ensures BeginFree("\n" + g)
  {
    hide MatchBegin;
    NoMatchAtNewline("\n" + g, "");
    assert forall i :: 1 <= i <= |g| + 1 ==> ("\n" + g)[i..] == g[i - 1..];
  }

  lemma {:induction false} ScanPrinted(g: string, blocks: seq<Block>, epilogue: string)
    requires blocks != [] && BeginFree(g) && PrintableBlocks(blocks, epilogue)
    ensures var (settled, e) := Settle(blocks, epilogue);
      ScanFrom(g + PrintBlocks(blocks, epilogue)) == Scan(g, settled, e)
    decreases |blocks|
  {
    hide ScanFrom, BeginFree, PrintableBlock, WriteBlock;
    var b := blocks[0];
    var r := b.following + PrintBlocks(blocks[1..], epilogue);
    var text := WriteBlock(b, b.body);
    assert text + b.following + PrintBlocks(blocks[1..], epilogue) == text + r;
    ScanPrintedBlock(g, b, r);
    if |blocks| == 1 {
      SettleTail(b.following, epilogue);
    } else {
      NewlineKeepsGap(b.following);
      assert "\n" + r == ("\n" + b.following) + PrintBlocks(blocks[1..], epilogue);
      ScanPrinted("\n" + b.following, blocks[1..], epilogue);
    }
  }

  /**
   Reading back a printed document gives that document, its text behind each
   END marker one newline longer.
   */
  lemma {:induction false} PrintThenParse(doc: ParsedDoc)
    requires Printable(doc)
    ensures Parsed(PrintDoc(doc)) == Settled(doc)
  {
    hide ScanFrom, BeginFree, PrintableBlocks;
    if doc.blocks == [] {
      assert PrintDoc(doc) == doc.prologue;
    } else {
      ScanPrinted(doc.prologue, doc.blocks, doc.epilogue);
    }
  }

  /* ----- every parse result is printable ----- */

  lemma GapBeforeMatch(s: string, n: nat)
    requires FindFirst(s, Begins, 0) == Some(n)
    ensures BeginFree(s[..n])
  {
    hide MatchBegin, FindFirst;
    NoMatchAtNewline("", "");
    forall i | 0 <= i <= n
      ensures !Begins(s[..n][i..])
    {
      var y := s[..n][i..];
      assert y + s[n..] == s[i..];
      assert i == n ==> y == "";
      if Begins(y) {
        BeginForward(y, s[n..]);
        assert false;
      }
    }
  }

  lemma InnerBeforeMatch(s: string, id: string, e: nat, i: nat, j: nat)
    requires FindFirst(s, Ends(id), 0) == Some(e)
    requires i <= j <= e
    ensures EndFree(s[i..j], id)
  {
    hide MatchEnd, FindFirst;
    NoMatchAtNewline("", id);
    var t := s[i..j];
    forall k | 0 <= k <= |t|
      ensures !Ends(id)(t[k..])
    {
      assert t[k..] + s[j..] == s[i + k..];
      assert k == |t| ==> t[k..] == "";
      if Ends(id)(t[k..]) {
        EndForward(t[k..], id, s[j..]);
        assert false;
      }
    }
  }

  lemma TrimIsSlice(s: string) returns (i: nat, j: nat)
    ensures i <= j <= |s| && TrimBody(s) == s[i..j]
  {
    var t := TrimPrefix(s);
    i := |s| - |t|;
    j := i + |TrimSuffix(t)|;
  }

  lemma AttrValueIsToken(attrs: seq<Attr>, key: string)
    requires forall a <- attrs :: IsToken(a.value)
    ensures AttrValue(attrs, key) == "" || IsToken(AttrValue(attrs, key))
  {
    hide IsToken;
  }

  lemma MadeBlockIsPrintable(b: Begin, e: nat, following: string)
    requires FindFirst(b.rest, Ends(b.id), 0) == Some(e)
    requires IsToken(b.id) && forall a <- b.attrs :: IsToken(a.value)
    ensures PrintableBlock(MakeBlock(b, b.rest[..e], following))
    ensures MakeBlock(b, b.rest[..e], following).following == following
  {
    hide EndFree, FindFirst, TrimBody, AttrValue, IsToken, MatchEnd;
    var i, j := TrimIsSlice(b.rest[..e]);
    InnerBeforeMatch(b.rest, b.id, e, i, j);
    assert b.rest[..e][i..j] == b.rest[i..j];
    AttrValueIsToken(b.attrs, "zone");
    AttrValueIsToken(b.attrs, "provenance");
  }

  lemma {:induction false} ScanIsPrintable(s: string)
    ensures var scan := ScanFrom(s);
      scan.blocks != [] ==> BeginFree(scan.gap) && PrintableBlocks(scan.blocks, scan.epilogue)
    decreases |s|
  {
    hide MatchBegin, MatchEnd, BeginFree, PrintableBlock, MakeBlock;
    if FindFirst(s, Begins, 0).Some? {
      var n := FindFirst(s, Begins, 0).value;
      var b := MatchBegin(s[n..]).value;
      if FindFirst(b.rest, Ends(b.id), 0).Some? {
        var e := FindFirst(b.rest, Ends(b.id), 0).value;
        var after := MatchEnd(b.rest[e..], b.id).value;
        GapBeforeMatch(s, n);
        ScanClosed(s, n, b, e, after);
        var next := ScanFrom(after);
        MadeBlockIsPrintable(b, e, next.gap);
        ScanIsPrintable(after);
        var blocks := [MakeBlock(b, b.rest[..e], next.gap)] + next.blocks;
        assert blocks[1..] == next.blocks;
        if next.blocks == [] {
          ScanShape(after);
          assert next.gap + next.epilogue == after;
        }
      }
    }
  }

  lemma {:induction false} ParsedIsPrintable(text: string)
    ensures Printable(Parsed(text))
  {
    hide ScanFrom, BeginFree, PrintableBlocks;
    ScanIsPrintable(text);
  }
}
