/**
 Blocks whose provenance has no hash: the backend prints their markers, and the
 wiki parser reads them as plain text.
 */
module UnhashedBlocks {
  import opened IR
  import opened Markdown
  import opened ZoneMarkers
  import opened Markers
  import opened MarkerFacts
  import opened MarkerCuts
  import opened PageText
  import Text

  lemma ZoneIsToken(b: Block)
    ensures IsToken(ZoneLabel(b))
  {}

  /* ----- the BEGIN marker is not read ----- */

  lemma ArrowHasAngle(s: string, k: nat)
    requires k <= |s| && ARROW <= s[k..]
    ensures '>' in s
  {
    assert s[k + 2] == s[k..][2] == '>';
  }

  lemma NoArrowWithout(s: string)
    requires '>' !in s
    ensures LastArrow(s).None?
  {
    if LastArrow(s).Some? {
      ArrowHasAngle(s, LastArrow(s).value);
      assert false;
    }
  }

  lemma ValueFails(tok: string, r: string)
    requires IsToken(tok) && LastArrow(tok).None? && r != "" && Markers.IsSpace(r[0]) && MatchTail(r).None?
    ensures MatchValue(tok + r).None?
  {
    hide MatchTail, LastArrow;
    RunPast(tok, r, NonSpace);
  }

  /** An attribute without a value is not an attribute, and not the end of a marker either. */
  lemma EmptyAttrFails(r: string)
    ensures MatchTail(" provenance=" + (" -->" + r)).None?
  {
    hide RunLen, MatchName;
    var s := " -->" + r;
    NameRead("provenance", s);
    assert " provenance=" == " " + "provenance" + "=";
    Regroup3(" ", "provenance", "=", s);
    RunLenIs(s, NonSpace, 0);
  }

  lemma ZoneAttrFails(zone: string, r: string)
    requires IsToken(zone) && LastArrow(zone).None? && r != "" && Markers.IsSpace(r[0]) && MatchTail(r).None?
    ensures var s := PrintAttr("zone", zone) + r;
      s != "" && Markers.IsSpace(s[0]) && MatchTail(s).None?
  {
    hide MatchValue, MatchName;
    ValueFails(zone, r);
    NameRead("zone", zone + r);
    Regroup4(" ", "zone", "=", zone, r);
  }

  /**
   A block whose provenance carries no hash is printed with a BEGIN marker that
   the parser cannot read: its region is lost on the page.
   */
  lemma {:induction false} BlockWithoutHashIsLost(b: Block, id: string, r: string)
    requires b.prov.inputHash == "" && IsToken(id) && LastArrow(id).None?
    ensures MatchBegin(BlockText(Marker(MarkerBegin, b, id)) + r).None?
  {
    hide MatchHead, MatchValue, MatchTail, PrintAttr;
    var zone := ZoneLabel(b);
    var tail := " provenance=" + (" -->" + ("\n" + r));
    EmptyAttrFails("\n" + r);
    ZoneIsToken(b);
    NoArrowWithout(zone);
    ZoneAttrFails(zone, tail);
    var attrs := PrintAttr("zone", zone) + tail;
    ValueFails(id, attrs);
    PrintedHead(BEGIN, id + attrs);
    UnhashedText(b, id, r);
  }

  lemma Glue(a: string, b: string, c: string, d: string, e: string, f: string, r: string)
    ensures a + b + c + d + e + "" + f + r == a + (b + ((c + d) + (e + (f + r))))
  {
    assert a + b + c + d + e + "" == a + b + (c + d) + e;
    Regroup(a, b, c + d, e, f, r);
  }

  lemma UnhashedText(b: Block, id: string, r: string)
    requires b.prov.inputHash == ""
    ensures BlockText(Marker(MarkerBegin, b, id)) + r ==
      "<!-- " + BEGIN + " block=" + (id + (PrintAttr("zone", ZoneLabel(b)) + (" provenance=" + (" -->" + ("\n" + r)))))
  {
    var zone := ZoneLabel(b);
    assert "<!-- CURATOR:BEGIN block=" == "<!-- " + BEGIN + " block=";
    assert PrintAttr("zone", zone) == " zone=" + zone by {
      assert " " + "zone" + "=" == " zone=";
    }
    Glue("<!-- CURATOR:BEGIN block=", id, " zone=", zone, " provenance=", " -->\n", r);
    assert " -->\n" + r == " -->" + ("\n" + r);
  }

  /** An ID that holds an arrow ends the marker early, hash or not. */
  lemma {:induction false} ArrowEndsMarker(b: Block, id: string, r: string)
    requires b.prov.inputHash == "" && IsToken(id) && LastArrow(id).Some?
    ensures MatchBegin(BlockText(Marker(MarkerBegin, b, id)) + r).Some?
  {
    hide MatchHead, MatchTail, PrintAttr, LastArrow;
    var zone := ZoneLabel(b);
    var tail := " provenance=" + (" -->" + ("\n" + r));
    EmptyAttrFails("\n" + r);
    ZoneIsToken(b);
    NoArrowWithout(zone);
    ZoneAttrFails(zone, tail);
    var attrs := PrintAttr("zone", zone) + tail;
    RunPast(id, attrs, NonSpace);
    PrintedHead(BEGIN, id + attrs);
    UnhashedText(b, id, r);
  }

  /**
   The parser reads a BEGIN marker in what is printed for a block exactly when it has a hash, or an
   arrow in its ID.
   */
  lemma {:induction false} MarkerIsReadIff(b: Block, s: nat, k: nat, r: string)
    requires IsToken(BlockIDFor(b, s, k)) && (b.prov.inputHash == "" || IsToken(b.prov.inputHash))
    ensures MatchBegin(BlockText(Marker(MarkerBegin, b, BlockIDFor(b, s, k))) + r).Some? <==>
      b.prov.inputHash != "" || LastArrow(BlockIDFor(b, s, k)).Some?
  {
    hide BlockText, BlockIDFor, MatchBegin, LastArrow, PrintBegin, AttrList, ZoneLabel, IsToken;
    var id := BlockIDFor(b, s, k);
    if b.prov.inputHash != "" {
      ZoneIsToken(b);
      BeginText(b, s, k);
      var begin := PrintBegin(id, ZoneLabel(b), b.prov.inputHash);
      PrintedBegin(id, ZoneLabel(b), b.prov.inputHash, "\n" + r);
      assert begin + "\n" + r == begin + ("\n" + r);
    } else if LastArrow(id).Some? {
      ArrowEndsMarker(b, id, r);
    } else {
      BlockWithoutHashIsLost(b, id, r);
    }
  }

  lemma BeginText(b: Block, s: nat, k: nat)
    requires b.prov.inputHash != ""
    ensures var id := BlockIDFor(b, s, k);
      BlockText(Marker(MarkerBegin, b, id)) == PrintBegin(id, ZoneLabel(b), b.prov.inputHash) + "\n"
  {
    hide BlockIDFor;
    var id, zone, hash := BlockIDFor(b, s, k), ZoneLabel(b), b.prov.inputHash;
    var z, p := PrintAttr("zone", zone), PrintAttr("provenance", hash);
    assert " " + "zone" + "=" == " zone=" && " " + "provenance" + "=" == " provenance=";
    var a := "<!-- CURATOR:BEGIN block=" + id;
    assert a + " zone=" + zone == a + z;
    assert a + z + " provenance=" + hash == a + z + p;
    assert " -->" + "\n" == " -->\n";
    assert a + z + p + " -->\n" == a + z + p + " -->" + "\n";
  }

  lemma EndText(b: Block, id: string)
    ensures BlockText(Marker(MarkerEnd, b, id)) == PrintEnd(id) + "\n"
  {
    assert " -->" + "\n" == " -->\n";
  }

  /* ----- nor does another one start in its markers ----- */

  /** No BEGIN marker starts in `m`, whatever follows. */
  ghost predicate Inert(m: string) {
    forall c: string, i :: 0 <= i < |m| ==> !Begins((m + c)[i..])
  }

  lemma NotRead(s: string)
    requires MatchBegin(s).None?
    ensures !Begins(s)
  {}

  lemma StartsWithAngle(s: string)
    requires s == "" || s[0] != '<'
    ensures !Begins(s)
  {
    hide MatchValue;
    assert "<!--"[0] == '<';
  }

  /** A token is no head of a marker when neither literal of the head follows it. */
  lemma NoHeadInToken(t: string, r: string)
    requires IsToken(t) && r != "" && IsSpace(r[0]) && DropSpaces(r) != ""
    requires DropSpaces(r)[0] != 'C' && DropSpaces(r)[0] != 'b'
    ensures MatchHead(t + r, BEGIN).None?
  {
    hide IsSpace, RunLen;
    LiteralsAreSharp();
    assert IsToken(BEGIN);
    if "<!--" <= t + r {
      TokenInToken("<!--", t, r);
      var t1 := t[4..];
      assert (t + r)[4..] == t1 + r;
      AfterToken(BEGIN, t1, r);
      if DropPadded(BEGIN, t1 + r).Some? {
        var t2 := t1[|BEGIN|..];
        assert (t1 + r)[|BEGIN|..] == t2 + r;
        AfterToken("block=", t2, r);
      }
    }
  }

  lemma TokenInToken(lit: string, t: string, r: string)
    requires IsToken(lit) && r != "" && IsSpace(r[0]) && lit <= t + r
    ensures lit <= t
  {
    assert forall i :: 0 <= i < |lit| ==> lit[i] in lit && lit[i] == (t + r)[i];
    assert (t + r)[|t|] == r[0];
  }

  /** Behind a possibly empty token: a literal is found only at its start. */
  lemma AfterToken(lit: string, t: string, r: string)
    requires IsToken(lit) && (forall c <- t :: NonSpace(c)) && r != "" && IsSpace(r[0])
    requires DropSpaces(r) != "" && DropSpaces(r)[0] != lit[0]
    ensures DropPadded(lit, t + r).Some? ==> t != "" && lit <= t && DropPadded(lit, t + r).value == t[|lit|..] + r
    ensures t != "" ==> RunLen(t + r, IsSpace) == 0
  {
    if t == "" {
      assert t + r == r;
    } else {
      assert t[0] in t;
      RunLenIs(t + r, IsSpace, 0);
      assert (t + r)[0..] == t + r;
      if lit <= t + r {
        TokenInToken(lit, t, r);
        assert (t + r)[|lit|..] == t[|lit|..] + r;
      }
    }
  }

  /** A marker line whose only `<` outside the ID opens it, and which is not itself a BEGIN marker. */
  lemma InertMarker(a: string, id: string, z: string)
    requires a != "" && '<' !in a[1..] && IsToken(id) && '<' !in z && z != "" && IsSpace(z[0])
    requires DropSpaces(z) != "" && DropSpaces(z)[0] != 'C' && DropSpaces(z)[0] != 'b'
    requires forall c: string :: !Begins(a + id + z + c)
    ensures Inert(a + id + z)
  {
    hide MatchHead, MatchValue, IsSpace, RunLen, DropSpaces;
    var m := a + id + z;
    forall c: string, i | 0 <= i < |m|
      ensures !Begins((m + c)[i..])
    {
      var s := (m + c)[i..];
      if i == 0 {
        assert s == a + id + z + c;
      } else if |a| <= i < |a| + |id| {
        var t := id[i - |a|..];
        assert s == t + (z + c);
        DropSpacesAppend(z, c);
        NoHeadInToken(t, z + c);
      } else {
        assert s[0] == if i < |a| then a[1..][i - 1] else z[i - |a| - |id|];
        StartsWithAngle(s);
      }
    }
  }

  lemma InertThenFree(m: string, rest: string)
    requires Inert(m) && BeginFree(rest)
    ensures BeginFree(m + rest)
  {
    hide MatchBegin;
    forall i | 0 <= i < |m + rest| + 1
      ensures !Begins((m + rest)[i..])
    {
      if i >= |m| {
        assert (m + rest)[i..] == rest[i - |m|..];
      }
    }
  }

  lemma OneBlank(z: string)
    requires |z| > 1 && z[0] == ' ' && !IsSpace(z[1])
    ensures DropSpaces(z) == z[1..]
  {
    RunLenIs(z, IsSpace, 1);
  }

  lemma BeginMarkerPieces(b: Block, id: string)
    requires b.prov.inputHash == ""
    ensures BlockText(Marker(MarkerBegin, b, id)) ==
      BEGIN_LITERAL + id + AttrsText(b)
  {
    hide ZoneLabel;
    ZoneIsToken(b);
    GlueMarker("<!-- CURATOR:BEGIN block=", id, " zone=", ZoneLabel(b), " provenance=", " -->\n");
  }

  lemma BeginMarkerIsInert(b: Block, id: string)
    requires b.prov.inputHash == "" && IsToken(id) && LastArrow(id).None?
    ensures Inert(BlockText(Marker(MarkerBegin, b, id)))
  {
    hide *;
    var a := BEGIN_LITERAL;
    var z := AttrsText(b);
    BeginMarkerPieces(b, id);
    BeginLiterals(b);
    forall c: string ensures !Begins(a + id + z + c) {
      BlockWithoutHashIsLost(b, id, c);
      NotRead(a + id + z + c);
    }
    InertMarker(a, id, z);
  }

  const BEGIN_LITERAL := "<!-- CURATOR:BEGIN block="

  /** The rest of the line behind the ID. */
  function AttrsText(b: Block): string {
    " zone=" + ZoneLabel(b) + " provenance=" + " -->\n"
  }

  lemma BeginLiterals(b: Block)
    ensures BEGIN_LITERAL != "" && '<' !in BEGIN_LITERAL[1..]
    ensures var z := AttrsText(b);
      && '<' !in z && z != "" && IsSpace(z[0])
      && DropSpaces(z) != "" && DropSpaces(z)[0] == 'z'
  {
    hide DropSpaces, ZoneLabel;
    LiteralHasNoAngle();
    ZoneHasNoAngle(b);
    NotInPieces('<', " zone=", ZoneLabel(b), " provenance=", " -->\n");
    OneBlank(AttrsText(b));
  }

  lemma LiteralHasNoAngle()
    ensures '<' !in BEGIN_LITERAL[1..]
  {
    NotInPieces('<', "!-- ", "CURATOR:", "BEGIN ", "block=");
    assert BEGIN_LITERAL[1..] == "!-- " + "CURATOR:" + "BEGIN " + "block=";
  }

  lemma ZoneHasNoAngle(b: Block)
    ensures '<' !in ZoneLabel(b)
  {}

  lemma NotInPieces(c: char, p: string, q: string, r: string, t: string)
    requires c !in p && c !in q && c !in r && c !in t
    ensures c !in p + q + r + t
  {}

  lemma GlueMarker(a: string, id: string, b: string, c: string, d: string, e: string)
    ensures a + id + b + c + d + "" + e == a + id + (b + c + d + e)
  {}

  lemma EndIsNoBegin(r: string)
    ensures !Begins("<!-- CURATOR:END block=" + r)
  {
    hide MatchValue, DropSpaces;
    var s := "<!-- CURATOR:END block=" + r;
    assert "<!--" <= s && s[4..][0] == ' ' && s[4..][1] == 'C' && s[4..][9] == 'E';
    OneBlank(s[4..]);
    assert s[5..][8] == 'E' && BEGIN[8] == 'B';
  }

  lemma EndMarkerIsInert(id: string)
    requires IsToken(id)
    ensures Inert(PrintEnd(id) + "\n")
  {
    hide MatchBegin, DropSpaces, Inert, IsToken;
    var a, z := "<!-- CURATOR:END block=", " -->\n";
    assert PrintEnd(id) + "\n" == a + id + z by {
      assert " -->" + "\n" == z;
    }
    OneBlank(z);
    forall c: string ensures !Begins(a + id + z + c) {
      EndIsNoBegin(id + z + c);
      assert a + id + z + c == a + (id + z + c);
    }
    InertMarker(a, id, z);
  }

  /* ----- its region is text like any other ----- */

  /** What is printed for the block, markers included. */
  function LostText(b: Block, id: string): string {
    BlocksText(Trio(b, id))
  }

  lemma {:induction false} RowsEndWithNewline(rows: seq<seq<string>>, n: nat)
    ensures RowsText(rows, n) == "" || EndsBlank(RowsText(rows, n))
  {
    hide RowText, PadRow;
    if rows != [] {
      RowsEndWithNewline(rows[1..], n);
      RowEndsWithNewline(PadRow(rows[0], n));
    }
  }

  lemma RowEndsWithNewline(cells: seq<string>)
    ensures EndsBlank(RowText(cells))
  {
    hide Text.Join;
  }

  lemma {:induction false} QuotesEndWithNewline(lines: seq<string>)
    ensures QuotedText(lines) == "" || EndsBlank(QuotedText(lines))
  {
    if lines != [] {
      QuotesEndWithNewline(lines[1..]);
    }
  }

  /** A block prints nothing, or whole lines. */
  lemma BlockEndsWithNewline(b: Block)
    ensures BlockText(b) == "" || EndsBlank(BlockText(b))
  {
    hide WithoutFinalNewlines, RowsText, RowText, Repeat, QuotedText, Text.Split, KeptNames, Text.Join, EntriesText;
    match b
    case TableBlock(columns, rows, _) =>
      RowsEndWithNewline(rows, |columns|);
    case Callout(_, body, _, _) =>
      QuotesEndWithNewline(Text.Split(WithoutFinalNewlines(body)));
    case _ =>
  }

  /** The region of a block without a hash holds no BEGIN marker, and opens none in what follows. */
  lemma {:induction false} LostTextIsFree(b: Block, id: string, rest: string)
    requires b.prov.inputHash == "" && IsToken(id) && LastArrow(id).None?
    requires BeginFree(BlockText(b)) && BeginFree(rest)
    ensures BeginFree(LostText(b, id) + rest) && Blunt(LostText(b, id) + rest)
  {
    hide BeginFree, Blunt, EndsBlank, Inert, BlockText, LastArrow;
    var begin, t, end := BlockText(Marker(MarkerBegin, b, id)), BlockText(b), BlockText(Marker(MarkerEnd, b, id));
    TrioPieces(b, id);
    BeginMarkerIsInert(b, id);
    EndMarkerIsInert(id);
    EndText(b, id);
    var c1 := end + ("\n" + rest);
    NewlineKeepsGap(rest);
    InertThenFree(end, "\n" + rest);
    var c2 := "\n" + c1;
    NewlineKeepsGap(c1);
    BluntMarker(end, "\n" + rest);
    BlockEndsWithNewline(b);
    var c3 := t + c2;
    if t == "" {
      assert c3 == c2;
    } else {
      GapsJoin(t, c2);
    }
    NewlineKeepsGap(c3);
    InertThenFree(begin, "\n" + c3);
    BeginIsBlunt(b, id, "\n" + c3);
    assert LostText(b, id) + rest == begin + ("\n" + c3) by {
      LostPieces(begin, t, end, rest);
    }
  }

  lemma LostPieces(begin: string, t: string, end: string, rest: string)
    ensures begin + "\n" + (t + "\n" + (end + "\n")) + rest == begin + ("\n" + (t + ("\n" + (end + ("\n" + rest)))))
  {
    assert begin + "\n" + (t + "\n" + (end + "\n")) + rest == begin + "\n" + t + "\n" + end + "\n" + rest;
    assert begin + ("\n" + (t + ("\n" + (end + ("\n" + rest))))) == begin + "\n" + t + "\n" + end + "\n" + rest;
  }

  lemma BluntMarker(m: string, rest: string)
    requires m != "" && m[0] == '<'
    ensures Blunt("\n" + (m + rest)) && Blunt(m + rest)
  {
    var s := "\n" + (m + rest);
    RunLenIs(s, IsSpace, 1);
    RunLenIs(m + rest, IsSpace, 0);
  }

  lemma BeginIsBlunt(b: Block, id: string, rest: string)
    ensures Blunt(BlockText(Marker(MarkerBegin, b, id)) + rest)
  {
    hide Blunt;
    var m := BlockText(Marker(MarkerBegin, b, id));
    BluntMarker(m, rest);
  }

  lemma TrioPieces(b: Block, id: string)
    ensures var begin, end := Marker(MarkerBegin, b, id), Marker(MarkerEnd, b, id);
      BlocksText(Trio(b, id)) == BlockText(begin) + "\n" + (BlockText(b) + "\n" + (BlockText(end) + "\n"))
  {
    hide BlockText;
    var begin, end := Marker(MarkerBegin, b, id), Marker(MarkerEnd, b, id);
    var trio := [begin, b, end];
    assert trio[1..] == [b, end] && [b, end][1..] == [end] && [end][1..] == [];
    assert BlocksText([end]) == BlockText(end) + "\n" + "" == BlockText(end) + "\n";
  }
}
