/** What the block-level merge promises, for every existing page and every render. */
module MergeLaws {
  import opened Wrappers
  import opened Markers
  import opened WikiParse
  import opened PageText
  import opened Merge

  /**
   `h`, the first block of the page with the ID of `nb`, holds a body that
   survives: the render calls the block editorial and both carry the same
   non-empty provenance hash.
   */
  predicate Survives(nb: Block, h: Option<Block>) {
    nb.zone == "editorial" && h.Some? && nb.provenance != "" && h.value.provenance == nb.provenance
  }

  lemma ChooseBodyMeaning(nb: Block, existing: ParsedDoc)
    ensures var h := FirstWithID(existing.blocks, nb.id);
      ChooseBody(nb, existing) == if Survives(nb, h) then h.value.body else nb.body
  {}

  predicate DistinctIDs(blocks: seq<Block>) {
    forall i, j :: 0 <= i < j < |blocks| ==> blocks[i].id != blocks[j].id
  }

  lemma {:induction false} FirstOfDistinct(blocks: seq<Block>, k: nat)
    requires k < |blocks| && DistinctIDs(blocks)
    ensures FirstWithID(blocks, blocks[k].id) == Some(blocks[k])
  {
    if k > 0 {
      assert blocks[0].id != blocks[k].id;
      FirstOfDistinct(blocks[1..], k - 1);
    }
  }

  /** Looking an ID up in blocks that differ only in bodies and following text. */
  lemma {:induction false} FirstInChanged(blocks: seq<Block>, changed: seq<Block>, id: string)
    requires |changed| == |blocks|
    requires forall k :: 0 <= k < |blocks| ==> changed[k].id == blocks[k].id
    ensures FirstWithID(changed, id).Some? <==> FirstWithID(blocks, id).Some?
    ensures FirstWithID(blocks, id).Some? ==>
      exists k :: 0 <= k < |blocks| && FirstWithID(blocks, id).value == blocks[k]
               && FirstWithID(changed, id).value == changed[k]
  {
    if blocks != [] {
      if blocks[0].id != id {
        FirstInChanged(blocks[1..], changed[1..], id);
        if FirstWithID(blocks[1..], id).Some? {
          var k :| 0 <= k < |blocks[1..]| && FirstWithID(blocks[1..], id).value == blocks[1..][k]
                && FirstWithID(changed[1..], id).value == changed[1..][k];
          assert blocks[1..][k] == blocks[k + 1] && changed[1..][k] == changed[k + 1];
        }
      }
    }
  }

  /* ----- what a merged page holds ----- */

  /**
   For every page `h`, however edited or damaged, and every render: the merged
   page reads back as the render, block by block, except that a surviving body
   of `h` takes the place of the rendered one.
   */
  lemma {:induction false} MergeKeepsExactlySurvivingBodies(h: string, render: string)
    ensures
      var page, new', old' := Parsed(Merged(h, render)), Parsed(render), Parsed(h);
      && |page.blocks| == |new'.blocks|
      && page.prologue == new'.prologue
      && forall k :: 0 <= k < |page.blocks| ==>
        var nb, ob := new'.blocks[k], FirstWithID(old'.blocks, new'.blocks[k].id);
        && page.blocks[k].id == nb.id && page.blocks[k].zone == nb.zone
        && page.blocks[k].provenance == nb.provenance
        && page.blocks[k].body == if Survives(nb, ob) then ob.value.body else nb.body
  {
    hide Parsed, Merged, FirstWithID, Settle;
    MergeReadBack(h, render);
    var doc := MergedDoc(Parsed(h), Parsed(render));
    if doc.blocks != [] {
      SettleKeepsBlocks(doc.blocks, doc.epilogue);
    }
    forall k | 0 <= k < |doc.blocks| {
      ChooseBodyMeaning(Parsed(render).blocks[k], Parsed(h));
    }
  }

  /* ----- the fixed point ----- */

  /**
   Every editorial block that carries a provenance agrees in zone, provenance
   and body with the first block of its ID.
   */
  predicate StableIDs(blocks: seq<Block>) {
    forall k :: 0 <= k < |blocks| ==> Agrees(blocks, k)
  }

  predicate Agrees(blocks: seq<Block>, k: nat)
    requires k < |blocks|
  {
    blocks[k].zone == "editorial" && blocks[k].provenance != "" ==>
      var f := FirstWithID(blocks, blocks[k].id);
      f.Some? && f.value.zone == "editorial"
      && f.value.provenance == blocks[k].provenance && f.value.body == blocks[k].body
  }

  lemma {:induction false} DistinctIDsAreStable(blocks: seq<Block>)
    requires DistinctIDs(blocks)
    ensures StableIDs(blocks)
  {
    forall k | 0 <= k < |blocks| ensures Agrees(blocks, k) {
      FirstOfDistinct(blocks, k);
    }
  }

  lemma {:induction false} FirstExists(blocks: seq<Block>, k: nat)
    requires k < |blocks|
    ensures FirstWithID(blocks, blocks[k].id).Some?
  {
    assert blocks[k] in blocks;
  }

  /** The body that a second merge of the same render gives block `k`. */
  lemma SecondChoice(h: string, render: string, k: nat)
    requires k < |Parsed(render).blocks|
    ensures
      var blocks := Parsed(render).blocks;
      var f := FirstWithID(blocks, blocks[k].id);
      && f.Some?
      && ChooseBody(blocks[k], Parsed(Merged(h, render))) ==
        if Survives(blocks[k], f) then ChooseBody(f.value, Parsed(h)) else blocks[k].body
  {
    hide Parsed, Merged, Settle, FirstWithID, ChooseBody;
    var blocks := Parsed(render).blocks;
    var doc := MergedDoc(Parsed(h), Parsed(render));
    MergeReadBack(h, render);
    SettleKeepsBlocks(doc.blocks, doc.epilogue);
    var page := Parsed(Merged(h, render));
    FirstExists(blocks, k);
    FirstInChanged(blocks, page.blocks, blocks[k].id);
    ChooseBodyMeaning(blocks[k], page);
  }

  lemma {:induction false} StableMergeIsFixed(h: string, render: string)
    requires StableIDs(Parsed(render).blocks)
    ensures Merged(Merged(h, render), render) == Merged(h, render)
  {
    hide Parsed, PrintDoc, FirstWithID, ChooseBody;
    var blocks := Parsed(render).blocks;
    var first, second := MergedBlocks(blocks, Parsed(h)), MergedBlocks(blocks, Parsed(Merged(h, render)));
    forall k | 0 <= k < |blocks|
      ensures first[k] == second[k]
    {
      assert Agrees(blocks, k);
      SecondChoice(h, render, k);
      ChooseBodyMeaning(blocks[k], Parsed(h));
      ChooseBodyMeaning(FirstWithID(blocks, blocks[k].id).value, Parsed(h));
      FirstHasID(blocks, blocks[k].id);
    }
    assert first == second;
  }

  lemma FirstHasID(blocks: seq<Block>, id: string)
    ensures FirstWithID(blocks, id).Some? ==> FirstWithID(blocks, id).value.id == id
  {}

  /* ----- pages made of one block ----- */

  function OneBlockPage(b: Block): string {
    PrintDoc(ParsedDoc("", [b], ""))
  }

  lemma NothingInEmptyText(id: string)
    ensures BeginFree("") && EndFree("", id) && IsTail("", "")
  {
    hide MatchBegin, MatchEnd;
    NoMatchAtNewline("", id);
  }

  lemma PlainBodyHasNoEnd(n: nat, id: string)
    ensures EndFree(seq(n, _ => 'x'), id)
  {
    hide MatchEnd;
    var s := seq(n, _ => 'x');
    forall i | 0 <= i <= n ensures !Ends(id)(s[i..]) {
      NotOpened(s[i..], id);
    }
  }

  lemma NotOpened(s: string, id: string)
    requires s == "" || s[0] != '<'
    ensures !Ends(id)(s)
  {
    assert !("<!--" <= s);
  }

  lemma OneBlockPageReadsBack(b: Block)
    requires PrintableBlock(b) && b.following == ""
    ensures FirstWithID(Parsed(OneBlockPage(b)).blocks, b.id) == Some(b)
  {
    hide Parsed, PrintDoc, PrintableBlock, BeginFree, EndFree, IsTail;
    NothingInEmptyText(b.id);
    PrintThenParse(ParsedDoc("", [b], ""));
  }

  /** A body without markers that differs from two given ones. */
  function FreshBody(a: string, b: string): (r: string)
    ensures r != a && r != b
  {
    if "" != a && "" != b then ""
    else if "x" != a && "x" != b then "x"
    else "xx"
  }

  lemma FreshBodyHasNoEnd(a: string, b: string, id: string)
    ensures EndFree(FreshBody(a, b), id)
  {
    hide EndFree;
    PlainBodyHasNoEnd(0, id);
    PlainBodyHasNoEnd(1, id);
    PlainBodyHasNoEnd(2, id);
    assert seq(0, _ => 'x') == "" && seq(1, _ => 'x') == "x" && seq(2, _ => 'x') == "xx";
  }

  lemma DifferentBodyDifferentPage(h: string, g: string, render: string, k: nat)
    requires k < |Parsed(render).blocks|
    requires ChooseBody(Parsed(render).blocks[k], Parsed(h)) != ChooseBody(Parsed(render).blocks[k], Parsed(g))
    ensures Merged(h, render) != Merged(g, render)
  {
    hide Parsed, Merged, FirstWithID, ChooseBody;
    var nb := Parsed(render).blocks[k];
    MergeKeepsExactlySurvivingBodies(h, render);
    MergeKeepsExactlySurvivingBodies(g, render);
    ChooseBodyMeaning(nb, Parsed(h));
    ChooseBodyMeaning(nb, Parsed(g));
  }

  /** The witness page for a block that does not agree with the first of its ID. */
  lemma {:induction false} UnstableMergeMoves(render: string, k: nat) returns (h: string)
    requires k < |Parsed(render).blocks| && !Agrees(Parsed(render).blocks, k)
    ensures Merged(Merged(h, render), render) != Merged(h, render)
  {
    hide Parsed, Merged, FirstWithID, ChooseBody, EndFree;
    var blocks := Parsed(render).blocks;
    var nb := blocks[k];
    FirstExists(blocks, k);
    FirstHasID(blocks, nb.id);
    var f := FirstWithID(blocks, nb.id).value;
    var body := FreshBody(nb.body, f.body);
    var b := Block(nb.id, "editorial", nb.provenance, body, "");
    assert PrintableBlock(b) by {
      ParsedIsPrintable(render);
      PrintableMember(blocks, Parsed(render).epilogue, k);
      FreshBodyHasNoEnd(nb.body, f.body, nb.id);
    }
    h := "";
    if f.zone != "editorial" || f.provenance != nb.provenance {
      h := OneBlockPage(b);
      OneBlockPageReadsBack(b);
    } else {
      EmptyText();
      assert FirstWithID(Parsed("").blocks, nb.id).None? by { NoBlocks(nb.id); }
    }
    ChooseBodyMeaning(nb, Parsed(h));
    ChooseBodyMeaning(f, Parsed(h));
    SecondChoice(h, render, k);
    DifferentBodyDifferentPage(h, Merged(h, render), render, k);
  }

  lemma NoBlocks(id: string)
    ensures FirstWithID([], id).None?
  {}

  /**
   Merging the same render twice is merging it once, on every existing page,
   exactly when no block of the render disagrees with the first of its ID.
   */
  lemma {:induction false} MergeIsIdempotentIff(render: string)
    ensures (forall h :: Merged(Merged(h, render), render) == Merged(h, render))
       <==> StableIDs(Parsed(render).blocks)
  {
    hide Parsed, Merged, Agrees;
    var blocks := Parsed(render).blocks;
    if StableIDs(blocks) {
      forall h ensures Merged(Merged(h, render), render) == Merged(h, render) {
        StableMergeIsFixed(h, render);
      }
    } else {
      var k :| 0 <= k < |blocks| && !Agrees(blocks, k);
      var h := UnstableMergeMoves(render, k);
    }
  }

  /* ----- the raw render is not a fixed point ----- */

  lemma {:induction false} SettleMoves(blocks: seq<Block>, epilogue: string)
    requires blocks != []
    ensures Settle(blocks, epilogue) != (blocks, epilogue)
  {
    if |blocks| > 1 {
      SettleMoves(blocks[1..], epilogue);
      var s := Settle(blocks, epilogue);
      assert s.0[1..] == Settle(blocks[1..], epilogue).0;
    } else {
      assert |"\n" + epilogue| != |epilogue|;
      assert |"\n" + blocks[0].following| != |blocks[0].following|;
    }
  }

  /**
   A page that carries the render verbatim is left alone exactly when the
   render has no block: with a block, the merge adds the newline of `writeBlock`.
   */
  lemma {:induction false} VerbatimRenderIsFixedIff(h: string, render: string)
    ensures Merged(h, render) == render <==> Parsed(render).blocks == []
  {
    hide Parsed, ChooseBody;
    var blocks := Parsed(render).blocks;
    if blocks == [] {
      ParsedPrologue(render);
      assert Merged(h, render) == render;
    } else if Merged(h, render) == render {
      MergeReadBack(h, render);
      var doc := MergedDoc(Parsed(h), Parsed(render));
      SettleMoves(doc.blocks, doc.epilogue);
      var page := Parsed(render);
      MergeKeepsAllIfFixed(h, render);
      assert false;
    }
  }

  lemma ParsedPrologue(text: string)
    ensures Parsed(text).blocks == [] ==> Parsed(text) == ParsedDoc(text, [], "")
  {}

  lemma MergeKeepsAllIfFixed(h: string, render: string)
    requires Merged(h, render) == render && Parsed(render).blocks != []
    ensures MergedDoc(Parsed(h), Parsed(render)) == Parsed(render)
  {
    hide Parsed, Merged, ChooseBody, Settle;
    MergeReadBack(h, render);
    var doc := MergedDoc(Parsed(h), Parsed(render));
    SettleKeepsBlocks(doc.blocks, doc.epilogue);
    assert doc.blocks == Parsed(render).blocks;
  }

  /* ----- editing a merged page ----- */

  /** `edited` has the marker lines of `doc`; its texts and bodies are arbitrary. */
  predicate SameMarkers(edited: ParsedDoc, doc: ParsedDoc) {
    && |edited.blocks| == |doc.blocks|
    && forall k :: 0 <= k < |doc.blocks| ==>
      && edited.blocks[k].id == doc.blocks[k].id
      && edited.blocks[k].zone == doc.blocks[k].zone
      && edited.blocks[k].provenance == doc.blocks[k].provenance
  }

  predicate Kept(b: Block) {
    b.zone == "editorial" && b.provenance != ""
  }

  function KeptBodies(edited: ParsedDoc, doc: ParsedDoc): (r: seq<string>)
    requires |edited.blocks| == |doc.blocks|
    ensures |r| == |doc.blocks|
    ensures forall k :: 0 <= k < |r| ==>
      r[k] == if Kept(doc.blocks[k]) then edited.blocks[k].body else doc.blocks[k].body
  {
    seq(|doc.blocks|, k requires 0 <= k < |doc.blocks| =>
      if Kept(doc.blocks[k]) then edited.blocks[k].body else doc.blocks[k].body)
  }

  /**
   A human edits any part of a page but its markers.  Merging the same render
   again keeps the edits to editorial bodies with a provenance and restores
   everything else: prologue, text between blocks, epilogue, machine bodies,
   and the line breaks around the markers.
   */
  lemma {:induction false} MergeRestoresAllButKeptBodies(h: string, render: string)
    requires SameMarkers(Parsed(h), Parsed(render)) && DistinctIDs(Parsed(render).blocks)
    ensures Merged(h, render) == PrintDoc(Restored(Parsed(h), Parsed(render)))
  {
    hide Parsed, PrintDoc, FirstWithID, ChooseBody;
    var doc, page := Parsed(render), Parsed(h);
    assert DistinctIDs(page.blocks);
    var merged := MergedBlocks(doc.blocks, page);
    var restored := Restored(page, doc).blocks;
    forall k | 0 <= k < |merged|
      ensures merged[k] == restored[k]
    {
      ChooseBodyMeaning(doc.blocks[k], page);
      FirstOfDistinct(page.blocks, k);
    }
    assert merged == restored;
  }

  /** The render with the kept bodies of the edited page. */
  function Restored(edited: ParsedDoc, doc: ParsedDoc): ParsedDoc
    requires |edited.blocks| == |doc.blocks|
  {
    doc.(blocks := WithBodies(doc.blocks, KeptBodies(edited, doc)))
  }

  function Bodies(blocks: seq<Block>): (r: seq<string>)
    ensures |r| == |blocks| && forall k :: 0 <= k < |r| ==> r[k] == blocks[k].body
  {
    seq(|blocks|, k requires 0 <= k < |blocks| => blocks[k].body)
  }

  /** The page `h` is the printed render but for bodies of kept blocks. */
  predicate OnlyKeptBodiesDiffer(h: string, doc: ParsedDoc)
    requires |Parsed(h).blocks| == |doc.blocks|
  {
    var bodies := Bodies(Parsed(h).blocks);
    && h == PrintDoc(doc.(blocks := WithBodies(doc.blocks, bodies)))
    && forall k :: 0 <= k < |bodies| && bodies[k] != doc.blocks[k].body ==> Kept(doc.blocks[k])
  }

  /** A page with all its markers is left as it is iff nothing but kept bodies was edited. */
  lemma {:induction false} BodyEditsStayIff(h: string, render: string)
    requires SameMarkers(Parsed(h), Parsed(render)) && DistinctIDs(Parsed(render).blocks)
    ensures Merged(h, render) == h <==> OnlyKeptBodiesDiffer(h, Parsed(render))
  {
    hide Parsed, PrintDoc, Merged;
    var doc, page := Parsed(render), Parsed(h);
    var kept, bodies := KeptBodies(page, doc), Bodies(page.blocks);
    MergeRestoresAllButKeptBodies(h, render);
    if Merged(h, render) == h {
      FixedBodies(h, render);
      assert kept == bodies;
    } else if forall k :: 0 <= k < |bodies| && bodies[k] != doc.blocks[k].body ==> Kept(doc.blocks[k]) {
      assert kept == bodies;
    }
  }

  /** A page that the merge leaves alone already has the restored bodies. */
  lemma {:induction false} FixedBodies(h: string, render: string)
    requires SameMarkers(Parsed(h), Parsed(render)) && DistinctIDs(Parsed(render).blocks) && Merged(h, render) == h
    ensures KeptBodies(Parsed(h), Parsed(render)) == Bodies(Parsed(h).blocks)
  {
    hide Parsed, Merged, FirstWithID;
    var doc, page := Parsed(render), Parsed(h);
    MergeKeepsExactlySurvivingBodies(h, render);
    forall k | 0 <= k < |page.blocks|
      ensures KeptBodies(page, doc)[k] == page.blocks[k].body
    {
      assert DistinctIDs(page.blocks);
      FirstOfDistinct(page.blocks, k);
    }
  }

  /** Any bodies that do not close their own region can be put into a render without touching its markers. */
  lemma {:induction false} BodyEditsKeepMarkers(bodies: seq<string>, render: string)
    requires |bodies| == |Parsed(render).blocks|
    requires forall k :: 0 <= k < |bodies| ==> EndFree(bodies[k], Parsed(render).blocks[k].id)
    ensures
      var doc := Parsed(render);
      var page := Parsed(PrintDoc(doc.(blocks := WithBodies(doc.blocks, bodies))));
      SameMarkers(page, doc) && Bodies(page.blocks) == bodies
  {
    hide Parsed, PrintDoc, EndFree, Printable, Settle;
    var doc := Parsed(render);
    var edited := doc.(blocks := WithBodies(doc.blocks, bodies));
    ParsedIsPrintable(render);
    PrintableWithBodies(doc, bodies);
    PrintThenParse(edited);
    if edited.blocks != [] {
      SettleKeepsBlocks(edited.blocks, edited.epilogue);
    }
  }
}
