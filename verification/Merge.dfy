/** `merge.go`: block-level merge of the existing page into a new render. */
module Merge {
  import opened Markers
  import opened WikiParse
  import opened PageText

  /* ----- the merge ----- */

  function ChooseBody(nb: Block, existing: ParsedDoc): string {
    if nb.zone != "editorial" then nb.body
    else
      match existing.BlockByID(nb.id)
      case None => nb.body
      case Some(matching) =>
        if matching.provenance == "" || matching.provenance != nb.provenance then nb.body
        else matching.body
  }

  /** The new blocks, each with the body the merge rules give it. */
  function MergedBlocks(blocks: seq<Block>, existing: ParsedDoc): (r: seq<Block>)
    ensures |r| == |blocks|
    ensures forall k :: 0 <= k < |r| ==> r[k] == blocks[k].(body := ChooseBody(blocks[k], existing))
  {
    seq(|blocks|, k requires 0 <= k < |blocks| => blocks[k].(body := ChooseBody(blocks[k], existing)))
  }

  function MergedDoc(existing: ParsedDoc, newDoc: ParsedDoc): ParsedDoc {
    newDoc.(blocks := MergedBlocks(newDoc.blocks, existing))
  }

  function Merged(existing: string, newContent: string): string {
    PrintDoc(MergedDoc(Parsed(existing), Parsed(newContent)))
  }

  method MergeBlocks(existing: string, newContent: string) returns (merged: string)
    ensures merged == Merged(existing, newContent)
  {
    hide *;
    var newDoc := Parse(newContent);
    var exDoc := Parse(existing);
    var sb := newDoc.prologue;
    MergeStart(existing, newContent);
    for k := 0 to |newDoc.blocks|
      invariant StillToPrint(exDoc, newDoc, k, sb) == Merged(existing, newContent)
    {
      var nb := newDoc.blocks[k];
      var body := ChooseBody(nb, exDoc);
      MergeStep(exDoc, newDoc, k, sb);
      sb := sb + WriteBlock(nb, body);
      sb := sb + nb.following;
    }
    MergeStop(exDoc, newDoc, sb);
    merged := sb + newDoc.epilogue;
  }

  /** The whole merged text when `sb` is what the loop has written before block `k`. */
  ghost function StillToPrint(exDoc: ParsedDoc, newDoc: ParsedDoc, k: nat, sb: string): string
    requires k <= |newDoc.blocks|
  {
    sb + PrintBlocks(MergedBlocks(newDoc.blocks, exDoc)[k..], newDoc.epilogue)
  }

  lemma MergeStart(existing: string, newContent: string)
    ensures var newDoc := Parsed(newContent);
      StillToPrint(Parsed(existing), newDoc, 0, newDoc.prologue) == Merged(existing, newContent)
  {
    hide Parsed, PrintBlocks;
    var m := MergedBlocks(Parsed(newContent).blocks, Parsed(existing));
    assert m[0..] == m;
  }

  lemma MergeStep(exDoc: ParsedDoc, newDoc: ParsedDoc, k: nat, sb: string)
    requires k < |newDoc.blocks|
    ensures var nb := newDoc.blocks[k];
      StillToPrint(exDoc, newDoc, k, sb) ==
      StillToPrint(exDoc, newDoc, k + 1, sb + WriteBlock(nb, ChooseBody(nb, exDoc)) + nb.following)
  {
    hide WriteBlock, ChooseBody;
    var nb := newDoc.blocks[k];
    var m := MergedBlocks(newDoc.blocks, exDoc);
    var w := WriteBlock(nb, ChooseBody(nb, exDoc));
    WriteBlockBody(nb, ChooseBody(nb, exDoc));
    var rest := PrintBlocks(m[k + 1..], newDoc.epilogue);
    assert m[k..][1..] == m[k + 1..];
    assert sb + (w + nb.following + rest) == sb + w + nb.following + rest;
  }

  lemma MergeStop(exDoc: ParsedDoc, newDoc: ParsedDoc, sb: string)
    ensures StillToPrint(exDoc, newDoc, |newDoc.blocks|, sb) == sb + newDoc.epilogue
  {
    var m := MergedBlocks(newDoc.blocks, exDoc);
    assert m[|m|..] == [];
  }

  /** The marker lines of a block do not depend on its body. */
  lemma WriteBlockBody(nb: Block, body: string)
    ensures WriteBlock(nb, body) == WriteBlock(nb.(body := body), body)
  {}

  /* ----- reading a merged page back ----- */

  lemma {:induction false} PrintableBodies(blocks: seq<Block>, bodies: seq<string>, epilogue: string)
    requires blocks != [] && |bodies| == |blocks| && PrintableBlocks(blocks, epilogue)
    requires forall k :: 0 <= k < |blocks| ==> EndFree(bodies[k], blocks[k].id)
    ensures PrintableBlocks(WithBodies(blocks, bodies), epilogue)
  {
    hide EndFree, BeginFree, IsTail;
    var w := WithBodies(blocks, bodies);
    assert PrintableBlock(w[0]);
    if |blocks| > 1 {
      PrintableBodies(blocks[1..], bodies[1..], epilogue);
      assert w[1..] == WithBodies(blocks[1..], bodies[1..]);
    }
  }

  /** `blocks` with their bodies replaced, one by one. */
  function WithBodies(blocks: seq<Block>, bodies: seq<string>): (r: seq<Block>)
    requires |bodies| == |blocks|
    ensures |r| == |blocks|
    ensures forall k :: 0 <= k < |r| ==> r[k] == blocks[k].(body := bodies[k])
  {
    seq(|blocks|, k requires 0 <= k < |blocks| => blocks[k].(body := bodies[k]))
  }

  lemma {:induction false} PrintableMember(blocks: seq<Block>, epilogue: string, k: nat)
    requires blocks != [] && PrintableBlocks(blocks, epilogue) && k < |blocks|
    ensures PrintableBlock(blocks[k])
  {
    if k > 0 {
      PrintableMember(blocks[1..], epilogue, k - 1);
    }
  }

  /** Replacing bodies by bodies that do not contain their block's END marker. */
  lemma PrintableWithBodies(doc: ParsedDoc, bodies: seq<string>)
    requires Printable(doc) && |bodies| == |doc.blocks|
    requires forall k :: 0 <= k < |bodies| ==> EndFree(bodies[k], doc.blocks[k].id)
    ensures Printable(doc.(blocks := WithBodies(doc.blocks, bodies)))
  {
    hide EndFree, BeginFree, PrintableBlocks;
    if doc.blocks != [] {
      PrintableBodies(doc.blocks, bodies, doc.epilogue);
    } else {
      assert WithBodies(doc.blocks, bodies) == [];
    }
  }

  function ChosenBodies(blocks: seq<Block>, existing: ParsedDoc): (r: seq<string>)
    ensures |r| == |blocks|
    ensures forall k :: 0 <= k < |r| ==> r[k] == ChooseBody(blocks[k], existing)
  {
    seq(|blocks|, k requires 0 <= k < |blocks| => ChooseBody(blocks[k], existing))
  }

  lemma MergedDocIsPrintable(existing: ParsedDoc, newDoc: ParsedDoc)
    requires Printable(existing) && Printable(newDoc)
    ensures Printable(MergedDoc(existing, newDoc))
  {
    hide BeginFree, PrintableBlocks, EndFree, FirstWithID;
    var bodies := ChosenBodies(newDoc.blocks, existing);
    forall k | 0 <= k < |bodies|
      ensures EndFree(bodies[k], newDoc.blocks[k].id)
    {
      var nb := newDoc.blocks[k];
      PrintableMember(newDoc.blocks, newDoc.epilogue, k);
      var m := existing.BlockByID(nb.id);
      if m.Some? {
        var j :| 0 <= j < |existing.blocks| && existing.blocks[j] == m.value;
        PrintableMember(existing.blocks, existing.epilogue, j);
      }
    }
    PrintableWithBodies(newDoc, bodies);
    assert WithBodies(newDoc.blocks, bodies) == MergedBlocks(newDoc.blocks, existing);
  }

  lemma {:induction false} MergeReadBack(existing: string, newContent: string)
    ensures Parsed(Merged(existing, newContent)) == Settled(MergedDoc(Parsed(existing), Parsed(newContent)))
  {
    hide Parsed, PrintDoc, Settled, Printable;
    ParsedIsPrintable(existing);
    ParsedIsPrintable(newContent);
    MergedDocIsPrintable(Parsed(existing), Parsed(newContent));
    PrintThenParse(MergedDoc(Parsed(existing), Parsed(newContent)));
  }
}
