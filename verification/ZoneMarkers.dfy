/** `zonemarkers.go`: the pass that wraps every block in BEGIN/END markers. */
module ZoneMarkers {
  import opened Wrappers
  import opened IR
  import opened Text

  /* ----- the pass ----- */

  function ZoneLabel(b: Block): string {
    if b.OwnZone() == ZoneEditorial then "editorial" else "machine"
  }

  /** `s{section}-b{block}` */
  function GeneratedID(sectionIdx: nat, blockIdx: nat): string {
    "s" + Decimal(sectionIdx) + "-b" + Decimal(blockIdx)
  }

  function BlockIDFor(b: Block, sectionIdx: nat, blockIdx: nat): string {
    if b.MachineBlock? && b.blockID != "" then b.blockID else GeneratedID(sectionIdx, blockIdx)
  }

  predicate AlreadyWrapped(blocks: seq<Block>, i: nat)
    requires i < |blocks|
  {
    if i == 0 || i == |blocks| - 1 then false
    else
      var prev, next := blocks[i - 1], blocks[i + 1];
      && prev.MarkerBlock? && next.MarkerBlock?
      && prev.position == MarkerBegin && next.position == MarkerEnd
      && prev.blockID == next.blockID
  }

  function Marker(position: MarkerPosition, b: Block, id: string): Block {
    MarkerBlock(position, id, b.prov, ZoneLabel(b))
  }

  /** What the pass emits for the blocks of `input` from index `i` on. */
  function WrapFrom(input: seq<Block>, i: nat, sectionIdx: nat, blockIdx: nat): seq<Block>
    requires i <= |input|
    decreases |input| - i
  {
    if i == |input| then []
    else
      var b := input[i];
      if b.MarkerBlock? then [b] + WrapFrom(input, i + 1, sectionIdx, blockIdx)
      else if AlreadyWrapped(input, i) then [b] + WrapFrom(input, i + 1, sectionIdx, blockIdx + 1)
      else
        var id := BlockIDFor(b, sectionIdx, blockIdx);
        [Marker(MarkerBegin, b, id), b, Marker(MarkerEnd, b, id)] + WrapFrom(input, i + 1, sectionIdx, blockIdx + 1)
  }

  function Wrapped(input: seq<Block>, sectionIdx: nat): seq<Block> {
    WrapFrom(input, 0, sectionIdx, 0)
  }

  /** `out` is what the pass emits before it reaches index `i`. */
  predicate Emitted(input: seq<Block>, sectionIdx: nat, i: nat, blockIdx: nat, out: seq<Block>)
    requires i <= |input|
  {
    Wrapped(input, sectionIdx) == out + WrapFrom(input, i, sectionIdx, blockIdx)
  }

  lemma EmitStep(input: seq<Block>, s: nat, i: nat, k: nat, out: seq<Block>)
    requires i < |input| && Emitted(input, s, i, k, out)
    ensures var b, id := input[i], BlockIDFor(input[i], s, k);
      if b.MarkerBlock? then Emitted(input, s, i + 1, k, out + [b])
      else if AlreadyWrapped(input, i) then Emitted(input, s, i + 1, k + 1, out + [b])
      else Emitted(input, s, i + 1, k + 1, out + [Marker(MarkerBegin, b, id), b, Marker(MarkerEnd, b, id)])
  {
    hide AlreadyWrapped, BlockIDFor, ZoneLabel, Wrapped, WrapFrom;
    var b, id := input[i], BlockIDFor(input[i], s, k);
    if b.MarkerBlock? || AlreadyWrapped(input, i) {
      PassesThrough(input, i, s, k);
      Associates(out, [b], WrapFrom(input, i + 1, s, if b.MarkerBlock? then k else k + 1));
    } else {
      WrapsNew(input, i, s, k);
      Associates(out, Trio(b, id), WrapFrom(input, i + 1, s, k + 1));
    }
  }

  lemma EmitEnds(input: seq<Block>, s: nat)
    ensures Emitted(input, s, 0, 0, [])
    ensures forall k: nat, out :: Emitted(input, s, |input|, k, out) ==> out == Wrapped(input, s)
  {
    assert [] + Wrapped(input, s) == Wrapped(input, s);
    forall k: nat, out | Emitted(input, s, |input|, k, out) ensures out == Wrapped(input, s) {
      assert out + [] == out;
    }
  }

  method WrapBlocks(input: seq<Block>, sectionIdx: nat) returns (out: seq<Block>)
    ensures out == Wrapped(input, sectionIdx)
  {
    hide AlreadyWrapped, BlockIDFor, ZoneLabel, Wrapped, WrapFrom, Emitted;
    out := [];
    var blockIdx := 0;
    EmitEnds(input, sectionIdx);
    for i := 0 to |input|
      invariant Emitted(input, sectionIdx, i, blockIdx, out)
    {
      var b := input[i];
      EmitStep(input, sectionIdx, i, blockIdx, out);
      if b.MarkerBlock? {
        out := out + [b];
        continue;
      }
      if AlreadyWrapped(input, i) {
        out := out + [b];
        blockIdx := blockIdx + 1;
        continue;
      }
      var id := BlockIDFor(b, sectionIdx, blockIdx);
      blockIdx := blockIdx + 1;
      var zone := ZoneLabel(b);
      out := out + [MarkerBlock(MarkerBegin, id, b.prov, zone), b, MarkerBlock(MarkerEnd, id, b.prov, zone)];
    }
  }

  /** The pass on one section, given its position in the document. */
  function WrappedSection(sec: Section, i: nat): Section {
    sec.(blocks := Wrapped(sec.blocks, i))
  }

  /** Overwrites the sections in place and returns the same document. */
  method Apply(doc: Document) returns (r: Document)
    modifies doc.sections
    ensures r == doc
    ensures forall i :: 0 <= i < doc.sections.Length ==> doc.sections[i] == WrappedSection(old(doc.sections[i]), i)
  {
    hide Wrapped;
    for i := 0 to doc.sections.Length
      invariant forall k :: 0 <= k < i ==> doc.sections[k] == WrappedSection(old(doc.sections[k]), k)
      invariant forall k :: i <= k < doc.sections.Length ==> doc.sections[k] == old(doc.sections[k])
    {
      var sec := doc.sections[i];
      var blocks := WrapBlocks(sec.blocks, i);
      doc.sections[i] := sec.(blocks := blocks);
    }
    return doc;
  }

  /* ----- idempotence ----- */

  /** One step of the pass on a list it leaves alone at `i`. */
  lemma PassesThrough(blocks: seq<Block>, i: nat, s: nat, k: nat)
    requires i < |blocks| && (blocks[i].MarkerBlock? || AlreadyWrapped(blocks, i))
    ensures WrapFrom(blocks, i, s, k) ==
      [blocks[i]] + WrapFrom(blocks, i + 1, s, if blocks[i].MarkerBlock? then k else k + 1)
  {
    hide AlreadyWrapped;
  }

  function Trio(b: Block, id: string): seq<Block> {
    [Marker(MarkerBegin, b, id), b, Marker(MarkerEnd, b, id)]
  }

  lemma WrapsNew(blocks: seq<Block>, i: nat, s: nat, k: nat)
    requires i < |blocks| && !blocks[i].MarkerBlock? && !AlreadyWrapped(blocks, i)
    ensures WrapFrom(blocks, i, s, k) ==
      Trio(blocks[i], BlockIDFor(blocks[i], s, k)) + WrapFrom(blocks, i + 1, s, k + 1)
  {
    hide AlreadyWrapped, BlockIDFor;
  }

  /** The three blocks put around a new block are all left alone. */
  lemma TrioPassesThrough(pre: seq<Block>, b: Block, id: string, rest: seq<Block>, s: nat, k: nat)
    requires !b.MarkerBlock?
    ensures var all := pre + Trio(b, id) + rest;
      WrapFrom(all, |pre|, s, k) == Trio(b, id) + WrapFrom(all, |pre| + 3, s, k + 1)
  {
    hide WrapFrom, ZoneLabel;
    var all := pre + Trio(b, id) + rest;
    var n := |pre|;
    assert all[n] == Trio(b, id)[0] && all[n + 1] == b && all[n + 2] == Trio(b, id)[2];
    PassesThrough(all, n, s, k);
    assert AlreadyWrapped(all, n + 1);
    PassesThrough(all, n + 1, s, k);
    PassesThrough(all, n + 2, s, k + 1);
    var w := WrapFrom(all, n + 3, s, k + 1);
    assert [all[n]] + ([all[n + 1]] + ([all[n + 2]] + w)) == Trio(b, id) + w;
  }

  /** A block that was wrapped already still is, when its neighbours are kept. */
  lemma StillWrapped(input: seq<Block>, i: nat, s: nat, k: nat, pre: seq<Block>)
    requires i < |input| && AlreadyWrapped(input, i)
    requires pre != [] && pre[|pre| - 1] == input[i - 1]
    ensures AlreadyWrapped(pre + ([input[i]] + WrapFrom(input, i + 1, s, k)), |pre|)
  {
    hide WrapFrom;
    PassesThrough(input, i + 1, s, k);
    var rest := WrapFrom(input, i + 1, s, k);
    var all := pre + ([input[i]] + rest);
    assert all[|pre| - 1] == input[i - 1] && all[|pre|] == input[i] && all[|pre| + 1] == rest[0] == input[i + 1];
  }

  /**
   Wrapping again, with `pre` in front of blocks that have been wrapped: `pre`
   only has to end in the marker, if any, that stood before these blocks.
   */
  lemma {:induction false} RewrapFrom(input: seq<Block>, i: nat, s: nat, k: nat, pre: seq<Block>, k': nat)
    requires i <= |input|
    requires i > 0 && input[i - 1].MarkerBlock? ==> pre != [] && pre[|pre| - 1] == input[i - 1]
    ensures WrapFrom(pre + WrapFrom(input, i, s, k), |pre|, s, k') == WrapFrom(input, i, s, k)
    decreases |input| - i
  {
    hide BlockIDFor, WrapFrom, Trio;
    if i == |input| {
      WrapEnd(input, s, k);
      WrapEnd(pre, s, k');
      assert pre + [] == pre;
    } else {
      var b := input[i];
      if b.MarkerBlock? || AlreadyWrapped(input, i) {
        var step := if b.MarkerBlock? then 0 else 1;
        PassesThrough(input, i, s, k);
        var rest := WrapFrom(input, i + 1, s, k + step);
        var all := pre + ([b] + rest);
        assert all == (pre + [b]) + rest && all[|pre|] == b;
        if !b.MarkerBlock? {
          StillWrapped(input, i, s, k + step, pre);
        }
        PassesThrough(all, |pre|, s, k');
        RewrapFrom(input, i + 1, s, k + step, pre + [b], k' + step);
      } else {
        var id := BlockIDFor(b, s, k);
        WrapsNew(input, i, s, k);
        var rest := WrapFrom(input, i + 1, s, k + 1);
        assert pre + (Trio(b, id) + rest) == pre + Trio(b, id) + rest;
        TrioPassesThrough(pre, b, id, rest, s, k');
        TrioLength(b, id);
        RewrapFrom(input, i + 1, s, k + 1, pre + Trio(b, id), k' + 1);
      }
    }
  }

  lemma TrioLength(b: Block, id: string)
    ensures |Trio(b, id)| == 3
  {}

  lemma WrapEnd(blocks: seq<Block>, s: nat, k: nat)
    ensures WrapFrom(blocks, |blocks|, s, k) == []
  {}

  /** The pass changes nothing that it has been over before, stray markers or not. */
  lemma {:induction false} WrapIsIdempotent(input: seq<Block>, s: nat)
    ensures Wrapped(Wrapped(input, s), s) == Wrapped(input, s)
  {
    RewrapFrom(input, 0, s, 0, [], 0);
    assert [] + WrapFrom(input, 0, s, 0) == WrapFrom(input, 0, s, 0);
  }

  /* ----- what wrapping keeps ----- */

  function WithoutMarkers(blocks: seq<Block>): seq<Block> {
    if blocks == [] then []
    else (if blocks[0].MarkerBlock? then [] else [blocks[0]]) + WithoutMarkers(blocks[1..])
  }

  lemma {:induction false} ErasingFrom(input: seq<Block>, i: nat, s: nat, k: nat)
    requires i <= |input|
    ensures WithoutMarkers(WrapFrom(input, i, s, k)) == WithoutMarkers(input[i..])
    decreases |input| - i
  {
    hide BlockIDFor, ZoneLabel, AlreadyWrapped;
    if i < |input| {
      var b := input[i];
      var out := WrapFrom(input, i, s, k);
      assert input[i..][1..] == input[i + 1..];
      if b.MarkerBlock? || AlreadyWrapped(input, i) {
        var k' := if b.MarkerBlock? then k else k + 1;
        ErasingFrom(input, i + 1, s, k');
        assert out[1..] == WrapFrom(input, i + 1, s, k');
      } else {
        ErasingFrom(input, i + 1, s, k + 1);
        var rest := WrapFrom(input, i + 1, s, k + 1);
        assert out[1..] == [b, out[2]] + rest && out[1..][1..] == [out[2]] + rest && out[1..][1..][1..] == rest;
        assert WithoutMarkers(out[1..][1..]) == WithoutMarkers(rest);
        assert WithoutMarkers(out[1..]) == [b] + WithoutMarkers(rest);
      }
    }
  }

  lemma {:induction false} WrapKeepsBlocks(input: seq<Block>, s: nat)
    ensures WithoutMarkers(Wrapped(input, s)) == WithoutMarkers(input)
  {
    ErasingFrom(input, 0, s, 0);
    assert input[0..] == input;
  }

  /* ----- generated IDs ----- */

  /** A text is cut in one way only at its first dash. */
  lemma FirstDash(x: string, y: string, x': string, y': string)
    requires '-' !in x && '-' !in x' && x + ("-" + y) == x' + ("-" + y')
    ensures x == x' && y == y'
  {
    var id := x + ("-" + y);
    assert id[|x|] == '-' && id[|x'|] == '-';
    assert forall i :: 0 <= i < |x| ==> id[i] == x[i];
    assert forall i :: 0 <= i < |x'| ==> id[i] == x'[i];
    assert |x| == |x'|;
    assert x == id[..|x|] == x' && y == id[|x| + 1..] == y';
  }

  lemma {:induction false} GeneratedIDsAreDistinct(s: nat, b: nat, s': nat, b': nat)
    requires GeneratedID(s, b) == GeneratedID(s', b')
    ensures s == s' && b == b'
  {
    hide Decimal;
    GeneratedShape(s, b);
    GeneratedShape(s', b');
    var x, x' := "s" + Decimal(s), "s" + Decimal(s');
    FirstDash(x, "b" + Decimal(b), x', "b" + Decimal(b'));
    assert Decimal(s) == x[1..] == x'[1..] == Decimal(s');
    assert Decimal(b) == ("b" + Decimal(b))[1..] == ("b" + Decimal(b'))[1..] == Decimal(b');
    DecimalInjective(s, s');
    DecimalInjective(b, b');
  }

  lemma GeneratedShape(s: nat, b: nat)
    ensures GeneratedID(s, b) == ("s" + Decimal(s)) + ("-" + ("b" + Decimal(b)))
  {
    hide Decimal;
    assert "-b" + Decimal(b) == "-" + ("b" + Decimal(b));
    assert GeneratedID(s, b) == ("s" + Decimal(s)) + ("-b" + Decimal(b));
  }

  /* ----- what the markers say ----- */

  /** Prose, and callouts that no machine wrote. */
  predicate IsEditorial(b: Block) {
    match b
    case ProseBlock(_, _) => true
    case Callout(_, _, isMachine, _) => !isMachine
    case _ => false
  }

  predicate NoMarkers(blocks: seq<Block>) {
    forall k :: 0 <= k < |blocks| ==> !blocks[k].MarkerBlock?
  }

  /** The explicit ID of a machine block, or the numbers of its section and of its place in it. */
  function PlainID(b: Block, s: nat, k: nat): string {
    if b.MachineBlock? && b.blockID != "" then b.blockID else "s" + Decimal(s) + "-b" + Decimal(k)
  }

  function PlainMarker(position: MarkerPosition, b: Block, s: nat, k: nat): Block {
    MarkerBlock(position, PlainID(b, s, k), b.prov, if IsEditorial(b) then "editorial" else "machine")
  }

  lemma MarkersArePlain(b: Block, s: nat, k: nat)
    ensures Marker(MarkerBegin, b, BlockIDFor(b, s, k)) == PlainMarker(MarkerBegin, b, s, k)
    ensures Marker(MarkerEnd, b, BlockIDFor(b, s, k)) == PlainMarker(MarkerEnd, b, s, k)
    ensures ZoneLabel(b) == if IsEditorial(b) then "editorial" else "machine"
    ensures BlockIDFor(b, s, k) == PlainID(b, s, k)
  {}

  /** From index `j` on, `out` holds block `b` between its two markers. */
  predicate TrioAt(out: seq<Block>, j: nat, b: Block, s: nat, k: nat) {
    && j + 2 < |out| && out[j + 1] == b
    && out[j] == PlainMarker(MarkerBegin, b, s, k) && out[j + 2] == PlainMarker(MarkerEnd, b, s, k)
  }

  lemma {:induction false} WrapPlainFrom(input: seq<Block>, i: nat, s: nat)
    requires i <= |input| && NoMarkers(input)
    ensures var out := WrapFrom(input, i, s, i);
      && |out| == 3 * (|input| - i)
      && forall k :: i <= k < |input| ==> TrioAt(out, 3 * (k - i), input[k], s, k)
    decreases |input| - i
  {
    hide WrapFrom, BlockIDFor, PlainMarker, TrioAt;
    if i == |input| {
      WrapEnd(input, s, i);
    } else {
      NeverWrapped(input, i);
      WrapsNew(input, i, s, i);
      WrapPlainFrom(input, i + 1, s);
      var trio, rest := Trio(input[i], BlockIDFor(input[i], s, i)), WrapFrom(input, i + 1, s, i + 1);
      FirstTrio(input[i], s, i, rest);
      forall k | i < k < |input| ensures TrioAt(trio + rest, 3 * (k - i), input[k], s, k) {
        TrioBehind(trio, rest, 3 * (k - i - 1), input[k], s, k);
      }
    }
  }

  lemma FirstTrio(b: Block, s: nat, k: nat, rest: seq<Block>)
    ensures TrioAt(Trio(b, BlockIDFor(b, s, k)) + rest, 0, b, s, k)
  {
    MarkersArePlain(b, s, k);
  }

  lemma TrioBehind(trio: seq<Block>, rest: seq<Block>, j: nat, b: Block, s: nat, k: nat)
    requires |trio| == 3 && TrioAt(rest, j, b, s, k)
    ensures TrioAt(trio + rest, j + 3, b, s, k)
  {}

  lemma NeverWrapped(blocks: seq<Block>, i: nat)
    requires i < |blocks| && NoMarkers(blocks)
    ensures !AlreadyWrapped(blocks, i)
  {}

  /**
   Around every block of a list without markers the pass puts a BEGIN and an END marker
   with the block's provenance, its explicit ID or the numbers of its place, and the zone
   "editorial" for prose and for callouts that no machine wrote, "machine" for all else.
   */
  lemma {:induction false} MarkersByKind(input: seq<Block>, s: nat)
    requires NoMarkers(input)
    ensures |Wrapped(input, s)| == 3 * |input|
    ensures forall k :: 0 <= k < |input| ==> TrioAt(Wrapped(input, s), 3 * k, input[k], s, k)
  {
    hide WrapFrom, TrioAt;
    WrapPlainFrom(input, 0, s);
    forall k | 0 <= k < |input| ensures TrioAt(Wrapped(input, s), 3 * k, input[k], s, k) {
      assert 3 * k == 3 * (k - 0);
    }
  }

  /** Whatever markers there were: behind the pass every block stands between markers of one ID. */
  predicate InMarkers(blocks: seq<Block>, i: nat) {
    && 0 < i < |blocks| - 1
    && blocks[i - 1].MarkerBlock? && blocks[i - 1].position == MarkerBegin
    && blocks[i + 1].MarkerBlock? && blocks[i + 1].position == MarkerEnd
    && blocks[i - 1].blockID == blocks[i + 1].blockID
  }

  lemma {:induction false} EveryBlockIsInMarkers(input: seq<Block>, s: nat, i: nat)
    requires i < |Wrapped(input, s)| && !Wrapped(input, s)[i].MarkerBlock?
    ensures InMarkers(Wrapped(input, s), i)
  {
    hide Wrapped;
    var out := Wrapped(input, s);
    WrapIsIdempotent(input, s);
    WrappedAgain(out, s, i);
  }

  /** A list that the pass leaves as it is has every block between markers. */
  lemma WrappedAgain(out: seq<Block>, s: nat, i: nat)
    requires Wrapped(out, s) == out && i < |out| && !out[i].MarkerBlock?
    ensures InMarkers(out, i)
  {
    WrapGrows(out, 0, s, 0, i);
  }

  /** The pass adds two blocks for each block that is not yet between markers. */
  lemma {:induction false} WrapGrows(blocks: seq<Block>, i: nat, s: nat, k: nat, j: nat)
    requires i <= j < |blocks| && !blocks[j].MarkerBlock?
    ensures |WrapFrom(blocks, i, s, k)| >= |blocks| - i
    ensures |WrapFrom(blocks, i, s, k)| == |blocks| - i ==> InMarkers(blocks, j)
    decreases j - i
  {
    hide WrapFrom, BlockIDFor, InMarkers;
    var b := blocks[i];
    if b.MarkerBlock? || AlreadyWrapped(blocks, i) {
      PassesThrough(blocks, i, s, k);
      if i < j {
        WrapGrows(blocks, i + 1, s, if b.MarkerBlock? then k else k + 1, j);
      } else {
        WrapNeverShrinks(blocks, i + 1, s, k + 1);
        WrappedIsInMarkers(blocks, i);
      }
    } else {
      WrapsNew(blocks, i, s, k);
      WrapNeverShrinks(blocks, i + 1, s, k + 1);
    }
  }

  lemma WrappedIsInMarkers(blocks: seq<Block>, i: nat)
    requires i < |blocks| && AlreadyWrapped(blocks, i)
    ensures InMarkers(blocks, i)
  {}

  lemma {:induction false} WrapNeverShrinks(blocks: seq<Block>, i: nat, s: nat, k: nat)
    requires i <= |blocks|
    ensures |WrapFrom(blocks, i, s, k)| >= |blocks| - i
    decreases |blocks| - i
  {
    hide BlockIDFor, AlreadyWrapped;
    if i < |blocks| {
      WrapNeverShrinks(blocks, i + 1, s, k);
      WrapNeverShrinks(blocks, i + 1, s, k + 1);
    }
  }
}
