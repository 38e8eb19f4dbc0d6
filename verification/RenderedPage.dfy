/**
 From document to wiki and back: the zone-marker pass, the markdown backend and
 the wiki parser together recover every block of a page.
 */
module RenderedPage {
  import opened Wrappers
  import opened IR
  import opened Markdown
  import opened ZoneMarkers
  import opened Markers
  import opened MarkerFacts
  import opened MarkerCuts
  import opened UnhashedBlocks
  import WikiParse
  import opened PageText
  import opened MergeLaws
  import Merge

  /* ----- which pages ----- */

  /** What the wiki parser should make of block `k` of section `s`. */
  function Expected(b: Block, s: nat, k: nat): WikiParse.Block {
    WikiParse.Block(BlockIDFor(b, s, k), ZoneLabel(b), b.prov.inputHash, "\n" + BlockText(b), "")
  }

  predicate Hashed(b: Block) {
    b.prov.inputHash != ""
  }

  /**
   ID and hash fit into a marker.  With a hash, the text does not close its own
   region; without one, neither ID nor text complete or hold a BEGIN marker.
   */
  ghost predicate Markable(b: Block, s: nat, k: nat) {
    var id := BlockIDFor(b, s, k);
    && !b.MarkerBlock? && IsToken(id)
    && if Hashed(b) then IsToken(b.prov.inputHash) && EndFree("\n" + BlockText(b), id)
       else LastArrow(id).None? && BeginFree(BlockText(b))
  }

  ghost predicate MarkableBlocks(blocks: seq<Block>, s: nat, k: nat) {
    blocks != [] ==> Markable(blocks[0], s, k) && MarkableBlocks(blocks[1..], s, k + 1)
  }

  ghost predicate MarkableSections(sections: seq<Section>, s: nat) {
    sections != [] ==>
      && BeginFree(HeadingText(sections[0].heading))
      && MarkableBlocks(sections[0].blocks, s, 0)
      && MarkableSections(sections[1..], s + 1)
  }

  /** The sections as the pass leaves them. */
  function WrapAll(sections: seq<Section>, s: nat): seq<Section> {
    if sections == [] then [] else [WrappedSection(sections[0], s)] + WrapAll(sections[1..], s + 1)
  }

  /** The page text: what stands before the sections, the sections, the footer. */
  function PageWith(head: string, sections: seq<Section>, foot: string): string {
    head + SectionsText(WrapAll(sections, 0)) + foot
  }

  /** The blocks with a hash. */
  function ExpectedBlocks(blocks: seq<Block>, s: nat, k: nat): seq<WikiParse.Block> {
    if blocks == [] then []
    else (if Hashed(blocks[0]) then [Expected(blocks[0], s, k)] else []) + ExpectedBlocks(blocks[1..], s, k + 1)
  }

  function ExpectedSections(sections: seq<Section>, s: nat): seq<WikiParse.Block> {
    if sections == [] then []
    else ExpectedBlocks(sections[0].blocks, s, 0) + ExpectedSections(sections[1..], s + 1)
  }

  /* ----- the page as a document for `writeBlock` ----- */

  /** The text before the first block, the blocks, and what follows when there is no more. */
  datatype Layout = Layout(gap: string, blocks: seq<WikiParse.Block>, epilogue: string) {
    function Text(): string {
      gap + PrintBlocks(blocks, epilogue)
    }

    /** The text up to the next BEGIN marker, or to the end of the page. */
    function Lead(): string {
      if blocks == [] then gap + epilogue else gap
    }
  }

  function After(b: WikiParse.Block, l: Layout): Layout {
    if l.blocks == [] then Layout("", [b], "\n" + l.Lead())
    else Layout("", [b.(following := "\n" + l.Lead())] + l.blocks, l.epilogue)
  }

  function Before(text: string, l: Layout): Layout {
    l.(gap := text + l.gap)
  }

  function LayBlocks(blocks: seq<Block>, s: nat, k: nat, l: Layout): Layout {
    if blocks == [] then l
    else
      var next := LayBlocks(blocks[1..], s, k + 1, l);
      if Hashed(blocks[0]) then After(Expected(blocks[0], s, k), next)
      else Before(LostText(blocks[0], BlockIDFor(blocks[0], s, k)), next)
  }

  function LaySections(sections: seq<Section>, s: nat, foot: string): Layout {
    if sections == [] then Layout("", [], foot)
    else Before(HeadingText(sections[0].heading),
      LayBlocks(sections[0].blocks, s, 0, LaySections(sections[1..], s + 1, foot)))
  }

  /* ----- the printed text is the text of the layout ----- */

  lemma TextBefore(text: string, l: Layout)
    ensures Before(text, l).Text() == text + l.Text()
  {
    assert text + l.gap + PrintBlocks(l.blocks, l.epilogue) == text + (l.gap + PrintBlocks(l.blocks, l.epilogue));
  }

  lemma TextAfter(b: WikiParse.Block, l: Layout)
    requires b.following == ""
    ensures After(b, l).Text() == PageText.WriteBlock(b, b.body) + ("\n" + l.Text())
  {
    hide PageText.WriteBlock;
    var w, t := PageText.WriteBlock(b, b.body), l.Text();
    var a := After(b, l);
    WriteBlockIgnoresFollowing(b, "\n" + l.Lead());
    assert a.Text() == PrintBlocks(a.blocks, a.epilogue);
    if l.blocks == [] {
      assert a.blocks[1..] == [];
      assert PrintBlocks(a.blocks, a.epilogue) == w + "" + PrintBlocks([], a.epilogue);
      assert l.Text() == l.Lead();
      assert w + "" + ("\n" + l.Lead()) == w + ("\n" + l.Lead());
    } else {
      assert a.blocks[1..] == l.blocks;
      var p := PrintBlocks(l.blocks, l.epilogue);
      assert w + ("\n" + l.gap) + p == w + ("\n" + (l.gap + p));
    }
  }

  lemma WriteBlockIgnoresFollowing(b: WikiParse.Block, following: string)
    ensures PageText.WriteBlock(b.(following := following), b.body) == PageText.WriteBlock(b, b.body)
  {}

  lemma TrioText(b: Block, s: nat, k: nat, rest: string)
    requires b.prov.inputHash != ""
    ensures BlocksText(Trio(b, BlockIDFor(b, s, k))) + rest ==
      PageText.WriteBlock(Expected(b, s, k), "\n" + BlockText(b)) + ("\n" + rest)
  {
    hide BlockIDFor;
    var id, e := BlockIDFor(b, s, k), Expected(b, s, k);
    var t := BlockText(b);
    TrioPieces(b, id);
    BeginText(b, s, k);
    EndText(b, id);
    WriteBegin(e, "");
    var begin, end := PrintBegin(id, e.zone, e.provenance), PrintEnd(id);
    TrioGlue(begin, t, end, rest);
  }

  lemma TrioGlue(begin: string, t: string, end: string, rest: string)
    ensures begin + "\n" + "\n" + (t + "\n" + (end + "\n" + "\n")) + rest ==
      begin + "\n" + ("\n" + t) + ("\n" + end + "\n") + ("\n" + rest)
  {
    assert begin + "\n" + "\n" + (t + "\n" + (end + "\n" + "\n")) + rest
        == begin + "\n" + "\n" + t + "\n" + end + "\n" + "\n" + rest;
    assert begin + "\n" + ("\n" + t) + ("\n" + end + "\n") + ("\n" + rest)
        == begin + "\n" + "\n" + t + "\n" + end + "\n" + "\n" + rest;
  }

  lemma {:induction false} BlocksTextAppend(a: seq<Block>, b: seq<Block>)
    ensures BlocksText(a + b) == BlocksText(a) + BlocksText(b)
  {
    hide BlockText;
    if a == [] {
      assert a + b == b;
    } else {
      assert (a + b)[1..] == a[1..] + b;
      BlocksTextAppend(a[1..], b);
    }
  }

  lemma {:induction false} BlocksAreLaid(all: seq<Block>, i: nat, s: nat, l: Layout)
    requires i <= |all| && NoMarkers(all)
    ensures BlocksText(WrapFrom(all, i, s, i)) + l.Text() == LayBlocks(all[i..], s, i, l).Text()
    decreases |all| - i
  {
    hide BlockIDFor, WrapFrom, Trio, Expected, BlockText, PageText.WriteBlock, Layout.Text;
    if i == |all| {
      WrapEnd(all, s, i);
      assert all[i..] == [];
      assert BlocksText([]) + l.Text() == l.Text();
    } else {
      var b := all[i];
      var id, rest := BlockIDFor(b, s, i), WrapFrom(all, i + 1, s, i + 1);
      NotWrappedWithoutMarkers(all, i);
      WrapsNew(all, i, s, i);
      BlocksTextAppend(Trio(b, id), rest);
      assert all[i..][1..] == all[i + 1..] && all[i..][0] == b;
      BlocksAreLaid(all, i + 1, s, l);
      var next := LayBlocks(all[i + 1..], s, i + 1, l);
      assert BlocksText(Trio(b, id)) + BlocksText(rest) + l.Text() ==
        BlocksText(Trio(b, id)) + (BlocksText(rest) + l.Text());
      if Hashed(b) {
        TrioText(b, s, i, next.Text());
        ExpectedShape(b, s, i);
        TextAfter(Expected(b, s, i), next);
      } else {
        TextBefore(LostText(b, id), next);
      }
    }
  }

  lemma ExpectedShape(b: Block, s: nat, k: nat)
    ensures Expected(b, s, k).following == "" && Expected(b, s, k).body == "\n" + BlockText(b)
    ensures Expected(b, s, k).id == BlockIDFor(b, s, k)
  {}

  lemma NotWrappedWithoutMarkers(blocks: seq<Block>, i: nat)
    requires i < |blocks| && NoMarkers(blocks)
    ensures !AlreadyWrapped(blocks, i)
  {}

  lemma {:induction false} MarkableMeans(blocks: seq<Block>, s: nat, k: nat)
    requires MarkableBlocks(blocks, s, k)
    ensures NoMarkers(blocks) && forall i :: 0 <= i < |blocks| ==> Markable(blocks[i], s, k + i)
  {
    hide Markable;
    if blocks != [] {
      MarkableMeans(blocks[1..], s, k + 1);
      assert forall i :: 1 <= i < |blocks| ==> blocks[i] == blocks[1..][i - 1];
      MarkableIsNoMarker(blocks[0], s, k);
    }
  }

  lemma MarkableIsNoMarker(b: Block, s: nat, k: nat)
    requires Markable(b, s, k)
    ensures !b.MarkerBlock?
  {}

  lemma {:induction false} SectionsAreLaid(sections: seq<Section>, s: nat, foot: string)
    requires MarkableSections(sections, s)
    ensures SectionsText(WrapAll(sections, s)) + foot == LaySections(sections, s, foot).Text()
    decreases |sections|
  {
    hide HeadingText, BlocksText, LayBlocks, MarkableBlocks, BeginFree, Layout.Text, Markable;
    if sections == [] {
      EmptyLayout(foot);
    } else {
      var sec, rest := sections[0], sections[1..];
      SectionsAreLaid(rest, s + 1, foot);
      var l := LaySections(rest, s + 1, foot);
      MarkableMeans(sec.blocks, s, 0);
      assert sec.blocks[0..] == sec.blocks;
      BlocksAreLaid(sec.blocks, 0, s, l);
      TextBefore(HeadingText(sec.heading), LayBlocks(sec.blocks, s, 0, l));
      FirstSectionText(sec, rest, s, foot);
    }
  }

  lemma EmptyLayout(foot: string)
    ensures SectionsText([]) + foot == Layout("", [], foot).Text()
  {
    assert "" + foot == foot;
  }

  lemma FirstSectionText(sec: Section, rest: seq<Section>, s: nat, foot: string)
    ensures SectionsText(WrapAll([sec] + rest, s)) + foot ==
      HeadingText(sec.heading) + (BlocksText(Wrapped(sec.blocks, s)) + (SectionsText(WrapAll(rest, s + 1)) + foot))
  {
    hide HeadingText, BlocksText, Wrapped;
    assert ([sec] + rest)[1..] == rest;
    var w := WrapAll([sec] + rest, s);
    assert w[1..] == WrapAll(rest, s + 1);
    var h, b, t := HeadingText(sec.heading), BlocksText(Wrapped(sec.blocks, s)), SectionsText(WrapAll(rest, s + 1));
    assert h + b + t + foot == h + (b + (t + foot));
  }

  /* ----- the layout can be read back ----- */

  /** The text up to the next marker is free of markers and starts bluntly; the blocks are printable. */
  ghost predicate Readable(l: Layout) {
    && BeginFree(l.Lead()) && Blunt(l.Lead())
    && (l.blocks != [] ==> PrintableBlocks(l.blocks, l.epilogue))
  }

  lemma FreeTextIsTail(epilogue: string)
    requires BeginFree(epilogue)
    ensures IsTail("", epilogue)
  {
    hide MatchBegin, MatchEnd;
    assert "" + epilogue == epilogue;
    if FindFirst(epilogue, Begins, 0).Some? {
      assert false;
    }
  }

  lemma NothingIsBlunt()
    ensures Blunt("") && BeginFree("") && BeginFree("\n")
  {
    hide MatchBegin;
    NoMatchAtNewline("", "");
    NoMatchAtNewline("\n", "");
    assert "\n"[0..] == "\n" && "\n"[1..] == "";
  }

  lemma ReadableAfter(b: Block, s: nat, k: nat, l: Layout)
    requires Markable(b, s, k) && Hashed(b) && Readable(l)
    ensures Readable(After(Expected(b, s, k), l))
  {
    hide BeginFree, Blunt, EndFree, IsTail, BlockIDFor, BlockText, IsToken;
    var e := Expected(b, s, k);
    NothingIsBlunt();
    NewlineKeepsGap(l.Lead());
    var a := After(e, l);
    ZoneIsToken(b);
    assert PrintableBlock(a.blocks[0]);
    if l.blocks == [] {
      assert "" + a.epilogue == a.epilogue;
      FreeTextIsTail(a.epilogue);
    } else {
      assert a.blocks[1..] == l.blocks;
    }
  }

  /** The region of a block without a hash joins the text before the next marker. */
  lemma ReadableBehindLost(b: Block, s: nat, k: nat, l: Layout)
    requires Markable(b, s, k) && !Hashed(b) && Readable(l)
    ensures Readable(Before(LostText(b, BlockIDFor(b, s, k)), l))
  {
    hide BeginFree, Blunt, PrintableBlocks, BlockIDFor, BlockText, IsToken, LostText, LastArrow;
    var t := LostText(b, BlockIDFor(b, s, k));
    LostTextIsFree(b, BlockIDFor(b, s, k), l.Lead());
    assert t + l.gap + l.epilogue == t + (l.gap + l.epilogue);
  }

  lemma {:induction false} ReadableBlocks(blocks: seq<Block>, s: nat, k: nat, l: Layout)
    requires MarkableBlocks(blocks, s, k) && Readable(l)
    ensures Readable(LayBlocks(blocks, s, k, l))
  {
    hide Markable, Readable;
    if blocks != [] {
      ReadableBlocks(blocks[1..], s, k + 1, l);
      var next := LayBlocks(blocks[1..], s, k + 1, l);
      if Hashed(blocks[0]) {
        ReadableAfter(blocks[0], s, k, next);
      } else {
        ReadableBehindLost(blocks[0], s, k, next);
      }
    }
  }

  lemma HeadingMeets(heading: string)
    ensures heading != "" ==> EndsBlank(HeadingText(heading))
    ensures heading != "" ==> forall c :: Blunt(HeadingText(heading) + c)
  {
    if heading != "" {
      var h := HeadingText(heading);
      assert h[|h| - 1] == '\n';
      forall c ensures Blunt(h + c) {
        assert (h + c)[0] == '#';
        RunLenIs(h + c, IsSpace, 0);
        assert (h + c)[0..] == h + c;
      }
    }
  }

  lemma ReadableBehindHeading(heading: string, l: Layout)
    requires BeginFree(HeadingText(heading)) && Readable(l)
    ensures Readable(Before(HeadingText(heading), l))
  {
    hide BeginFree, Blunt, PrintableBlocks, EndsBlank;
    var h := HeadingText(heading);
    var a := Before(h, l);
    if heading == "" {
      assert h + l.gap == l.gap;
      assert a == l;
    } else {
      HeadingMeets(heading);
      assert a.Lead() == h + l.Lead() by {
        assert h + l.gap + l.epilogue == h + (l.gap + l.epilogue);
      }
      GapsJoin(h, l.Lead());
    }
  }

  lemma {:induction false} ReadableSections(sections: seq<Section>, s: nat, foot: string)
    requires MarkableSections(sections, s) && BeginFree(foot) && Blunt(foot)
    ensures Readable(LaySections(sections, s, foot))
    decreases |sections|
  {
    hide BeginFree, Blunt, MarkableBlocks, PrintableBlocks, HeadingText;
    if sections == [] {
      assert "" + foot == foot;
    } else {
      var l := LaySections(sections[1..], s + 1, foot);
      ReadableSections(sections[1..], s + 1, foot);
      ReadableBlocks(sections[0].blocks, s, 0, l);
      ReadableBehindHeading(sections[0].heading, LayBlocks(sections[0].blocks, s, 0, l));
    }
  }

  /* ----- the blocks of the layout are the expected ones ----- */

  predicate SameButFollowing(a: seq<WikiParse.Block>, b: seq<WikiParse.Block>) {
    |a| == |b| && forall n :: 0 <= n < |a| ==> a[n] == b[n].(following := a[n].following)
  }

  lemma OneMoreLaid(b: WikiParse.Block, l: Layout, rest: seq<WikiParse.Block>)
    requires SameButFollowing(l.blocks, rest)
    ensures SameButFollowing(After(b, l).blocks, [b] + rest)
  {
    var a, e := After(b, l).blocks, [b] + rest;
    assert |a| == |e|;
    forall n | 0 <= n < |a|
      ensures a[n] == e[n].(following := a[n].following)
    {
      if n > 0 {
        assert a[n] == l.blocks[n - 1] && e[n] == rest[n - 1];
      }
    }
  }

  lemma {:induction false} LaidBlocks(blocks: seq<Block>, s: nat, k: nat, l: Layout)
    ensures SameButFollowing(LayBlocks(blocks, s, k, l).blocks, ExpectedBlocks(blocks, s, k) + l.blocks)
  {
    hide Expected, After, SameButFollowing;
    if blocks == [] {
      assert [] + l.blocks == l.blocks;
      SameAsItself(l.blocks);
    } else {
      LaidBlocks(blocks[1..], s, k + 1, l);
      assert [] + ExpectedBlocks(blocks[1..], s, k + 1) == ExpectedBlocks(blocks[1..], s, k + 1);
      OneMoreLaid(Expected(blocks[0], s, k), LayBlocks(blocks[1..], s, k + 1, l),
        ExpectedBlocks(blocks[1..], s, k + 1) + l.blocks);
      Associates([Expected(blocks[0], s, k)], ExpectedBlocks(blocks[1..], s, k + 1), l.blocks);
    }
  }

  lemma SameAsItself(blocks: seq<WikiParse.Block>)
    ensures SameButFollowing(blocks, blocks)
  {}

  lemma {:induction false} LaidSections(sections: seq<Section>, s: nat, foot: string)
    ensures SameButFollowing(LaySections(sections, s, foot).blocks, ExpectedSections(sections, s))
    decreases |sections|
  {
    hide HeadingText, LayBlocks, ExpectedBlocks;
    if sections != [] {
      var l := LaySections(sections[1..], s + 1, foot);
      LaidSections(sections[1..], s + 1, foot);
      LaidBlocks(sections[0].blocks, s, 0, l);
      var e := ExpectedBlocks(sections[0].blocks, s, 0);
      assert SameButFollowing(e + l.blocks, e + ExpectedSections(sections[1..], s + 1));
    }
  }

  /* ----- main result ----- */

  /** Frontmatter and footer: no BEGIN marker in either, and white space or an opening where they meet the sections. */
  ghost predicate CleanFrame(head: string, foot: string) {
    BeginFree(head) && (head == "" || EndsBlank(head)) && BeginFree(foot) && Blunt(foot)
  }

  lemma PageIsPrinted(head: string, sections: seq<Section>, foot: string)
    requires MarkableSections(sections, 0)
    ensures PageWith(head, sections, foot) == Before(head, LaySections(sections, 0, foot)).Text()
  {
    hide Layout.Text, SectionsText, LaySections;
    SectionsAreLaid(sections, 0, foot);
    TextBefore(head, LaySections(sections, 0, foot));
    var t := SectionsText(WrapAll(sections, 0));
    assert head + t + foot == head + (t + foot);
  }

  /** The page as what the parser is to find: text, blocks, text. */
  function PageLayout(head: string, sections: seq<Section>, foot: string): Layout {
    Before(head, LaySections(sections, 0, foot))
  }

  function AsDoc(l: Layout): WikiParse.ParsedDoc {
    if l.blocks == [] then WikiParse.ParsedDoc(l.Text(), [], "")
    else Settled(WikiParse.ParsedDoc(l.gap, l.blocks, l.epilogue))
  }

  /**
   The wiki parser recovers from a rendered page, in order, exactly the blocks that
   have a hash, each with its ID, zone and hash and with the printed block behind the
   empty line that the backend leaves as its body.  All other text, the regions of
   blocks without a hash included, is found where the layout has it: in front of the
   first block, or behind the block before it.
   */
  lemma {:induction false} PageReadsBack(head: string, sections: seq<Section>, foot: string)
    requires MarkableSections(sections, 0) && CleanFrame(head, foot)
    ensures WikiParse.Parsed(PageWith(head, sections, foot)) == AsDoc(PageLayout(head, sections, foot))
    ensures SameButFollowing(WikiParse.Parsed(PageWith(head, sections, foot)).blocks, ExpectedSections(sections, 0))
  {
    hide LaySections, ExpectedSections, PageWith, WikiParse.Parsed, BeginFree, Blunt, EndsBlank, WikiParse.ScanFrom;
    var l := LaySections(sections, 0, foot);
    var page := PageLayout(head, sections, foot);
    PageIsPrinted(head, sections, foot);
    ReadableSections(sections, 0, foot);
    LaidSections(sections, 0, foot);
    if l.blocks == [] {
      PlainPage(page, head, l);
    } else {
      assert BeginFree(page.gap) by {
        assert head == "" ==> page.gap == l.gap;
        if head != "" {
          GapsJoin(head, l.gap);
        }
      }
      var doc := WikiParse.ParsedDoc(page.gap, page.blocks, page.epilogue);
      PrintThenParse(doc);
      SettleKeepsBlocks(doc.blocks, doc.epilogue);
    }
  }

  function CountBlocks(sections: seq<Section>): nat {
    if sections == [] then 0 else |sections[0].blocks| + CountBlocks(sections[1..])
  }

  predicate AllHashed(sections: seq<Section>) {
    forall i, k :: 0 <= i < |sections| && 0 <= k < |sections[i].blocks| ==> Hashed(sections[i].blocks[k])
  }

  lemma {:induction false} ExpectedCount(blocks: seq<Block>, s: nat, k: nat)
    ensures |ExpectedBlocks(blocks, s, k)| <= |blocks|
    ensures |ExpectedBlocks(blocks, s, k)| == |blocks| <==> forall i :: 0 <= i < |blocks| ==> Hashed(blocks[i])
  {
    hide Expected, Hashed;
    if blocks != [] {
      ExpectedCount(blocks[1..], s, k + 1);
      assert forall i :: 1 <= i < |blocks| ==> blocks[i] == blocks[1..][i - 1];
    }
  }

  lemma {:induction false} ExpectedSectionsCount(sections: seq<Section>, s: nat)
    ensures |ExpectedSections(sections, s)| <= CountBlocks(sections)
    ensures |ExpectedSections(sections, s)| == CountBlocks(sections) <==> AllHashed(sections)
    decreases |sections|
  {
    hide ExpectedBlocks, Hashed;
    if sections != [] {
      ExpectedCount(sections[0].blocks, s, 0);
      ExpectedSectionsCount(sections[1..], s + 1);
      assert forall i :: 1 <= i < |sections| ==> sections[i] == sections[1..][i - 1];
    }
  }

  /** Every block of the document is recovered from its page if and only if every block has a hash. */
  lemma {:induction false} EveryBlockIsRecoveredIff(head: string, sections: seq<Section>, foot: string)
    requires MarkableSections(sections, 0) && CleanFrame(head, foot)
    ensures |WikiParse.Parsed(PageWith(head, sections, foot)).blocks| == CountBlocks(sections) <==> AllHashed(sections)
  {
    hide PageWith, WikiParse.Parsed, ExpectedSections, CountBlocks, AllHashed, MarkableSections, CleanFrame, AsDoc,
      PageLayout;
    PageReadsBack(head, sections, foot);
    ExpectedSectionsCount(sections, 0);
  }

  lemma PlainPage(page: Layout, head: string, l: Layout)
    requires page == Before(head, l) && l.blocks == [] && Readable(l)
    requires BeginFree(head) && (head == "" || EndsBlank(head))
    ensures WikiParse.Parsed(page.Text()) == WikiParse.ParsedDoc(page.Text(), [], "")
  {
    hide BeginFree, Blunt, EndsBlank, MatchBegin, MatchEnd;
    var text := page.Text();
    assert text == head + l.Lead() by {
      assert head + l.gap + l.epilogue == head + (l.gap + l.epilogue);
    }
    assert BeginFree(text) by {
      assert head == "" ==> text == l.Lead();
      if head != "" {
        GapsJoin(head, l.Lead());
      }
    }
    FreeTextHasNoBlocks(text);
    ParsedPrologue(text);
  }

  lemma FreeTextHasNoBlocks(text: string)
    requires BeginFree(text)
    ensures WikiParse.Parsed(text).blocks == []
  {
    hide MatchBegin, MatchEnd;
    if FindFirst(text, Begins, 0).Some? {
      assert false;
    }
  }

  /* ----- block IDs, and the merge of such pages ----- */

  /** A block of the document that has a hash, and where it stands. */
  datatype Item = Item(b: Block, s: nat, k: nat)

  function ItemsOf(blocks: seq<Block>, s: nat, k: nat): seq<Item> {
    if blocks == [] then []
    else (if Hashed(blocks[0]) then [Item(blocks[0], s, k)] else []) + ItemsOf(blocks[1..], s, k + 1)
  }

  function Items(sections: seq<Section>, s: nat): seq<Item> {
    if sections == [] then [] else ItemsOf(sections[0].blocks, s, 0) + Items(sections[1..], s + 1)
  }

  predicate Explicit(b: Block) {
    b.MachineBlock? && b.blockID != ""
  }

  /** Explicit IDs are told apart from each other and from generated ones. */
  ghost predicate ProperIDs(items: seq<Item>) {
    && (forall i, j :: 0 <= i < j < |items| && Explicit(items[i].b) && Explicit(items[j].b) ==>
          items[i].b.blockID != items[j].b.blockID)
    && (forall i, s: nat, k: nat :: 0 <= i < |items| && Explicit(items[i].b) ==>
      items[i].b.blockID != GeneratedID(s, k))
  }

  predicate Earlier(a: Item, b: Item) {
    a.s < b.s || (a.s == b.s && a.k < b.k)
  }

  predicate InOrder(items: seq<Item>) {
    forall i, j :: 0 <= i < j < |items| ==> Earlier(items[i], items[j])
  }

  lemma {:induction false} ItemsOfSection(blocks: seq<Block>, s: nat, k: nat)
    ensures var items, e := ItemsOf(blocks, s, k), ExpectedBlocks(blocks, s, k);
      && |items| == |e| && InOrder(items)
      && (forall i :: 0 <= i < |items| ==> items[i].s == s && items[i].k >= k)
      && (forall i :: 0 <= i < |items| ==> e[i] == Expected(items[i].b, items[i].s, items[i].k))
  {
    hide Expected;
    if blocks != [] {
      ItemsOfSection(blocks[1..], s, k + 1);
    }
  }

  lemma {:induction false} ItemsOfSections(sections: seq<Section>, s: nat)
    ensures var items, e := Items(sections, s), ExpectedSections(sections, s);
      && |items| == |e| && InOrder(items)
      && (forall i :: 0 <= i < |items| ==> items[i].s >= s)
      && (forall i :: 0 <= i < |items| ==> e[i] == Expected(items[i].b, items[i].s, items[i].k))
    decreases |sections|
  {
    hide Expected, ItemsOf, ExpectedBlocks;
    if sections != [] {
      ItemsOfSections(sections[1..], s + 1);
      ItemsOfSection(sections[0].blocks, s, 0);
    }
  }

  lemma IDsDiffer(a: Item, b: Item)
    requires Earlier(a, b)
    requires Explicit(a.b) && Explicit(b.b) ==> a.b.blockID != b.b.blockID
    requires Explicit(a.b) ==> a.b.blockID != GeneratedID(b.s, b.k)
    requires Explicit(b.b) ==> b.b.blockID != GeneratedID(a.s, a.k)
    ensures BlockIDFor(a.b, a.s, a.k) != BlockIDFor(b.b, b.s, b.k)
  {
    hide GeneratedID;
    if GeneratedID(a.s, a.k) == GeneratedID(b.s, b.k) {
      GeneratedIDsAreDistinct(a.s, a.k, b.s, b.k);
    }
  }

  lemma {:induction false} PageIDsAreDistinct(sections: seq<Section>)
    requires ProperIDs(Items(sections, 0))
    ensures DistinctIDs(ExpectedSections(sections, 0))
  {
    hide GeneratedID, BlockIDFor, Items, ExpectedSections;
    ItemsOfSections(sections, 0);
    var items, e := Items(sections, 0), ExpectedSections(sections, 0);
    forall i, j | 0 <= i < j < |e|
      ensures e[i].id != e[j].id
    {
      IDsDiffer(items[i], items[j]);
      ExpectedShape(items[i].b, items[i].s, items[i].k);
      ExpectedShape(items[j].b, items[j].s, items[j].k);
    }
  }

  /**
   The whole way round: what the pass, the backend and the parser make of a
   document is a render whose merge settles after one push, on every page.
   */
  lemma {:induction false} RenderedPagesSettle(head: string, sections: seq<Section>, foot: string, h: string)
    requires MarkableSections(sections, 0) && CleanFrame(head, foot) && ProperIDs(Items(sections, 0))
    ensures var render := PageWith(head, sections, foot);
      && DistinctIDs(WikiParse.Parsed(render).blocks)
      && Merge.Merged(Merge.Merged(h, render), render) == Merge.Merged(h, render)
  {
    hide WikiParse.Parsed, PageWith, ExpectedSections, Items, Merge.Merged, ProperIDs, CleanFrame;
    var render := PageWith(head, sections, foot);
    PageReadsBack(head, sections, foot);
    PageIDsAreDistinct(sections);
    DistinctIDsAreStable(WikiParse.Parsed(render).blocks);
    StableMergeIsFixed(h, render);
  }

  /* ----- what the recovered blocks are, and what merging makes of them ----- */

  /** The block that the parser recovers for an item, up to the text that follows it. */
  function Recovered(item: Item): WikiParse.Block {
    WikiParse.Block(
      PlainID(item.b, item.s, item.k), if IsEditorial(item.b) then "editorial" else "machine",
      item.b.prov.inputHash, "\n" + BlockText(item.b), "")
  }

  /** The parser recovers the hashed blocks, each with ID, zone by its kind, hash and printed text. */
  lemma {:induction false} RecoveredBlocks(head: string, sections: seq<Section>, foot: string)
    requires MarkableSections(sections, 0) && CleanFrame(head, foot)
    ensures var blocks, items := WikiParse.Parsed(PageWith(head, sections, foot)).blocks, Items(sections, 0);
      && |blocks| == |items|
      && forall i :: 0 <= i < |items| ==> blocks[i] == Recovered(items[i]).(following := blocks[i].following)
  {
    hide WikiParse.Parsed, PageWith, ExpectedSections, Items, MarkableSections, CleanFrame, AsDoc, PageLayout;
    PageReadsBack(head, sections, foot);
    ItemsOfSections(sections, 0);
    var items := Items(sections, 0);
    forall i | 0 <= i < |items| ensures Expected(items[i].b, items[i].s, items[i].k) == Recovered(items[i]) {
      ExpectedIsRecovered(items[i]);
    }
  }

  lemma ExpectedIsRecovered(item: Item)
    ensures Expected(item.b, item.s, item.k) == Recovered(item)
  {
    hide BlockIDFor, ZoneLabel, PlainID;
    MarkersArePlain(item.b, item.s, item.k);
  }

  /** The wiki's text for the block of `item`, when it was rendered from the same inputs. */
  function HumanBody(page: WikiParse.ParsedDoc, item: Item): Option<string> {
    match page.BlockByID(PlainID(item.b, item.s, item.k))
    case Some(old') => if old'.provenance == item.b.prov.inputHash then Some(old'.body) else None
    case None => None
  }

  /**
   Whatever stands on the page: rendering a document onto it keeps the text of every
   hashed block of prose, and of every callout that no machine wrote, whose region on
   the page has the same hash, and gives every other hashed block its printed text.
   */
  lemma {:induction false} DocumentOntoPage(head: string, sections: seq<Section>, foot: string, h: string)
    requires MarkableSections(sections, 0) && CleanFrame(head, foot)
    ensures
      var items := Items(sections, 0);
      var blocks := WikiParse.Parsed(Merge.Merged(h, PageWith(head, sections, foot))).blocks;
      && |blocks| == |items|
      && forall i :: 0 <= i < |items| ==>
           var human := HumanBody(WikiParse.Parsed(h), items[i]);
           && blocks[i].id == PlainID(items[i].b, items[i].s, items[i].k)
           && blocks[i].body ==
                if IsEditorial(items[i].b) && human.Some? then human.value else "\n" + BlockText(items[i].b)
  {
    hide WikiParse.Parsed, PageWith, Items, MarkableSections, CleanFrame, Merge.Merged, PlainID, BlockText;
    var render, items := PageWith(head, sections, foot), Items(sections, 0);
    RecoveredBlocks(head, sections, foot);
    MergeKeepsExactlySurvivingBodies(h, render);
    forall i | 0 <= i < |items| ensures items[i].b.prov.inputHash != "" {
      ItemsAreHashed(sections, 0, i);
    }
  }

  lemma {:induction false} ItemsAreHashed(sections: seq<Section>, s: nat, i: nat)
    requires i < |Items(sections, s)|
    ensures Hashed(Items(sections, s)[i].b)
    decreases |sections|
  {
    hide Hashed;
    if sections != [] {
      var first := ItemsOf(sections[0].blocks, s, 0);
      if i < |first| {
        ItemsOfAreHashed(sections[0].blocks, s, 0, i);
      } else {
        ItemsAreHashed(sections[1..], s + 1, i - |first|);
      }
    }
  }

  lemma {:induction false} ItemsOfAreHashed(blocks: seq<Block>, s: nat, k: nat, i: nat)
    requires i < |ItemsOf(blocks, s, k)|
    ensures Hashed(ItemsOf(blocks, s, k)[i].b)
  {
    if blocks != [] {
      var n := if Hashed(blocks[0]) then 1 else 0;
      if i >= n {
        ItemsOfAreHashed(blocks[1..], s, k + 1, i - n);
      }
    }
  }

  /* ----- whole documents ----- */

  predicate PlainFront(f: Frontmatter) {
    '<' !in f.title && '<' !in f.specHash && '<' !in f.kbCommit && '<' !in f.generatedAt
  }

  predicate PlainFooter(f: Footer) {
    '<' !in f.runID && '<' !in f.kbCommit && '<' !in f.lastCurated
  }

  lemma NoAngleIsFree(s: string)
    requires '<' !in s
    ensures BeginFree(s)
  {
    hide MatchBegin;
    forall i | 0 <= i < |s| + 1 ensures !Begins(s[i..]) {
      StartsWithAngle(s[i..]);
    }
  }

  lemma HeadIsClean(f: Frontmatter)
    requires PlainFront(f)
    ensures BeginFree(HeadText(f)) && EndsBlank(HeadText(f))
  {
    hide BeginFree;
    LinesHaveNoAngle(f);
    NoAngleIsFree(HeadText(f));
  }

  lemma LinesHaveNoAngle(f: Frontmatter)
    requires PlainFront(f)
    ensures '<' !in HeadText(f)
  {
    NoAngleInLine("title: ", f.title);
    NoAngleInLine("spec_hash: ", f.specHash);
    NoAngleInLine("kb_commit: ", f.kbCommit);
    NoAngleInLine("generated_at: ", f.generatedAt);
    hide LineIf;
    assert '<' !in FrontmatterText(f);
    hide FrontmatterText;
    assert '<' !in "# " + f.title + "\n\n";
  }

  lemma NoAngleInLine(name: string, value: string)
    requires '<' !in name && '<' !in value
    ensures '<' !in LineIf(name, value)
  {}

  /** The footer is a comment, and not a marker. */
  lemma FooterIsClean(f: Footer)
    requires PlainFooter(f)
    ensures BeginFree(FooterText(f)) && Blunt(FooterText(f))
  {
    hide BeginFree, Blunt, LineIf;
    NothingIsBlunt();
    if FooterText(f) != "" {
      var lines := FooterLines(f);
      FooterLinesHaveNoAngle(f);
      NoAngleIsFree(lines);
      FooterOpeningIsFree(lines);
      NewlineKeepsGap(FOOTER_OPENING + lines);
      BluntMarker(FOOTER_OPENING, lines);
      FooterPieces(f);
    }
  }

  const FOOTER_OPENING := "<!-- mykb-curator footer\n"

  function FooterLines(f: Footer): string {
    LineIf("  run-id: ", f.runID) + LineIf("  kb-commit: ", f.kbCommit) + LineIf("  last-curated: ", f.lastCurated)
      + "-->\n"
  }

  lemma FooterPieces(f: Footer)
    requires FooterText(f) != ""
    ensures FooterText(f) == "\n" + (FOOTER_OPENING + FooterLines(f))
  {
    hide LineIf;
    Opened(LineIf("  run-id: ", f.runID), LineIf("  kb-commit: ", f.kbCommit),
      LineIf("  last-curated: ", f.lastCurated), "-->\n");
  }

  lemma Opened(x: string, y: string, z: string, end: string)
    ensures "\n<!-- mykb-curator footer\n" + x + y + z + end == "\n" + (FOOTER_OPENING + (x + y + z + end))
  {
    var opening := "\n" + FOOTER_OPENING;
    assert "\n<!-- mykb-curator footer\n" == opening;
    hide FOOTER_OPENING;
    Regroup4(opening, x, y, z, end);
    Regroup3(x, y, z, end);
    Associates("\n", FOOTER_OPENING, x + (y + (z + end)));
  }

  lemma FooterLinesHaveNoAngle(f: Footer)
    requires PlainFooter(f)
    ensures '<' !in FooterLines(f)
  {
    NoAngleInLine("  run-id: ", f.runID);
    NoAngleInLine("  kb-commit: ", f.kbCommit);
    NoAngleInLine("  last-curated: ", f.lastCurated);
    hide LineIf;
  }

  lemma FooterOpeningIsFree(rest: string)
    requires BeginFree(rest)
    ensures BeginFree(FOOTER_OPENING + rest)
  {
    hide BeginFree;
    NotInPieces('<', "!-- ", "mykb-", "curator", " footer\n");
    assert FOOTER_OPENING[1..] == "!-- " + "mykb-" + "curator" + " footer\n";
    assert Inert(FOOTER_OPENING) by {
      forall c: string, i | 0 <= i < |FOOTER_OPENING|
        ensures !Begins((FOOTER_OPENING + c)[i..])
      {
        var s := (FOOTER_OPENING + c)[i..];
        if i == 0 {
          FooterIsNoMarker(s);
        } else {
          assert s[0] == FOOTER_OPENING[1..][i - 1];
          StartsWithAngle(s);
        }
      }
    }
    InertThenFree(FOOTER_OPENING, rest);
  }

  lemma FooterIsNoMarker(s: string)
    requires |s| > 6 && s[4] == ' ' && s[5] == 'm'
    ensures !Begins(s)
  {
    hide MatchValue, DropSpaces;
    if "<!--" <= s {
      OneBlank(s[4..]);
      assert s[4..][1..][0] == 'm' && BEGIN[0] == 'C';
    }
  }

  /**
   For whole documents: what pass and backend make of one is a page from which the
   wiki parser recovers exactly the blocks that have a hash, and whose merge settles
   after one push, on every page of the wiki.
   */
  lemma {:induction false} DocumentsSettle(front: Frontmatter, sections: seq<Section>, footer: Footer, h: string)
    requires MarkableSections(sections, 0) && PlainFront(front) && PlainFooter(footer) && ProperIDs(Items(sections, 0))
    ensures var render := DocumentText(front, WrapAll(sections, 0), footer);
      && SameButFollowing(WikiParse.Parsed(render).blocks, ExpectedSections(sections, 0))
      && (|WikiParse.Parsed(render).blocks| == CountBlocks(sections) <==> AllHashed(sections))
      && Merge.Merged(Merge.Merged(h, render), render) == Merge.Merged(h, render)
  {
    hide WikiParse.Parsed, ExpectedSections, Items, Merge.Merged, ProperIDs, MarkableSections, HeadText, FooterText,
      SectionsText, CountBlocks, AllHashed;
    hide BeginFree, Blunt, EndsBlank, AsDoc, PageLayout;
    HeadIsClean(front);
    FooterIsClean(footer);
    PageReadsBack(HeadText(front), sections, FooterText(footer));
    EveryBlockIsRecoveredIff(HeadText(front), sections, FooterText(footer));
    RenderedPagesSettle(HeadText(front), sections, FooterText(footer), h);
  }
}
