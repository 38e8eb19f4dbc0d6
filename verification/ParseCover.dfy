/** Whatever a page holds, `Parse` cuts it into pieces that make up the whole text again. */
module ParseCover {
  import opened Wrappers
  import opened Markers
  import opened WikiParse
  import opened PageText

  /** The text of one region: its BEGIN marker, what it encloses, its END marker. */
  datatype Region = Region(begin: string, inner: string, end: string)

  /** The markers are those of block `b`, and `b` carries what they enclose, up to the newlines at its ends. */
  ghost predicate IsRegionOf(r: Region, b: Block) {
    && (exists m: Begin :: MatchBegin(r.begin + m.rest) == Some(m) && m.id == b.id
          && AttrValue(m.attrs, "zone") == b.zone && AttrValue(m.attrs, "provenance") == b.provenance)
    && (exists after :: MatchEnd(r.end + after, b.id) == Some(after))
    && EndFree(r.inner, b.id)
    && TrimBody(r.inner) == b.body
  }

  /** The text in front of the blocks, then every region and the text that follows it, then the epilogue. */
  function Reassembled(front: string, regions: seq<Region>, blocks: seq<Block>, epilogue: string): string
    requires |regions| == |blocks|
    decreases |blocks|
  {
    if blocks == [] then front + epilogue
    else
      var r := regions[0];
      front + (r.begin + (r.inner + (r.end + Reassembled(blocks[0].following, regions[1..], blocks[1..], epilogue))))
  }

  lemma CutOff(s: string, r: string) returns (cut: string)
    requires IsSuffix(r, s)
    ensures cut + r == s
  {
    cut := s[..|s| - |r|];
  }

  lemma FirstRegion(s: string, n: nat, b: Begin, e: nat, after: string) returns (r: Region)
    requires FindFirst(s, Begins, 0) == Some(n) && MatchBegin(s[n..]) == Some(b)
    requires FindFirst(b.rest, Ends(b.id), 0) == Some(e) && MatchEnd(b.rest[e..], b.id) == Some(after)
    ensures s == s[..n] + (r.begin + (r.inner + (r.end + after)))
    ensures forall following :: IsRegionOf(r, MakeBlock(b, b.rest[..e], following))
  {
    hide MatchBegin, MatchEnd, MakeBlock, EndFree, FindFirst, IsRegionOf;
    var begin := CutOff(s[n..], b.rest);
    var end := CutOff(b.rest[e..], after);
    r := Region(begin, b.rest[..e], end);
    assert b.rest == r.inner + (end + after);
    assert s == s[..n] + s[n..];
    InnerBeforeMatch(b.rest, b.id, e, 0, e);
    assert b.rest[0..e] == r.inner;
    forall following ensures IsRegionOf(r, MakeBlock(b, r.inner, following)) {
      MadeFromRegion(r, b, after, following);
    }
  }

  lemma MadeFromRegion(r: Region, b: Begin, after: string, following: string)
    requires MatchBegin(r.begin + b.rest) == Some(b) && MatchEnd(r.end + after, b.id) == Some(after)
    requires EndFree(r.inner, b.id)
    ensures IsRegionOf(r, MakeBlock(b, r.inner, following))
  {
    hide MatchBegin, MatchEnd, TrimBody, AttrValue, EndFree;
  }

  /** The regions and texts of `scan` are the text `s`. */
  ghost predicate Covers(regions: seq<Region>, scan: Scan, s: string) {
    && |regions| == |scan.blocks|
    && Reassembled(scan.gap, regions, scan.blocks, scan.epilogue) == s
    && forall k :: 0 <= k < |regions| ==> IsRegionOf(regions[k], scan.blocks[k])
  }

  lemma NoRegions(s: string)
    requires ScanFrom(s).blocks == []
    ensures Covers([], ScanFrom(s), s)
  {
    hide ScanFrom;
    ScanShape(s);
    assert s + "" == s && "" + s == s;
  }

  lemma {:induction false} ScanLosesNothing(s: string) returns (regions: seq<Region>)
    ensures Covers(regions, ScanFrom(s), s)
    decreases |s|
  {
    hide MatchBegin, MatchEnd, Covers, MakeBlock;
    regions := [];
    if ScanFrom(s).blocks == [] {
      NoRegions(s);
    } else {
      var n := FindFirst(s, Begins, 0).value;
      BeginsAt(s[n..]);
      var b := MatchBegin(s[n..]).value;
      var e := FindFirst(b.rest, Ends(b.id), 0).value;
      EndsAt(b.rest[e..], b.id);
      var after := MatchEnd(b.rest[e..], b.id).value;
      ScanClosed(s, n, b, e, after);
      hide ScanFrom;
      var r := FirstRegion(s, n, b, e, after);
      var more := ScanLosesNothing(after);
      regions := [r] + more;
      Extend(s, s[..n], after, r, more, MakeBlock(b, b.rest[..e], ScanFrom(after).gap), ScanFrom(after)) by {
        assert MakeBlock(b, b.rest[..e], ScanFrom(after).gap).following == ScanFrom(after).gap by {
          FollowingIs(b, b.rest[..e], ScanFrom(after).gap);
        }
      }
    }
  }

  lemma FollowingIs(b: Begin, inner: string, following: string)
    ensures MakeBlock(b, inner, following).following == following
  {}

  lemma Extend(s: string, front: string, after: string, r: Region, more: seq<Region>, b: Block, next: Scan)
    requires Covers(more, next, after) && b.following == next.gap && IsRegionOf(r, b)
    requires s == front + (r.begin + (r.inner + (r.end + after)))
    ensures Covers([r] + more, Scan(front, [b] + next.blocks, next.epilogue), s)
  {
    hide IsRegionOf;
    assert ([r] + more)[1..] == more && ([b] + next.blocks)[1..] == next.blocks;
  }

  /**
   Parsing loses nothing: prologue, regions, the texts that follow them and epilogue
   are the page, malformed, nested and unclosed markers included.
   */
  lemma {:induction false} ParseLosesNothing(text: string) returns (regions: seq<Region>)
    ensures var doc := Parsed(text);
      && |regions| == |doc.blocks|
      && Reassembled(doc.prologue, regions, doc.blocks, doc.epilogue) == text
      && forall k :: 0 <= k < |regions| ==> IsRegionOf(regions[k], doc.blocks[k])
  {
    hide IsRegionOf, ScanFrom;
    ScanShape(text);
    regions := ScanLosesNothing(text);
    assert text + "" == text;
  }

  /** The text behind the last block, or the whole text without blocks, opens a block or is an epilogue. */
  ghost predicate TailOk(scan: Scan) {
    var last := if scan.blocks == [] then scan.gap else scan.blocks[|scan.blocks| - 1].following;
    && (last == "" || scan.epilogue == "")
    && BeginFree(scan.epilogue)
    && (last != "" ==> !BeginFree(last))
  }

  lemma {:induction false} ScanTail(s: string)
    ensures TailOk(ScanFrom(s))
    decreases |s|
  {
    hide MatchBegin, MatchEnd, MakeBlock, TailOk;
    if ScanFrom(s).blocks == [] {
      TailWithoutBlocks(s);
    } else {
      var n := FindFirst(s, Begins, 0).value;
      BeginsAt(s[n..]);
      var b := MatchBegin(s[n..]).value;
      var e := FindFirst(b.rest, Ends(b.id), 0).value;
      EndsAt(b.rest[e..], b.id);
      var after := MatchEnd(b.rest[e..], b.id).value;
      ScanClosed(s, n, b, e, after);
      hide ScanFrom;
      ScanTail(after);
      FollowingIs(b, b.rest[..e], ScanFrom(after).gap);
      TailBehindBlock(s[..n], MakeBlock(b, b.rest[..e], ScanFrom(after).gap), ScanFrom(after));
    }
  }

  lemma TailWithoutBlocks(s: string)
    requires ScanFrom(s).blocks == []
    ensures TailOk(ScanFrom(s))
  {
    hide MatchBegin, MatchEnd;
    NothingIsFree();
    if FindFirst(s, Begins, 0).Some? {
      var n := FindFirst(s, Begins, 0).value;
      assert Begins(s[n..]);
    }
  }

  lemma TailBehindBlock(gap: string, b: Block, next: Scan)
    requires TailOk(next) && b.following == next.gap
    ensures TailOk(Scan(gap, [b] + next.blocks, next.epilogue))
  {
    hide BeginFree;
  }

  lemma NothingIsFree()
    ensures BeginFree("")
  {
    hide MatchBegin;
    NoMatchAtNewline("", "");
  }

  /**
   What comes behind the last block is the epilogue when it opens no further block;
   when it does, the block is not closed, and all of it stays with the last block.
   */
  lemma {:induction false} TextBehindBlocks(text: string)
    ensures var doc := Parsed(text);
      && BeginFree(doc.epilogue)
      && (doc.blocks != [] ==>
            var last := doc.blocks[|doc.blocks| - 1].following;
            (last == "" || doc.epilogue == "") && (last != "" ==> !BeginFree(last)))
      && (doc.blocks == [] ==> doc == ParsedDoc(text, [], ""))
  {
    hide ScanFrom, BeginFree;
    NothingIsFree();
    ScanTail(text);
    ScanShape(text);
    assert text + "" == text;
  }
}
