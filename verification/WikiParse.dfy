/** `wikiparse.go`: recovering CURATOR blocks from the text of a page. */
module WikiParse {
  import opened Wrappers
  import opened Markers

  datatype Block = Block(id: string, zone: string, provenance: string, body: string, following: string)

  datatype ParsedDoc = ParsedDoc(prologue: string, blocks: seq<Block>, epilogue: string) {
    /** The first block with the given ID. */
    function BlockByID(id: string): Option<Block> {
      FirstWithID(blocks, id)
    }
  }

  function FirstWithID(blocks: seq<Block>, id: string): (r: Option<Block>)
    ensures r.Some? ==> r.value in blocks && r.value.id == id
    ensures r.Some? ==>
      exists k :: 0 <= k < |blocks| && blocks[k] == r.value && forall i :: 0 <= i < k ==> blocks[i].id != id
    ensures r.None? ==> forall b <- blocks :: b.id != id
  {
    if blocks == [] then None
    else if blocks[0].id == id then Some(blocks[0])
    else
      assert forall i :: 1 <= i < |blocks| ==> blocks[i] == blocks[1..][i - 1];
      FirstWithID(blocks[1..], id)
  }

  function TrimPrefix(s: string): string {
    if s != "" && s[0] == '\n' then s[1..] else s
  }

  function TrimSuffix(s: string): string {
    if s != "" && s[|s| - 1] == '\n' then s[..|s| - 1] else s
  }

  /** One newline less at each end. */
  function TrimBody(s: string): string {
    TrimSuffix(TrimPrefix(s))
  }

  /* ----- specification ----- */

  /**
   What a text contains from some position on: the text that belongs to
   whatever came before it, the blocks, and the epilogue.
   */
  datatype Scan = Scan(gap: string, blocks: seq<Block>, epilogue: string)

  function MakeBlock(begin: Begin, inner: string, following: string): Block {
    Block(begin.id, AttrValue(begin.attrs, "zone"), AttrValue(begin.attrs, "provenance"), TrimBody(inner), following)
  }

  function ScanFrom(s: string): Scan
    decreases |s|
  {
    match FindFirst(s, Begins, 0)
    case None => Scan("", [], s)
    case Some(n) =>
      var begin := MatchBegin(s[n..]).value;
      match FindFirst(begin.rest, Ends(begin.id), 0)
      case None => Scan(s, [], "")
      case Some(e) =>
        var next := ScanFrom(MatchEnd(begin.rest[e..], begin.id).value);
        Scan(s[..n], [MakeBlock(begin, begin.rest[..e], next.gap)] + next.blocks, next.epilogue)
  }

  /** `blocks` with `gap` appended to the text that follows the last one. */
  function Attach(blocks: seq<Block>, gap: string): seq<Block>
    requires blocks != []
  {
    var last := blocks[|blocks| - 1];
    blocks[|blocks| - 1 := last.(following := last.following + gap)]
  }

  /** The document that results when `s` is still to be read after `doc`. */
  function Resume(doc: ParsedDoc, s: string): ParsedDoc {
    var scan := ScanFrom(s);
    if doc.blocks == [] then
      if scan.blocks == [] then ParsedDoc(s, [], "")
      else ParsedDoc(scan.gap, scan.blocks, scan.epilogue)
    else
      ParsedDoc(doc.prologue, Attach(doc.blocks, scan.gap) + scan.blocks, scan.epilogue)
  }

  function Parsed(text: string): ParsedDoc {
    Resume(ParsedDoc("", [], ""), text)
  }

  /* ----- the parser ----- */

  lemma AttachNothing(blocks: seq<Block>)
    requires blocks != []
    ensures Attach(blocks, "") == blocks
  {
    assert blocks[|blocks| - 1].following + "" == blocks[|blocks| - 1].following;
  }

  lemma EmptyText()
    ensures Parsed("") == ParsedDoc("", [], "")
  {
    assert !Begins(""[0..]);
  }

  /** `doc` as the loop of `Parse` holds it when it still has `s` to read. */
  predicate AtLoopHead(doc: ParsedDoc, s: string, text: string) {
    && doc.epilogue == ""
    && (doc.blocks == [] ==> s == text && doc.prologue == "")
    && (doc.blocks != [] ==> doc.blocks[|doc.blocks| - 1].following == "")
    && Resume(doc, s) == Parsed(text)
  }

  lemma StopNoBegin(doc: ParsedDoc, s: string, text: string)
    requires AtLoopHead(doc, s, text) && FindFirst(s, Begins, 0).None?
    ensures Parsed(text) == if doc.blocks == [] then doc.(prologue := s) else doc.(epilogue := s)
    ensures doc.blocks != [] ==> doc.blocks[|doc.blocks| - 1].following == ""
  {
    if doc.blocks != [] {
      AttachNothing(doc.blocks);
    }
  }

  lemma StopUnclosed(doc: ParsedDoc, s: string, text: string)
    requires AtLoopHead(doc, s, text) && FindFirst(s, Begins, 0).Some?
    requires var b := MatchBegin(s[FindFirst(s, Begins, 0).value..]).value; FindFirst(b.rest, Ends(b.id), 0).None?
    ensures Parsed(text) == if doc.blocks == [] then doc.(prologue := doc.prologue + s)
      else doc.(blocks := Attach(doc.blocks, s))
  {
    hide MatchBegin, MatchEnd;
  }

  lemma {:induction false} ScanClosed(s: string, n: nat, b: Begin, e: nat, after: string)
    requires FindFirst(s, Begins, 0) == Some(n) && MatchBegin(s[n..]) == Some(b)
    requires FindFirst(b.rest, Ends(b.id), 0) == Some(e) && MatchEnd(b.rest[e..], b.id) == Some(after)
    ensures |after| < |s| && IsSuffix(after, s)
    ensures var next := ScanFrom(after);
      ScanFrom(s) == Scan(s[..n], [MakeBlock(b, b.rest[..e], next.gap)] + next.blocks, next.epilogue)
  {
    hide MatchBegin, MatchEnd;
    SuffixTransitive(after, b.rest[e..], b.rest);
    SuffixTransitive(after, b.rest, s[n..]);
    SuffixTransitive(after, s[n..], s);
  }

  /** `doc` once the block that starts after `gap` has been read. */
  function Accept(doc: ParsedDoc, gap: string, block: Block): ParsedDoc {
    var d := if doc.blocks == [] then doc.(prologue := doc.prologue + gap)
             else doc.(blocks := Attach(doc.blocks, gap));
    d.(blocks := d.blocks + [block])
  }

  lemma {:induction false} ResumeClosed(
      doc: ParsedDoc, s: string, text: string, n: nat, b: Begin, e: nat, after: string)
    requires AtLoopHead(doc, s, text)
    requires FindFirst(s, Begins, 0) == Some(n) && MatchBegin(s[n..]) == Some(b)
    requires FindFirst(b.rest, Ends(b.id), 0) == Some(e) && MatchEnd(b.rest[e..], b.id) == Some(after)
    ensures |after| < |s| && IsSuffix(after, s)
    ensures AtLoopHead(Accept(doc, s[..n], MakeBlock(b, b.rest[..e], "")), after, text)
  {
    hide MatchBegin, MatchEnd, ScanFrom;
    ScanClosed(s, n, b, e, after);
    var next := ScanFrom(after);
    var block := MakeBlock(b, b.rest[..e], "");
    var d := Accept(doc, s[..n], block);
    var prior := if doc.blocks == [] then [] else Attach(doc.blocks, s[..n]);
    assert "" + next.gap == next.gap;
    assert Attach(d.blocks, next.gap) + next.blocks == prior + ([MakeBlock(b, b.rest[..e], next.gap)] + next.blocks);
    assert doc.blocks == [] ==> "" + s[..n] == s[..n];
  }

  method Parse(content: string) returns (doc: ParsedDoc)
    ensures doc == Parsed(content)
  {
    hide *;
    doc := ParsedDoc("", [], "");
    if |content| == 0 {
      EmptyText();
      return;
    }
    var pos := 0;
    StartsAtLoopHead(content);
    assert content[pos..] == content;
    while true
      invariant 0 <= pos <= |content|
      invariant AtLoopHead(doc, content[pos..], content)
      decreases |content| - pos
    {
      var text := content[pos..];
      var loc := FindFirst(text, Begins, 0);
      if loc.None? {
        StopNoBegin(doc, text, content);
        if |doc.blocks| == 0 {
          doc := doc.(prologue := text);
        } else {
          doc := doc.(epilogue := text);
          var last := |doc.blocks| - 1;
          doc := doc.(blocks := doc.blocks[last := doc.blocks[last].(following := "")]);
        }
        return;
      }
      BeginsAt(text[loc.value..]);
      var begin := MatchBegin(text[loc.value..]).value;
      var interstitial := text[..loc.value];
      var end := FindFirst(begin.rest, Ends(begin.id), 0);
      if end.None? {
        StopUnclosed(doc, text, content);
        var rest := text[loc.value..];
        assert interstitial + rest == text;
        assert doc.prologue + interstitial + rest == doc.prologue + text;
        if |doc.blocks| == 0 {
          doc := doc.(prologue := doc.prologue + interstitial + rest);
        } else {
          AttachTwice(doc.blocks, interstitial, rest);
          doc := doc.(blocks := Attach(Attach(doc.blocks, interstitial), rest));
        }
        return;
      }
      EndsAt(begin.rest[end.value..], begin.id);
      var after := MatchEnd(begin.rest[end.value..], begin.id).value;
      ResumeClosed(doc, text, content, loc.value, begin, end.value, after);
      SuffixTransitive(after, text, content);
      var block := MakeBlock(begin, begin.rest[..end.value], "");
      AcceptIs(doc, interstitial, block);
      if |doc.blocks| == 0 {
        doc := doc.(prologue := doc.prologue + interstitial);
      } else {
        doc := doc.(blocks := Attach(doc.blocks, interstitial));
      }
      doc := doc.(blocks := doc.blocks + [block]);
      assert content[|content| - |after|..] == after by { SuffixIs(after, content); }
      pos := |content| - |after|;
    }
  }

  lemma BeginsAt(s: string)
    requires Begins(s)
    ensures MatchBegin(s).Some?
  {}

  lemma EndsAt(s: string, id: string)
    requires Ends(id)(s)
    ensures MatchEnd(s, id).Some?
  {}

  lemma AcceptIs(doc: ParsedDoc, gap: string, block: Block)
    ensures doc.blocks == [] ==>
      Accept(doc, gap, block) == doc.(prologue := doc.prologue + gap, blocks := doc.blocks + [block])
    ensures doc.blocks != [] ==>
      Accept(doc, gap, block) == doc.(blocks := Attach(doc.blocks, gap) + [block])
  {}

  lemma SuffixIs(r: string, s: string)
    requires IsSuffix(r, s)
    ensures |r| <= |s| && s[|s| - |r|..] == r
  {}

  lemma StartsAtLoopHead(text: string)
    ensures AtLoopHead(ParsedDoc("", [], ""), text, text)
  {}

  lemma AttachTwice(blocks: seq<Block>, a: string, b: string)
    requires blocks != []
    ensures Attach(blocks, a) != [] && Attach(Attach(blocks, a), b) == Attach(blocks, a + b)
  {
    var f := blocks[|blocks| - 1].following;
    assert f + a + b == f + (a + b);
  }
}
