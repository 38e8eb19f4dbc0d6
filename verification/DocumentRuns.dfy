/** A run that renders a document onto a page which humans have edited. */
module DocumentRuns {
  import opened Wiki
  import opened Orchestrator
  import opened Protocol
  import opened RenderedPage
  import IR
  import Markdown
  import Merge
  import WikiParse
  import ZoneMarkers

  /**
   After the run, the hashed blocks of the document are on the page, in order.  The text
   that a human gave to prose, or to a callout that no machine wrote, is still there when
   the block was rendered from the same inputs; all other text is that of the document.
   */
  lemma {:induction false} HumanTextSurvivesRun(
      w: World, identity: string, spec: string, title: string, commit: string, id: string,
      front: IR.Frontmatter, sections: seq<IR.Section>, footer: IR.Footer)
    requires Aligned(w.pages) && PageAt(w.pages, title).Some?
    requires MarkableSections(sections, 0) && PlainFront(front) && PlainFooter(footer)
    ensures
      var render := Markdown.DocumentText(front, WrapAll(sections, 0), footer);
      var page := PageAt(Pushed(w, identity, spec, title, render, commit, id).pages, title);
      var items := Items(sections, 0);
      page.Some? &&
      var blocks := WikiParse.Parsed(page.value.content).blocks;
      && |blocks| == |items|
      && forall i :: 0 <= i < |items| ==>
           var human := HumanBody(WikiParse.Parsed(PageAt(w.pages, title).value.content), items[i]);
           && blocks[i].id == ZoneMarkers.PlainID(items[i].b, items[i].s, items[i].k)
           && blocks[i].body ==
                if ZoneMarkers.IsEditorial(items[i].b) && human.Some? then human.value
                else "\n" + Markdown.BlockText(items[i].b)
  {
    hide WikiParse.Parsed, Items, MarkableSections, Merge.Merged, ZoneMarkers.PlainID, Markdown.BlockText, PlainFront,
      PlainFooter, Markdown.HeadText, Markdown.FooterText, Markdown.SectionsText, Pushed, HumanBody, CleanFrame;
    var render := Markdown.DocumentText(front, WrapAll(sections, 0), footer);
    ContentAfterRun(w, identity, spec, title, render, commit, id);
    FrameIsClean(front, footer);
    DocumentOntoPage(
      Markdown.HeadText(front), sections, Markdown.FooterText(footer), PageAt(w.pages, title).value.content);
  }

  lemma FrameIsClean(front: IR.Frontmatter, footer: IR.Footer)
    requires PlainFront(front) && PlainFooter(footer)
    ensures CleanFrame(Markdown.HeadText(front), Markdown.FooterText(footer))
  {
    hide Markdown.HeadText, Markdown.FooterText;
    HeadIsClean(front);
    FooterIsClean(footer);
  }
}
