/** `markdown.go`: printing sections as GitHub-flavoured markdown. */
module Markdown {
  import opened Wrappers
  import opened IR
  import opened Text

  /* ----- what each block prints ----- */

  function WithoutFinalNewlines(s: string): string {
    TrimRight(s, IsNewline)
  }

  function BlockText(b: Block): string {
    match b
    case ProseBlock(text, _) => WithoutFinalNewlines(text) + "\n"
    case MachineBlock(_, _, body, _) => WithoutFinalNewlines(body) + "\n"
    case MarkerBlock(position, id, prov, ofZone) => MarkerText(position, id, prov, ofZone)
    case KBRefBlock(area, id, _, _) => "[kb:" + area + "/" + id + "]\n"
    case TableBlock(columns, rows, _) => TableText(columns, rows)
    case IndexBlock(entries, _) => EntriesText(entries) + "\n"
    case CategoryBlock(names, _) => CategoriesText(names)
    case DiagramBlock(lang, source, assetRef, _) =>
      if assetRef != "" then "![](" + assetRef + ")\n"
      else "```" + lang + "\n" + WithoutFinalNewlines(source) + "\n```\n"
    case Callout(severity, body, _, _) => CalloutText(severity, body)
    case EscapeHatch(backend, raw, _) => if backend != "markdown" then "" else WithoutFinalNewlines(raw) + "\n"
  }

  function MarkerText(position: MarkerPosition, id: string, prov: Provenance, ofZone: string): string {
    match position
    case MarkerBegin =>
      "<!-- CURATOR:BEGIN block=" + id + " zone=" + (if ofZone == "" then "machine" else ofZone)
      + " provenance=" + prov.inputHash + " -->\n"
    case MarkerEnd => "<!-- CURATOR:END block=" + id + " -->\n"
  }

  function Repeat(s: string, n: nat): string {
    if n == 0 then "" else s + Repeat(s, n - 1)
  }

  /** A row with exactly `n` cells. */
  function PadRow(row: seq<string>, n: nat): (r: seq<string>)
    ensures |r| == n
    ensures forall i :: 0 <= i < n ==> r[i] == if i < |row| then row[i] else ""
  {
    if |row| >= n then row[..n] else row + seq(n - |row|, _ => "")
  }

  function RowText(cells: seq<string>): string {
    "| " + Join(cells, " | ") + " |\n"
  }

  function RowsText(rows: seq<seq<string>>, n: nat): string {
    if rows == [] then "" else RowText(PadRow(rows[0], n)) + RowsText(rows[1..], n)
  }

  function EntryText(e: IndexEntry): string {
    "- [" + (if e.text == "" then e.page else e.text) + "](" + e.page + ")"
    + (if e.desc != "" then " \U{2014} " + e.desc else "") + "\n"
  }

  function EntriesText(entries: seq<IndexEntry>): string {
    if entries == [] then "" else EntryText(entries[0]) + EntriesText(entries[1..])
  }

  function KeptNames(names: seq<string>): seq<string> {
    if names == [] then []
    else
      var n := TrimSpace(names[0]);
      (if n != "" then [n] else []) + KeptNames(names[1..])
  }

  function QuotedText(lines: seq<string>): string {
    if lines == [] then "" else "> " + lines[0] + "\n" + QuotedText(lines[1..])
  }

  function TableText(columns: seq<string>, rows: seq<seq<string>>): string {
    if columns == [] then ""
    else RowText(columns) + "|" + Repeat(" --- |", |columns|) + "\n" + RowsText(rows, |columns|)
  }

  function CategoriesText(names: seq<string>): string {
    var kept := KeptNames(names);
    if kept == [] then "" else "_Categories: " + Join(kept, ", ") + "_\n"
  }

  function CalloutText(severity: string, body: string): string {
    (if severity != "" then "> **" + severity + "**\n>\n" else "") + QuotedText(Split(WithoutFinalNewlines(body)))
  }

  function BlocksText(blocks: seq<Block>): string {
    if blocks == [] then "" else BlockText(blocks[0]) + "\n" + BlocksText(blocks[1..])
  }

  function HeadingText(heading: string): string {
    if heading == "" then "" else "## " + heading + "\n\n"
  }

  function SectionText(sec: Section): string {
    HeadingText(sec.heading) + BlocksText(sec.blocks)
  }

  function SectionsText(sections: seq<Section>): string {
    if sections == [] then "" else SectionText(sections[0]) + SectionsText(sections[1..])
  }

  function LineIf(name: string, value: string): string {
    if value == "" then "" else name + value + "\n"
  }

  function FrontmatterText(f: Frontmatter): string {
    "---\n" + LineIf("title: ", f.title) + LineIf("spec_hash: ", f.specHash) + LineIf("kb_commit: ", f.kbCommit)
    + LineIf("generated_at: ", f.generatedAt) + "---\n"
  }

  /** What stands before the sections. */
  function HeadText(f: Frontmatter): string {
    FrontmatterText(f) + "\n" + (if f.title == "" then "" else "# " + f.title + "\n\n")
  }

  function FooterText(f: Footer): string {
    if f.runID == "" && f.kbCommit == "" && f.lastCurated == "" then ""
    else "\n<!-- mykb-curator footer\n" + LineIf("  run-id: ", f.runID) + LineIf("  kb-commit: ", f.kbCommit)
         + LineIf("  last-curated: ", f.lastCurated) + "-->\n"
  }

  function DocumentText(front: Frontmatter, sections: seq<Section>, footer: Footer): string {
    HeadText(front) + SectionsText(sections) + FooterText(footer)
  }

  /* ----- the writers ----- */

  class Buffer {
    var text: string

    constructor ()
      ensures text == ""
    {
      text := "";
    }

    method WriteString(s: string)
      modifies this
      ensures text == old(text) + s
    {
      text := text + s;
    }
  }

  method WriteMarkerBlock(buf: Buffer, position: MarkerPosition, id: string, prov: Provenance, ofZone: string)
    modifies buf
    ensures buf.text == old(buf.text) + MarkerText(position, id, prov, ofZone)
  {
    match position {
      case MarkerBegin =>
        var zone := ofZone;
        if zone == "" {
          zone := "machine";
        }
        buf.WriteString("<!-- CURATOR:BEGIN block=" + id + " zone=" + zone + " provenance=" + prov.inputHash
          + " -->\n");
      case MarkerEnd =>
        buf.WriteString("<!-- CURATOR:END block=" + id + " -->\n");
    }
  }

  method WriteIndex(buf: Buffer, entries: seq<IndexEntry>)
    modifies buf
    ensures buf.text == old(buf.text) + (EntriesText(entries) + "\n")
  {
    hide EntryText;
    ghost var start := buf.text;
    assert entries[0..] == entries;
    for i := 0 to |entries|
      invariant buf.text + EntriesText(entries[i..]) == start + EntriesText(entries)
    {
      assert entries[i..][1..] == entries[i + 1..];
      ghost var before := buf.text;
      buf.WriteString(EntryText(entries[i]));
      Associates(before, EntryText(entries[i]), EntriesText(entries[i + 1..]));
    }
    assert entries[|entries|..] == [] && buf.text + "" == buf.text;
    buf.WriteString("\n");
    Associates(start, EntriesText(entries), "\n");
  }

  method WriteTable(buf: Buffer, columns: seq<string>, rows: seq<seq<string>>)
    modifies buf
    ensures buf.text == old(buf.text) + TableText(columns, rows)
  {
    hide RowText, PadRow;
    if |columns| == 0 {
      assert buf.text + "" == buf.text;
      return;
    }
    ghost var start, head, n := buf.text, RowText(columns), |columns|;
    buf.WriteString(RowText(columns));
    buf.WriteString("|");
    ghost var mark := buf.text;
    for i := 0 to |columns|
      invariant buf.text + Repeat(" --- |", n - i) == mark + Repeat(" --- |", n)
    {
      ghost var before := buf.text;
      buf.WriteString(" --- |");
      Associates(before, " --- |", Repeat(" --- |", n - i - 1));
    }
    assert buf.text + "" == buf.text;
    buf.WriteString("\n");
    ghost var bar := buf.text;
    assert rows[0..] == rows;
    for i := 0 to |rows|
      invariant buf.text + RowsText(rows[i..], n) == bar + RowsText(rows, n)
    {
      assert rows[i..][1..] == rows[i + 1..];
      ghost var before := buf.text;
      buf.WriteString(RowText(PadRow(rows[i], |columns|)));
      Associates(before, RowText(PadRow(rows[i], n)), RowsText(rows[i + 1..], n));
    }
    assert rows[|rows|..] == [] && buf.text + "" == buf.text;
    TablePieces(start, head, Repeat(" --- |", n), RowsText(rows, n));
  }

  lemma TablePieces(start: string, head: string, dashes: string, rows: string)
    ensures start + head + "|" + dashes + "\n" + rows == start + (head + "|" + dashes + "\n" + rows)
  {
    assert start + head + "|" == start + (head + "|");
    assert start + (head + "|") + dashes + "\n" == start + (head + "|" + dashes + "\n");
  }

  lemma NothingKept()
    ensures KeptNames([]) == []
  {}

  lemma KeptMore(all: seq<string>, i: nat, names: seq<string>)
    requires i < |all|
    ensures var n := TrimSpace(all[i]);
      names + KeptNames(all[i..]) == (if n != "" then names + [n] else names) + KeptNames(all[i + 1..])
  {
    hide TrimSpace;
    assert all[i..][1..] == all[i + 1..];
  }

  method WriteCategories(buf: Buffer, all: seq<string>)
    modifies buf
    ensures buf.text == old(buf.text) + CategoriesText(all)
  {
    hide Join, TrimSpace, KeptNames;
    var names := [];
    assert all[0..] == all;
    for i := 0 to |all|
      invariant names + KeptNames(all[i..]) == KeptNames(all) && buf.text == old(buf.text)
    {
      KeptMore(all, i, names);
      var n := TrimSpace(all[i]);
      if n != "" {
        names := names + [n];
      }
    }
    NothingKept();
    assert all[|all|..] == [] && names + [] == names;
    assert names == KeptNames(all);
    if |names| == 0 {
      assert buf.text + "" == buf.text;
      return;
    }
    buf.WriteString("_Categories: " + Join(names, ", ") + "_\n");
  }

  method WriteCallout(buf: Buffer, severity: string, body: string)
    modifies buf
    ensures buf.text == old(buf.text) + CalloutText(severity, body)
  {
    hide WithoutFinalNewlines, Split;
    ghost var start := buf.text;
    ghost var head := if severity != "" then "> **" + severity + "**\n>\n" else "";
    if severity != "" {
      buf.WriteString("> **" + severity + "**\n>\n");
    }
    assert buf.text == start + head;
    var lines := Split(WithoutFinalNewlines(body));
    assert lines[0..] == lines;
    for i := 0 to |lines|
      invariant buf.text + QuotedText(lines[i..]) == start + head + QuotedText(lines)
    {
      assert lines[i..][1..] == lines[i + 1..];
      ghost var before := buf.text;
      buf.WriteString("> " + lines[i] + "\n");
      Associates(before, "> " + lines[i] + "\n", QuotedText(lines[i + 1..]));
    }
    assert lines[|lines|..] == [] && buf.text + "" == buf.text;
    Associates(start, head, QuotedText(lines));
  }

  method WriteBlock(buf: Buffer, blk: Block)
    modifies buf
    ensures buf.text == old(buf.text) + BlockText(blk)
  {
    hide WithoutFinalNewlines, TableText, EntriesText, CategoriesText, CalloutText, MarkerText;
    match blk {
      case TableBlock(columns, rows, _) => WriteTable(buf, columns, rows);
      case IndexBlock(entries, _) => WriteIndex(buf, entries);
      case CategoryBlock(names, _) => WriteCategories(buf, names);
      case Callout(severity, body, _, _) => WriteCallout(buf, severity, body);
      case ProseBlock(text, _) =>
        buf.WriteString(WithoutFinalNewlines(text));
        buf.WriteString("\n");
      case MachineBlock(_, _, body, _) =>
        buf.WriteString(WithoutFinalNewlines(body));
        buf.WriteString("\n");
      case MarkerBlock(position, id, prov, ofZone) => WriteMarkerBlock(buf, position, id, prov, ofZone);
      case KBRefBlock(area, id, _, _) => buf.WriteString("[kb:" + area + "/" + id + "]\n");
      case DiagramBlock(lang, source, assetRef, _) =>
        if assetRef != "" {
          buf.WriteString("![](" + assetRef + ")\n");
          return;
        }
        buf.WriteString("```" + lang + "\n" + WithoutFinalNewlines(source) + "\n```\n");
      case EscapeHatch(backend, raw, _) =>
        if backend != "markdown" {
          return;
        }
        buf.WriteString(WithoutFinalNewlines(raw));
        buf.WriteString("\n");
    }
  }

  lemma MoreBlocks(start: string, before: string, blocks: seq<Block>, i: nat)
    requires i < |blocks| && before + BlocksText(blocks[i..]) == start + BlocksText(blocks)
    ensures before + BlockText(blocks[i]) + "\n" + BlocksText(blocks[i + 1..]) == start + BlocksText(blocks)
  {
    hide BlockText;
    assert blocks[i..][1..] == blocks[i + 1..];
    Behind3(before, BlockText(blocks[i]), "\n", BlocksText(blocks[i + 1..]));
  }

  lemma Behind3(a: string, x: string, y: string, b: string)
    ensures a + x + y + b == a + (x + y + b)
  {
    assert a + x + y == a + (x + y);
    assert a + (x + y) + b == a + (x + y + b);
  }

  method WriteSection(buf: Buffer, sec: Section)
    modifies buf
    ensures buf.text == old(buf.text) + SectionText(sec)
  {
    hide BlockText, BlocksText;
    if sec.heading != "" {
      buf.WriteString("## " + sec.heading + "\n\n");
    }
    ghost var start := buf.text;
    assert start == old(buf.text) + HeadingText(sec.heading);
    assert sec.blocks[0..] == sec.blocks;
    for i := 0 to |sec.blocks|
      invariant buf.text + BlocksText(sec.blocks[i..]) == start + BlocksText(sec.blocks)
    {
      MoreBlocks(start, buf.text, sec.blocks, i);
      WriteBlock(buf, sec.blocks[i]);
      buf.WriteString("\n");
    }
    NoBlocksLeft(sec.blocks, buf.text);
    Associates(old(buf.text), HeadingText(sec.heading), BlocksText(sec.blocks));
  }

  lemma NoBlocksLeft(blocks: seq<Block>, text: string)
    ensures text + BlocksText(blocks[|blocks|..]) == text
  {
    assert blocks[|blocks|..] == [];
  }

  method WriteSections(buf: Buffer, sections: seq<Section>)
    modifies buf
    ensures buf.text == old(buf.text) + SectionsText(sections)
  {
    hide SectionText;
    ghost var start := buf.text;
    for i := 0 to |sections|
      invariant buf.text + SectionsText(sections[i..]) == start + SectionsText(sections)
    {
      assert sections[i..][1..] == sections[i + 1..];
      ghost var before := buf.text;
      WriteSection(buf, sections[i]);
      Associates(before, SectionText(sections[i]), SectionsText(sections[i + 1..]));
    }
    assert sections[|sections|..] == [];
    assert buf.text + "" == buf.text;
  }

  method WriteLineIf(buf: Buffer, name: string, value: string)
    modifies buf
    ensures buf.text == old(buf.text) + LineIf(name, value)
  {
    if value != "" {
      buf.WriteString(name + value + "\n");
    } else {
      assert buf.text + "" == buf.text;
    }
  }

  method WriteFrontmatter(buf: Buffer, f: Frontmatter)
    modifies buf
    ensures buf.text == old(buf.text) + FrontmatterText(f)
  {
    hide LineIf;
    ghost var start := buf.text;
    buf.WriteString("---\n");
    WriteLineIf(buf, "title: ", f.title);
    WriteLineIf(buf, "spec_hash: ", f.specHash);
    WriteLineIf(buf, "kb_commit: ", f.kbCommit);
    WriteLineIf(buf, "generated_at: ", f.generatedAt);
    buf.WriteString("---\n");
    Behind6(start, "---\n", LineIf("title: ", f.title), LineIf("spec_hash: ", f.specHash),
            LineIf("kb_commit: ", f.kbCommit), LineIf("generated_at: ", f.generatedAt), "---\n");
  }

  lemma Behind6(start: string, a: string, b: string, c: string, d: string, e: string, f: string)
    ensures start + a + b + c + d + e + f == start + (a + b + c + d + e + f)
  {
    Behind3(start, a, b, c);
    Behind3(start, a + b + c, d, e);
  }

  method WriteFooter(buf: Buffer, f: Footer)
    modifies buf
    ensures buf.text == old(buf.text) + FooterText(f)
  {
    hide LineIf;
    ghost var start := buf.text;
    if f.runID == "" && f.kbCommit == "" && f.lastCurated == "" {
      assert buf.text + "" == buf.text;
      return;
    }
    buf.WriteString("\n<!-- mykb-curator footer\n");
    WriteLineIf(buf, "  run-id: ", f.runID);
    WriteLineIf(buf, "  kb-commit: ", f.kbCommit);
    WriteLineIf(buf, "  last-curated: ", f.lastCurated);
    buf.WriteString("-->\n");
    Behind6(start, "\n<!-- mykb-curator footer\n", LineIf("  run-id: ", f.runID), LineIf("  kb-commit: ", f.kbCommit),
            LineIf("  last-curated: ", f.lastCurated), "-->\n", "");
    assert buf.text + "" == buf.text;
  }

  method Render(doc: Document) returns (text: string)
    ensures text == DocumentText(doc.frontmatter, doc.sections[..], doc.footer)
  {
    hide FrontmatterText, SectionsText, FooterText;
    var buf := new Buffer();
    WriteFrontmatter(buf, doc.frontmatter);
    buf.WriteString("\n");
    if doc.frontmatter.title != "" {
      buf.WriteString("# " + doc.frontmatter.title + "\n\n");
    }
    assert buf.text == HeadText(doc.frontmatter);
    WriteSections(buf, doc.sections[..]);
    WriteFooter(buf, doc.footer);
    return buf.text;
  }
}
