/** What the markdown backend prints, line by line, and what can be read off it. */
module MarkdownText {
  import opened IR
  import opened Text
  import opened Markdown

  /* ----- tables ----- */

  /** A cell with the blanks around it. */
  function Padded(cells: seq<string>): (r: seq<string>)
    ensures |r| == |cells| && forall i :: 0 <= i < |r| ==> r[i] == " " + cells[i] + " "
  {
    seq(|cells|, i requires 0 <= i < |cells| => " " + cells[i] + " ")
  }

  /** A table row: a bar, and every cell ended by a bar. */
  function CellsLine(cells: seq<string>): string {
    "|" + Terminated(cells, '|') + "\n"
  }

  lemma {:induction false} JoinedCells(cells: seq<string>)
    requires cells != []
    ensures " " + Join(cells, " | ") + " |" == Terminated(Padded(cells), '|')
  {
    var p := Padded(cells);
    if |cells| == 1 {
      assert p[1..] == [];
      assert Terminated(p, '|') == p[0] + ['|'] + "";
    } else {
      assert p[1..] == Padded(cells[1..]);
      JoinedCells(cells[1..]);
      var rest := Join(cells[1..], " | ");
      assert " " + (cells[0] + " | " + rest) + " |" == " " + cells[0] + " " + ['|'] + (" " + rest + " |");
    }
  }

  lemma RowIsCells(cells: seq<string>)
    requires cells != []
    ensures RowText(cells) == CellsLine(Padded(cells))
  {
    hide Join, Terminated;
    JoinedCells(cells);
    var j := Join(cells, " | ");
    assert "| " + j + " |\n" == "|" + (" " + j + " |") + "\n";
  }

  /** Cells without bars can be read off their row. */
  lemma {:induction false} RowReadsBack(a: seq<string>, b: seq<string>)
    requires a != [] && b != [] && Free('|', a) && Free('|', b) && RowText(a) == RowText(b)
    ensures a == b
  {
    hide Terminated, RowText;
    RowIsCells(a);
    RowIsCells(b);
    var x, y := Terminated(Padded(a), '|'), Terminated(Padded(b), '|');
    assert x == ("|" + x + "\n")[1..|x| + 1] && y == ("|" + y + "\n")[1..|y| + 1];
    TerminatedApart(Padded(a), Padded(b), '|');
    forall i | 0 <= i < |a| ensures a[i] == b[i] {
      assert Padded(a)[i][1..|a[i]| + 1] == a[i] && Padded(b)[i][1..|b[i]| + 1] == b[i];
    }
  }

  lemma {:induction false} DashesAreCells(n: nat)
    ensures Repeat(" --- |", n) == Terminated(seq(n, _ => " --- "), '|')
  {
    if n > 0 {
      DashesAreCells(n - 1);
      assert seq(n, _ => " --- ")[1..] == seq(n - 1, _ => " --- ");
      assert " --- " + ['|'] == " --- |";
    }
  }

  /** The rows, cut or filled up with empty cells to the number of columns. */
  function TableLines(rows: seq<seq<string>>, n: nat): string {
    if rows == [] then ""
    else
      var row := seq(n, i requires i >= 0 => if i < |rows[0]| then rows[0][i] else "");
      CellsLine(Padded(row)) + TableLines(rows[1..], n)
  }

  lemma {:induction false} RowsAreLines(rows: seq<seq<string>>, n: nat)
    requires n > 0
    ensures RowsText(rows, n) == TableLines(rows, n)
  {
    hide RowText, CellsLine, Padded;
    if rows != [] {
      RowsAreLines(rows[1..], n);
      var row := seq(n, i requires i >= 0 => if i < |rows[0]| then rows[0][i] else "");
      assert PadRow(rows[0], n) == row;
      RowIsCells(row);
    }
  }

  /** A table is its header, a line of dashes with as many cells, and its rows with as many cells each. */
  lemma {:induction false} TableMeaning(columns: seq<string>, rows: seq<seq<string>>, prov: Provenance)
    ensures BlockText(TableBlock(columns, rows, prov)) ==
      if columns == [] then ""
      else CellsLine(Padded(columns)) + CellsLine(seq(|columns|, _ => " --- ")) + TableLines(rows, |columns|)
  {
    hide RowText, RowsText, Repeat, Terminated, Padded, TableLines;
    if columns != [] {
      RowIsCells(columns);
      DashesAreCells(|columns|);
      RowsAreLines(rows, |columns|);
      var head, dashes := RowText(columns), Repeat(" --- |", |columns|);
      assert head + "|" + dashes + "\n" == head + ("|" + dashes + "\n");
    }
  }

  /* ----- link lists ----- */

  /** One entry: a link to its page, named by its text or else by the page, and a description if there is one. */
  function EntryLine(e: IndexEntry): string {
    LinkText(if e.text != "" then e.text else e.page, e.page)
    + (if e.desc == "" then "" else " \U{2014} " + e.desc)
  }

  function LinkText(name: string, target: string): string {
    "- [" + name + "](" + target + ")"
  }

  /** Name and target of a link are read off it, when they hold no closing bracket. */
  lemma {:induction false} LinkReadsBack(a: string, x: string, r: string, b: string, y: string, s: string)
    requires ']' !in a && ']' !in b && ')' !in x && ')' !in y
    requires LinkText(a, x) + r == LinkText(b, y) + s
    ensures a == b && x == y && r == s
  {
    var t := LinkText(a, x) + r;
    assert t == "- [" + (a + [']'] + ("(" + (x + [')'] + r))) && t == "- [" + (b + [']'] + ("(" + (y + [')'] + s)));
    assert t[3..] == a + [']'] + ("(" + (x + [')'] + r)) && t[3..] == b + [']'] + ("(" + (y + [')'] + s));
    CutAt(a, "(" + (x + [')'] + r), b, "(" + (y + [')'] + s), ']');
    assert ("(" + (x + [')'] + r))[1..] == x + [')'] + r && ("(" + (y + [')'] + s))[1..] == y + [')'] + s;
    CutAt(x, r, y, s, ')');
  }

  function EntryLines(entries: seq<IndexEntry>): (r: seq<string>)
    ensures |r| == |entries| && forall i :: 0 <= i < |r| ==> r[i] == EntryLine(entries[i])
  {
    seq(|entries|, i requires 0 <= i < |entries| => EntryLine(entries[i]))
  }

  lemma EntryIsLine(e: IndexEntry)
    ensures EntryText(e) == EntryLine(e) + "\n"
  {
    var name := if e.text == "" then e.page else e.text;
    assert "- [" + name + "](" + e.page + ")" == LinkText(name, e.page);
  }

  lemma {:induction false} EntriesAreLines(entries: seq<IndexEntry>)
    ensures EntriesText(entries) == Unlines(EntryLines(entries))
  {
    hide EntryText, EntryLine;
    if entries != [] {
      EntriesAreLines(entries[1..]);
      EntryIsLine(entries[0]);
      assert EntryLines(entries)[1..] == EntryLines(entries[1..]);
    }
  }

  /** An index is one line for each entry, and an empty one. */
  lemma {:induction false} IndexMeaning(entries: seq<IndexEntry>, prov: Provenance)
    ensures BlockText(IndexBlock(entries, prov)) == Unlines(EntryLines(entries)) + "\n"
  {
    hide EntriesText, EntryLines, Unlines;
    EntriesAreLines(entries);
  }

  /* ----- categories ----- */

  /** Blank names are left out and the others trimmed, one by one and in order. */
  lemma {:induction false} NamesAreKept(a: seq<string>, name: string, b: seq<string>)
    ensures KeptNames(a + [name] + b) ==
      KeptNames(a) + (if TrimSpace(name) == "" then [] else [TrimSpace(name)]) + KeptNames(b)
  {
    hide TrimSpace;
    var all := a + [name] + b;
    if a == [] {
      assert all == [name] + b && all[1..] == b;
    } else {
      assert all[1..] == a[1..] + [name] + b;
      NamesAreKept(a[1..], name, b);
    }
  }

  lemma {:induction false} CategoriesMeaning(names: seq<string>, prov: Provenance)
    ensures BlockText(CategoryBlock(names, prov)) ==
      if KeptNames(names) == [] then "" else "_Categories: " + Join(KeptNames(names), ", ") + "_\n"
    ensures KeptNames([]) == []
  {}

  /* ----- callouts ----- */

  function Quoted(lines: seq<string>): (r: seq<string>)
    ensures |r| == |lines| && forall i :: 0 <= i < |r| ==> r[i] == "> " + lines[i]
  {
    seq(|lines|, i requires 0 <= i < |lines| => "> " + lines[i])
  }

  lemma {:induction false} QuotedLines(lines: seq<string>)
    ensures QuotedText(lines) == Unlines(Quoted(lines))
  {
    if lines != [] {
      QuotedLines(lines[1..]);
      assert Quoted(lines)[1..] == Quoted(lines[1..]);
    }
  }

  /** A callout is its severity in bold, if it has one, and the lines of its body, all of them quoted. */
  lemma {:induction false} CalloutMeaning(severity: string, body: string, isMachine: bool, prov: Provenance)
    ensures BlockText(Callout(severity, body, isMachine, prov)) ==
      Unlines((if severity == "" then [] else ["> **" + severity + "**", ">"])
        + Quoted(Split(TrimRight(body, IsNewline))))
  {
    hide Split, TrimRight, Unlines, QuotedText;
    var lines := Split(TrimRight(body, IsNewline));
    QuotedLines(lines);
    if severity == "" {
      assert [] + Quoted(lines) == Quoted(lines);
      assert "" + QuotedText(lines) == QuotedText(lines);
    } else {
      var head := ["> **" + severity + "**", ">"];
      UnlinesAppend(head, Quoted(lines));
      TwoLines("> **" + severity + "**", ">");
      assert "> **" + severity + "**" + "\n" + (">" + "\n") == "> **" + severity + "**\n>\n";
    }
  }

  lemma TwoLines(a: string, b: string)
    ensures Unlines([a, b]) == a + "\n" + (b + "\n")
  {
    assert [a, b][1..] == [b] && [b][1..] == [];
    assert Unlines([b]) == b + "\n" + "";
  }

  /* ----- the other blocks ----- */

  /** Prose, machine text and text for this backend end in one newline; text for other backends is left out. */
  lemma {:induction false} TextBlocksMeaning(
      text: string, newlines: string, id: string, kind: string, backend: string, prov: Provenance)
    requires (text == "" || text[|text| - 1] != '\n') && forall i :: 0 <= i < |newlines| ==> newlines[i] == '\n'
    ensures BlockText(ProseBlock(text + newlines, prov)) == text + "\n"
    ensures BlockText(MachineBlock(id, kind, text + newlines, prov)) == text + "\n"
    ensures BlockText(EscapeHatch(backend, text + newlines, prov)) == if backend == "markdown" then text + "\n" else ""
  {
    hide TrimRight;
    assert forall c <- newlines :: IsNewline(c);
    TrimRightBlank(text, newlines, IsNewline);
  }

  /** A diagram is its picture, or else its source in a fence; an unresolved reference names area and entry. */
  lemma {:induction false} DiagramsAndReferences(
      lang: string, source: string, newlines: string, ref: string, area: string, id: string, mode: string,
      prov: Provenance)
    requires (source == "" || source[|source| - 1] != '\n') && forall i :: 0 <= i < |newlines| ==> newlines[i] == '\n'
    ensures BlockText(DiagramBlock(lang, source + newlines, ref, prov)) ==
      if ref != "" then "![](" + ref + ")\n" else "```" + lang + "\n" + source + "\n```\n"
    ensures BlockText(KBRefBlock(area, id, mode, prov)) == "[kb:" + area + "/" + id + "]\n"
  {
    hide TrimRight;
    assert forall c <- newlines :: IsNewline(c);
    TrimRightBlank(source, newlines, IsNewline);
  }

  /* ----- frontmatter and footer ----- */

  /** A line for a field that is set. */
  function Field(name: string, value: string): seq<string> {
    if value == "" then [] else [name + ": " + value]
  }

  lemma FieldIsLine(name: string, value: string)
    ensures Unlines(Field(name, value)) == if value == "" then "" else name + ": " + value + "\n"
  {
    assert value != "" ==> Field(name, value)[1..] == [];
  }

  lemma OneLine(a: string)
    ensures Unlines([a]) == a + "\n"
  {
    assert [a][1..] == [];
  }

  /** In front of the sections: the fields that are set between two rules, an empty line, and the title. */
  lemma {:induction false} HeadMeaning(f: Frontmatter)
    ensures HeadText(f) == Unlines(
      ["---"] + Field("title", f.title) + Field("spec_hash", f.specHash) + Field("kb_commit", f.kbCommit)
      + Field("generated_at", f.generatedAt) + ["---"]) + "\n" + (if f.title == "" then "" else "# " + f.title + "\n\n")
  {
    hide Unlines, Field;
    FieldIsLine("title", f.title);
    FieldIsLine("spec_hash", f.specHash);
    FieldIsLine("kb_commit", f.kbCommit);
    FieldIsLine("generated_at", f.generatedAt);
    LineOf("title: ", "title", f.title);
    LineOf("spec_hash: ", "spec_hash", f.specHash);
    LineOf("kb_commit: ", "kb_commit", f.kbCommit);
    LineOf("generated_at: ", "generated_at", f.generatedAt);
    OneLine("---");
    var a, b, c, d := Field("title", f.title), Field("spec_hash", f.specHash), Field("kb_commit", f.kbCommit),
      Field("generated_at", f.generatedAt);
    UnlinesAppend(["---"], a);
    UnlinesAppend(["---"] + a, b);
    UnlinesAppend(["---"] + a + b, c);
    UnlinesAppend(["---"] + a + b + c, d);
    UnlinesAppend(["---"] + a + b + c + d, ["---"]);
    assert "---" + "\n" == "---\n";
  }

  lemma LineOf(prefix: string, name: string, value: string)
    requires prefix == name + ": "
    ensures LineIf(prefix, value) == if value == "" then "" else name + ": " + value + "\n"
  {}

  /** Behind the sections, when any field is set: a comment with the fields that are. */
  lemma {:induction false} FooterMeaning(f: Footer)
    ensures FooterText(f) ==
      if f == Footer("", "", "") then ""
      else Unlines(
        ["", "<!-- mykb-curator footer"] + Field("  run-id", f.runID) + Field("  kb-commit", f.kbCommit)
        + Field("  last-curated", f.lastCurated) + ["-->"])
  {
    if f != Footer("", "", "") {
      hide Unlines, Field, LineIf;
      FieldIsLine("  run-id", f.runID);
      FieldIsLine("  kb-commit", f.kbCommit);
      FieldIsLine("  last-curated", f.lastCurated);
      LineOf("  run-id: ", "  run-id", f.runID);
      LineOf("  kb-commit: ", "  kb-commit", f.kbCommit);
      LineOf("  last-curated: ", "  last-curated", f.lastCurated);
      FooterEnds();
      var a, b, c := Field("  run-id", f.runID), Field("  kb-commit", f.kbCommit),
        Field("  last-curated", f.lastCurated);
      FiveParts(["", "<!-- mykb-curator footer"], a, b, c, ["-->"]);
    }
  }

  lemma FooterEnds()
    ensures Unlines(["", "<!-- mykb-curator footer"]) == "\n<!-- mykb-curator footer\n"
    ensures Unlines(["-->"]) == "-->\n"
  {
    hide Unlines;
    TwoLines("", "<!-- mykb-curator footer");
    OneLine("-->");
    assert "<!-- mykb-curator footer" + "\n" == "<!-- mykb-curator footer\n";
    assert "" + "\n" + "<!-- mykb-curator footer\n" == "\n<!-- mykb-curator footer\n";
    assert "-->" + "\n" == "-->\n";
  }

  lemma FiveParts(a: seq<string>, b: seq<string>, c: seq<string>, d: seq<string>, e: seq<string>)
    ensures Unlines(a + b + c + d + e) == Unlines(a) + Unlines(b) + Unlines(c) + Unlines(d) + Unlines(e)
  {
    hide Unlines;
    UnlinesAppend(a, b);
    UnlinesAppend(a + b, c);
    UnlinesAppend(a + b + c, d);
    UnlinesAppend(a + b + c + d, e);
  }
}
