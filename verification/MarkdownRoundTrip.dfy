/** Reading back what the markdown backend prints for sections in normal form. */
module MarkdownRoundTrip {
  import opened Wrappers
  import opened IR
  import opened Text
  import opened MDir
  import opened Markdown

  /* ----- normal form ----- */

  /** A line that is neither a fence nor a heading. */
  /* ----- which lines are headings ----- */

  function Hashes(n: nat): (r: string)
    ensures |r| == n && forall i :: 0 <= i < n ==> r[i] == '#'
  {
    seq(n, _ => '#')
  }

  /** Without blanks at its end, the line is `n` hashes, a space and `rest`. */
  ghost predicate IsHeading(line: string, n: nat, rest: string) {
    2 <= n <= 6 && exists blanks :: HeadingWith(line, n, rest, blanks)
  }

  /** `blanks` is what stands at the end of the line. */
  predicate HeadingWith(line: string, n: nat, rest: string, blanks: string) {
    && line == Hashes(n) + " " + rest + blanks
    && (forall i :: 0 <= i < |blanks| ==> blanks[i] == ' ' || blanks[i] == '\t')
    && rest != "" && rest[|rest| - 1] != ' ' && rest[|rest| - 1] != '\t'
  }

  lemma HashCountIs(s: string, n: nat)
    requires n <= |s| && (forall i :: 0 <= i < n ==> s[i] == '#') && (n < |s| ==> s[n] != '#')
    ensures HashCount(s) == n
  {}

  lemma HeadingIsAtx(line: string, n: nat, rest: string)
    requires IsHeading(line, n, rest)
    ensures AtxHeading(line) == Some(TrimSpace(rest))
  {
    hide TrimSpace, TrimRight, HashCount;
    var blanks :| HeadingWith(line, n, rest, blanks);
    var s := Hashes(n) + " " + rest;
    assert s[|s| - 1] == rest[|rest| - 1];
    TrimRightBlank(s, blanks, IsBlank);
    HashCountIs(s, n);
    assert s[n + 1..] == rest;
  }

  lemma AtxIsHeading(line: string) returns (n: nat, rest: string)
    requires AtxHeading(line).Some?
    ensures IsHeading(line, n, rest) && AtxHeading(line) == Some(TrimSpace(rest))
  {
    hide TrimSpace, HashCount;
    var s := TrimRight(line, IsBlank);
    n := HashCount(s);
    rest := s[n + 1..];
    var blanks := line[|s|..];
    assert s[n] == ' ' && !IsBlank(s[|s| - 1]);
    assert s == s[..n] + [s[n]] + rest && s[..n] == Hashes(n);
    assert line == s + blanks;
    assert HeadingWith(line, n, rest, blanks);
  }

  /**
   A line is read as a heading exactly when it is two to six hashes, a space and a text,
   up to blanks at its end; and the heading is that text without white space around it.
   */
  lemma {:induction false} HeadingIff(line: string)
    ensures AtxHeading(line).Some? <==> exists n, rest :: IsHeading(line, n, rest)
    ensures forall n, rest :: IsHeading(line, n, rest) ==> AtxHeading(line) == Some(TrimSpace(rest))
  {
    hide IsHeading, TrimSpace, AtxHeading;
    if AtxHeading(line).Some? {
      var n, rest := AtxIsHeading(line);
    }
    forall n, rest | IsHeading(line, n, rest) ensures AtxHeading(line) == Some(TrimSpace(rest)) {
      HeadingIsAtx(line, n, rest);
    }
  }

  /* ----- normal form ----- */

  /** Neither a fence nor a heading. */
  ghost predicate PlainLine(line: string) {
    !(FENCE <= line) && forall n, rest :: !IsHeading(line, n, rest)
  }

  ghost predicate NormalBlock(o: Origin, b: Block) {
    match b
    case ProseBlock(text, _) =>
      b == o.Prose(text) && text != "" && Trimmed(text) && forall line <- Split(text) :: PlainLine(line)
    case DiagramBlock(lang, source, _, _) =>
      && b == o.Diagram(lang, source)
      && lang != "" && Trimmed(lang) && '\n' !in lang
      && (source == "" || source[|source| - 1] != '\n')
      && forall line <- Split(source) :: !(FENCE <= line)
    case _ => false
  }

  ghost predicate NormalBlocks(o: Origin, blocks: seq<Block>) {
    blocks != [] ==>
      && NormalBlock(o, blocks[0])
      && (|blocks| > 1 && blocks[0].ProseBlock? ==> !blocks[1].ProseBlock?)
      && NormalBlocks(o, blocks[1..])
  }

  predicate NormalHeading(h: string) {
    h != "" && Trimmed(h) && '\n' !in h
  }

  ghost predicate NormalHeaded(o: Origin, sections: seq<Section>) {
    forall sec <- sections :: NormalHeading(sec.heading) && NormalBlocks(o, sec.blocks)
  }

  /** Only the first section may go without a heading, and then it has blocks. */
  ghost predicate NormalSections(o: Origin, sections: seq<Section>) {
    sections != [] ==>
      && (sections[0].heading == "" ==> sections[0].blocks != [])
      && (sections[0].heading != "" ==> NormalHeading(sections[0].heading))
      && NormalBlocks(o, sections[0].blocks)
      && NormalHeaded(o, sections[1..])
  }

  /* ----- printed lines ----- */

  function BlockLines(b: Block): seq<string> {
    match b
    case ProseBlock(text, _) => Split(text)
    case DiagramBlock(lang, source, _, _) => [FENCE + lang] + Split(source) + [FENCE]
    case _ => []
  }

  function BlocksLines(blocks: seq<Block>): seq<string> {
    if blocks == [] then [] else BlockLines(blocks[0]) + [""] + BlocksLines(blocks[1..])
  }

  function HeadingLines(h: string, level: nat): seq<string> {
    if h == "" then [] else [Hashes(level) + " " + h, ""]
  }

  /** The sections, with the heading of each at a level of its own. */
  function SectionsLines(sections: seq<Section>, levels: seq<nat>): seq<string>
    requires |levels| == |sections|
  {
    if sections == [] then []
    else
      HeadingLines(sections[0].heading, levels[0]) + BlocksLines(sections[0].blocks)
      + SectionsLines(sections[1..], levels[1..])
  }

  /** The levels that are read as headings. */
  predicate Levels(levels: seq<nat>) {
    forall i :: 0 <= i < |levels| ==> 2 <= levels[i] <= 6
  }

  /** A heading is printed at level 2; a language model may choose another. */
  function HeadingTextAt(h: string, level: nat): string {
    if h == "" then "" else Hashes(level) + " " + h + "\n\n"
  }

  function SectionsTextAt(sections: seq<Section>, levels: seq<nat>): string
    requires |levels| == |sections|
  {
    if sections == [] then ""
    else
      HeadingTextAt(sections[0].heading, levels[0]) + BlocksText(sections[0].blocks)
      + SectionsTextAt(sections[1..], levels[1..])
  }

  predicate OneLiners(lines: seq<string>) {
    forall l <- lines :: '\n' !in l
  }

  lemma {:induction false} SplitGivesOneLiners(s: string)
    ensures OneLiners(Split(s))
  {
    if s != "" {
      SplitGivesOneLiners(s[1..]);
    }
  }

  lemma {:induction false} SplitUnlines(lines: seq<string>)
    requires OneLiners(lines)
    ensures Split(Unlines(lines)) == lines + [""]
  {
    if lines != [] {
      SplitUnlines(lines[1..]);
      assert lines[0] in lines;
      SplitOneLine(lines[0]);
      SplitAtNewline(lines[0], Unlines(lines[1..]));
      assert [lines[0]] + (lines[1..] + [""]) == lines + [""];
    }
  }

  lemma NoFinalNewline(s: string)
    requires s == "" || s[|s| - 1] != '\n'
    ensures WithoutFinalNewlines(s) == s && WithoutFinalNewlines(s + "\n") == s
  {
    assert s + "" == s;
    TrimRightBlank(s, "", IsNewline);
    TrimRightBlank(s, "\n", IsNewline);
  }

  lemma UnlinesOne(a: string)
    ensures Unlines([a]) == a + "\n"
  {
    assert Unlines([a]) == a + "\n" + Unlines([a][1..]) == a + "\n" + "";
  }

  lemma BlockTextLines(o: Origin, b: Block)
    requires NormalBlock(o, b)
    ensures BlockText(b) == Unlines(BlockLines(b)) && OneLiners(BlockLines(b))
  {
    hide Split, Unlines, TrimRight, AtxHeading, WithoutFinalNewlines;
    match b {
      case ProseBlock(text, _) =>
        NoFinalNewline(text);
        UnlinesSplit(text);
        SplitGivesOneLiners(text);
      case DiagramBlock(lang, source, _, _) =>
        NoFinalNewline(source);
        UnlinesSplit(source);
        SplitGivesOneLiners(source);
        UnlinesAppend([FENCE + lang] + Split(source), [FENCE]);
        UnlinesAppend([FENCE + lang], Split(source));
        UnlinesOne(FENCE + lang);
        UnlinesOne(FENCE);
        FenceText(lang, source);
    }
  }

  lemma FenceText(lang: string, source: string)
    ensures FENCE + lang + "\n" + (source + "\n") + (FENCE + "\n") == "```" + lang + "\n" + source + "\n```\n"
  {
    assert "\n```\n" == "\n" + (FENCE + "\n");
    var a := FENCE + lang + "\n";
    assert a + (source + "\n") + (FENCE + "\n") == a + source + ("\n" + (FENCE + "\n"));
  }

  lemma {:induction false} BlocksTextLines(o: Origin, blocks: seq<Block>)
    requires NormalBlocks(o, blocks)
    ensures BlocksText(blocks) == Unlines(BlocksLines(blocks)) && OneLiners(BlocksLines(blocks))
  {
    hide Split, Unlines, BlockText, BlockLines, NormalBlock;
    if blocks == [] {
      NothingPrinted();
    } else {
      var l, rest := BlockLines(blocks[0]), BlocksLines(blocks[1..]);
      BlockTextLines(o, blocks[0]);
      BlocksTextLines(o, blocks[1..]);
      UnlinesAppend(l + [""], rest);
      UnlinesAppend(l, [""]);
      UnlinesOne("");
    }
  }

  lemma NothingPrinted()
    ensures Unlines([]) == ""
  {}

  lemma HeadingTextLines(h: string, level: nat)
    requires '\n' !in h
    ensures HeadingTextAt(h, level) == Unlines(HeadingLines(h, level)) && OneLiners(HeadingLines(h, level))
  {
    hide Unlines;
    NothingPrinted();
    if h != "" {
      var line := Hashes(level) + " " + h;
      UnlinesAppend([line], [""]);
      UnlinesOne(line);
      UnlinesOne("");
      assert [line] + [""] == [line, ""];
      assert line + "\n" + ("" + "\n") == line + "\n\n";
    }
  }

  lemma {:induction false} SectionsTextLines(o: Origin, sections: seq<Section>, levels: seq<nat>)
    requires |levels| == |sections|
    requires forall sec <- sections :: '\n' !in sec.heading && NormalBlocks(o, sec.blocks)
    ensures SectionsTextAt(sections, levels) == Unlines(SectionsLines(sections, levels))
    ensures OneLiners(SectionsLines(sections, levels))
  {
    hide Split, Unlines, BlocksText, BlocksLines, HeadingTextAt, HeadingLines, NormalBlocks;
    if sections == [] {
      NothingPrinted();
    } else {
      var sec := sections[0];
      assert sec in sections;
      HeadingTextLines(sec.heading, levels[0]);
      BlocksTextLines(o, sec.blocks);
      SectionsTextLines(o, sections[1..], levels[1..]);
      var h, b := HeadingLines(sec.heading, levels[0]), BlocksLines(sec.blocks);
      UnlinesAppend(h + b, SectionsLines(sections[1..], levels[1..]));
      UnlinesAppend(h, b);
    }
  }

  /** The printer writes every heading at level 2. */
  lemma {:induction false} PrintedAtLevelTwo(sections: seq<Section>)
    ensures SectionsText(sections) == SectionsTextAt(sections, seq(|sections|, _ => 2))
  {
    hide BlocksText;
    if sections != [] {
      PrintedAtLevelTwo(sections[1..]);
      assert seq(|sections|, _ => 2)[1..] == seq(|sections[1..]|, _ => 2);
      var h := sections[0].heading;
      assert Hashes(2) + " " == "## ";
      assert h != "" ==> HeadingText(h) == HeadingTextAt(h, 2);
    }
  }

  /* ----- feeding the lines to the parser ----- */

  lemma {:induction false} RunAppend(o: Origin, st: State, a: seq<string>, b: seq<string>)
    ensures Run(o, st, a + b) == Run(o, Run(o, st, a), b)
    decreases |a|
  {
    hide Step;
    if a == [] {
      assert a + b == b;
    } else {
      assert (a + b)[1..] == a[1..] + b;
      RunAppend(o, Step(o, st, a[0]), a[1..], b);
    }
  }

  lemma StepPlain(o: Origin, st: State, line: string)
    requires !st.inFence && PlainLine(line)
    ensures Step(o, st, line) == st.(buf := st.buf + line + "\n")
  {
    hide AtxHeading, IsHeading;
    HeadingIff(line);
  }

  lemma {:induction false} RunPlain(o: Origin, st: State, lines: seq<string>)
    requires !st.inFence && forall line <- lines :: PlainLine(line)
    ensures Run(o, st, lines) == st.(buf := st.buf + Unlines(lines))
    decreases |lines|
  {
    hide PlainLine, Step;
    if lines == [] {
      assert st.buf + "" == st.buf;
    } else {
      assert lines[0] in lines;
      StepPlain(o, st, lines[0]);
      RunPlain(o, Step(o, st, lines[0]), lines[1..]);
      Behind3(st.buf, lines[0], "\n", Unlines(lines[1..]));
    }
  }

  lemma StepFenced(o: Origin, st: State, line: string)
    requires st.inFence && !(FENCE <= line)
    ensures Step(o, st, line) == st.(fenceBuf := st.fenceBuf + line + "\n")
  {}

  lemma {:induction false} RunFenced(o: Origin, st: State, lines: seq<string>)
    requires st.inFence && forall line <- lines :: !(FENCE <= line)
    ensures Run(o, st, lines) == st.(fenceBuf := st.fenceBuf + Unlines(lines))
    decreases |lines|
  {
    hide Step;
    if lines == [] {
      assert st.fenceBuf + "" == st.fenceBuf;
    } else {
      assert lines[0] in lines && forall line <- lines[1..] :: line in lines;
      StepFenced(o, st, lines[0]);
      RunFenced(o, Step(o, st, lines[0]), lines[1..]);
      Behind3(st.fenceBuf, lines[0], "\n", Unlines(lines[1..]));
    }
  }

  lemma EmptyLineIsPlain()
    ensures PlainLine("")
  {}

  lemma RunEmptyLine(o: Origin, st: State)
    requires !st.inFence
    ensures Run(o, st, [""]) == st.(buf := st.buf + "\n")
  {
    hide AtxHeading, PlainLine;
    EmptyLineIsPlain();
    RunPlain(o, st, [""]);
    UnlinesOne("");
    assert "" + "\n" == "\n";
  }

  lemma RunOne(o: Origin, st: State, line: string)
    ensures Run(o, st, [line]) == Step(o, st, line)
  {
    hide Step;
    assert [line][1..] == [];
    RunEnd(o, Step(o, st, line));
  }

  /** Nothing of a fence is left, and no prose is waiting in the buffer. */
  predicate Idle(st: State) {
    !st.inFence && st.fenceBuf == "" && st.fenceLang == ""
  }

  predicate Blank(s: string) {
    forall c <- s :: c == '\n'
  }

  lemma BlankIsSpace(s: string)
    requires Blank(s)
    ensures TrimSpace(s) == ""
  {
    TrimSpaceBlank(s);
  }

  lemma NewlineIsSpace()
    ensures IsSpace('\n')
  {}

  lemma TrimSpaceNewline(s: string)
    ensures TrimSpace(s + "\n") == TrimSpace(s)
  {
    hide IsSpace, TrimLeft;
    NewlineIsSpace();
    TrimLeftNewline(s);
    var x := TrimLeft(s, IsSpace);
    if x != "" {
      assert (x + "\n")[..|x|] == x;
    }
  }

  lemma {:induction false} TrimLeftNewline(s: string)
    ensures TrimLeft(s + "\n", IsSpace) == if TrimLeft(s, IsSpace) == "" then "" else TrimLeft(s, IsSpace) + "\n"
  {
    hide IsSpace;
    NewlineIsSpace();
    if s == "" {
      assert s + "\n" == "\n" && ("\n")[1..] == "";
    } else {
      assert (s + "\n")[1..] == s[1..] + "\n";
      if IsSpace(s[0]) {
        TrimLeftNewline(s[1..]);
      }
    }
  }

  /** A prose block and the empty line behind it wait in the buffer. */
  lemma FeedProse(o: Origin, st: State, text: string)
    requires Idle(st) && Blank(st.buf) && NormalBlock(o, o.Prose(text))
    ensures var st' := Run(o, st, BlockLines(o.Prose(text)) + [""]);
      && Idle(st') && st'.sections == st.sections
      && FlushedSection(o, st.current, st.buf) == st.current
      && FlushedSection(o, st'.current, st'.buf) == Add(st.current, o.Prose(text))
  {
    hide TrimSpace, PlainLine, Split, Unlines, Run, Trimmed;
    RunAppend(o, st, Split(text), [""]);
    RunPlain(o, st, Split(text));
    UnlinesSplit(text);
    RunEmptyLine(o, st.(buf := st.buf + (text + "\n")));
    BlankIsSpace(st.buf);
    TrimSpaceAround(st.buf, text, "\n\n");
    assert st.buf + (text + "\n") + "\n" == st.buf + text + "\n\n";
  }

  lemma OpenFence(lang: string)
    requires lang != "" && Trimmed(lang)
    ensures FENCE <= FENCE + lang && FenceLang(FENCE + lang) == lang
  {
    assert (FENCE + lang)[3..] == lang;
    TrimSpaceTrimmed(lang);
  }

  lemma FenceOpens(o: Origin, st: State, lang: string)
    requires !st.inFence && lang != "" && Trimmed(lang)
    ensures Run(o, st, [FENCE + lang]) == Flush(o, st).(fenceLang := lang, inFence := true)
  {
    hide FlushedSection, FenceLang, Run;
    OpenFence(lang);
    RunOne(o, st, FENCE + lang);
  }

  lemma FenceCloses(o: Origin, st: State)
    requires st.inFence
    ensures Run(o, st, [FENCE]) == AddDiagram(o, st).(inFence := false)
  {
    hide AddDiagram, Run;
    RunOne(o, st, FENCE);
  }

  lemma FeedDiagram(o: Origin, st: State, lang: string, source: string)
    requires Idle(st) && NormalBlock(o, o.Diagram(lang, source))
    ensures var st' := Run(o, st, BlockLines(o.Diagram(lang, source)) + [""]);
      && Idle(st') && st'.sections == st.sections && Blank(st'.buf)
      && st'.current == Add(FlushedSection(o, st.current, st.buf), o.Diagram(lang, source))
  {
    hide TrimSpace, Split, Unlines, Run, Trimmed, FlushedSection, TrimRight;
    var src := Split(source);
    RunAppend(o, st, [FENCE + lang] + src + [FENCE], [""]);
    RunAppend(o, st, [FENCE + lang] + src, [FENCE]);
    RunAppend(o, st, [FENCE + lang], src);
    FenceOpens(o, st, lang);
    var begun := Flush(o, st).(fenceLang := lang, inFence := true);
    RunFenced(o, begun, src);
    UnlinesSplit(source);
    assert "" + (source + "\n") == source + "\n";
    var filled := begun.(fenceBuf := source + "\n");
    FenceCloses(o, filled);
    NoFinalNewline(source);
    var closed := AddDiagram(o, filled).(inFence := false);
    RunEmptyLine(o, closed);
    assert "" + "\n" == "\n";
  }

  /** A prose block may only follow when no other prose is waiting. */
  predicate MayFollow(st: State, blocks: seq<Block>) {
    blocks != [] && blocks[0].ProseBlock? ==> Blank(st.buf)
  }

  lemma {:induction false} FeedBlocks(o: Origin, st: State, blocks: seq<Block>)
    requires Idle(st) && NormalBlocks(o, blocks) && MayFollow(st, blocks)
    ensures
      var st' := Run(o, st, BlocksLines(blocks));
      var sec := FlushedSection(o, st.current, st.buf);
      && Idle(st') && st'.sections == st.sections
      && FlushedSection(o, st'.current, st'.buf) == sec.(blocks := sec.blocks + blocks)
    decreases |blocks|
  {
    hide Run, FlushedSection, NormalBlock, BlockLines;
    var sec := FlushedSection(o, st.current, st.buf);
    if blocks == [] {
      RunEnd(o, st);
      assert sec.blocks + [] == sec.blocks;
    } else {
      var b, rest := blocks[0], blocks[1..];
      RunAppend(o, st, BlockLines(b) + [""], BlocksLines(rest));
      var st1 := Run(o, st, BlockLines(b) + [""]);
      FeedOne(o, st, b);
      FeedBlocks(o, st1, rest);
      assert sec.blocks + [b] + rest == sec.blocks + blocks;
    }
  }

  lemma FeedOne(o: Origin, st: State, b: Block)
    requires Idle(st) && NormalBlock(o, b) && (b.ProseBlock? ==> Blank(st.buf))
    ensures
      var st' := Run(o, st, BlockLines(b) + [""]);
      && Idle(st') && st'.sections == st.sections
      && (b.ProseBlock? || (b.DiagramBlock? && Blank(st'.buf)))
      && FlushedSection(o, st'.current, st'.buf) == Add(FlushedSection(o, st.current, st.buf), b)
  {
    hide Run, BlockLines, TrimSpace, PlainLine, Trimmed;
    match b {
      case ProseBlock(text, _) => FeedProse(o, st, text);
      case DiagramBlock(lang, source, _, _) =>
        FeedDiagram(o, st, lang, source);
        BlankIsSpace(Run(o, st, BlockLines(b) + [""]).buf);
    }
  }

  /** A heading printed at any of these levels is read as that heading. */
  lemma {:induction false} HeadingIsRead(h: string, level: nat)
    requires NormalHeading(h) && 2 <= level <= 6
    ensures !(FENCE <= Hashes(level) + " " + h) && AtxHeading(Hashes(level) + " " + h) == Some(h)
  {
    hide TrimSpace, AtxHeading;
    var line := Hashes(level) + " " + h;
    assert line[0] == '#' && FENCE[0] != '#';
    assert line == Hashes(level) + " " + h + "";
    assert HeadingWith(line, level, h, "");
    HeadingIsAtx(line, level, h);
    TrimSpaceTrimmed(h);
  }

  lemma FeedHeading(o: Origin, st: State, h: string, level: nat)
    requires Idle(st) && NormalHeading(h) && 2 <= level <= 6
    ensures Run(o, st, HeadingLines(h, level)) ==
      st.(sections := Close(Flush(o, st)), current := Section(h, []), buf := "\n")
  {
    hide Run, FlushedSection, AtxHeading, Close, Hashes;
    HeadingIsRead(h, level);
    var line := Hashes(level) + " " + h;
    assert HeadingLines(h, level) == [line] + [""];
    RunAppend(o, st, [line], [""]);
    RunOne(o, st, line);
    RunEmptyLine(o, StartSection(o, st, h));
    assert "" + "\n" == "\n";
  }

  lemma NewlineIsBlank(o: Origin, sec: Section)
    ensures Blank("\n") && FlushedSection(o, sec, "\n") == sec && FlushedSection(o, sec, "") == sec
  {
    hide TrimSpace;
    BlankIsSpace("\n");
    BlankIsSpace("");
  }

  /** A whole section with a heading closes what came before it. */
  lemma FeedSection(o: Origin, st: State, sec: Section, level: nat)
    requires Idle(st) && NormalHeading(sec.heading) && NormalBlocks(o, sec.blocks) && 2 <= level <= 6
    ensures
      var st' := Run(o, st, HeadingLines(sec.heading, level) + BlocksLines(sec.blocks));
      Idle(st') && Close(Flush(o, st')) == Close(Flush(o, st)) + [sec]
  {
    hide Run, FlushedSection, NormalBlocks, BlocksLines, HeadingLines, Blank;
    RunAppend(o, st, HeadingLines(sec.heading, level), BlocksLines(sec.blocks));
    FeedHeading(o, st, sec.heading, level);
    var st1 := st.(sections := Close(Flush(o, st)), current := Section(sec.heading, []), buf := "\n");
    NewlineIsBlank(o, st1.current);
    FeedBlocks(o, st1, sec.blocks);
    assert [] + sec.blocks == sec.blocks;
  }

  lemma {:induction false} FeedSections(o: Origin, st: State, sections: seq<Section>, levels: seq<nat>)
    requires Idle(st) && NormalHeaded(o, sections) && |levels| == |sections| && Levels(levels)
    ensures
      var st' := Run(o, st, SectionsLines(sections, levels));
      Idle(st') && Close(Flush(o, st')) == Close(Flush(o, st)) + sections
    decreases |sections|
  {
    hide Run, NormalBlocks, NormalHeading, BlocksLines, HeadingLines, Idle, Flush, Close;
    if sections == [] {
      RunEnd(o, st);
      assert Close(Flush(o, st)) + [] == Close(Flush(o, st));
    } else {
      var sec := sections[0];
      assert sec in sections;
      var lines := HeadingLines(sec.heading, levels[0]) + BlocksLines(sec.blocks);
      RunAppend(o, st, lines, SectionsLines(sections[1..], levels[1..]));
      FeedSection(o, st, sec, levels[0]);
      FeedSections(o, Run(o, st, lines), sections[1..], levels[1..]);
      assert Close(Flush(o, st)) + [sec] + sections[1..] == Close(Flush(o, st)) + sections;
    }
  }

  /** The section before the first heading. */
  lemma FeedUnheaded(o: Origin, blocks: seq<Block>)
    requires blocks != [] && NormalBlocks(o, blocks)
    ensures var st := Run(o, START, BlocksLines(blocks));
      Idle(st) && Close(Flush(o, st)) == [Section("", blocks)]
  {
    hide Run, FlushedSection, NormalBlocks, BlocksLines;
    NewlineIsBlank(o, START.current);
    FeedBlocks(o, START, blocks);
    assert [] + blocks == blocks;
  }

  lemma StartIsEmpty(o: Origin)
    ensures Idle(START) && Close(Flush(o, START)) == []
  {
    hide TrimSpace;
    BlankIsSpace("");
  }

  lemma FinishAfterNewline(o: Origin, st: State)
    requires Idle(st)
    ensures Finish(o, Run(o, st, [""])) == Close(Flush(o, st))
  {
    hide Run, TrimSpace;
    RunEmptyLine(o, st);
    TrimSpaceNewline(st.buf);
  }

  lemma NormalTexts(o: Origin, sections: seq<Section>)
    requires NormalSections(o, sections)
    ensures forall sec <- sections :: '\n' !in sec.heading && NormalBlocks(o, sec.blocks)
  {
    hide NormalBlocks;
    forall sec <- sections
      ensures '\n' !in sec.heading && NormalBlocks(o, sec.blocks)
    {
      if sec != sections[0] {
        assert sec in sections[1..];
      }
    }
  }

  lemma FeedAll(o: Origin, sections: seq<Section>, levels: seq<nat>)
    requires NormalSections(o, sections) && |levels| == |sections| && Levels(levels)
    ensures var st := Run(o, START, SectionsLines(sections, levels));
      Idle(st) && Close(Flush(o, st)) == sections
  {
    hide Run, NormalBlocks, BlocksLines, Idle, Flush, Close, NormalHeading, Trimmed;
    StartIsEmpty(o);
    if sections == [] || sections[0].heading != "" {
      if sections != [] {
        assert sections == [sections[0]] + sections[1..];
      }
      FeedSections(o, START, sections, levels);
      assert [] + sections == sections;
    } else {
      var sec, rest := sections[0], sections[1..];
      var lines := BlocksLines(sec.blocks);
      assert SectionsLines(sections, levels) == lines + SectionsLines(rest, levels[1..]) by {
        assert [] + lines == lines;
      }
      RunAppend(o, START, lines, SectionsLines(rest, levels[1..]));
      FeedUnheaded(o, sec.blocks);
      FeedSections(o, Run(o, START, lines), rest, levels[1..]);
      assert [Section("", sec.blocks)] + rest == sections;
    }
  }

  /** The parser recovers every list of sections in normal form, whatever the levels of its headings. */
  lemma {:induction false} ParseInvertsPrintAt(o: Origin, sections: seq<Section>, levels: seq<nat>)
    requires NormalSections(o, sections) && |levels| == |sections| && Levels(levels)
    ensures Parsed(o, SectionsTextAt(sections, levels)) == sections
  {
    hide Run, NormalSections, SectionsLines, SectionsTextAt, Split, Unlines, Idle, Flush, Close, Finish, Levels;
    NormalTexts(o, sections);
    SectionsTextLines(o, sections, levels);
    var lines := SectionsLines(sections, levels);
    SplitUnlines(lines);
    FeedAll(o, sections, levels);
    RunAppend(o, START, lines, [""]);
    FinishAfterNewline(o, Run(o, START, lines));
  }

  /** The parser inverts the section printer on every list of sections in normal form. */
  lemma {:induction false} ParseInvertsPrint(o: Origin, sections: seq<Section>)
    requires NormalSections(o, sections)
    ensures Parsed(o, SectionsText(sections)) == sections
  {
    hide Parsed, NormalSections, SectionsText, SectionsTextAt;
    PrintedAtLevelTwo(sections);
    ParseInvertsPrintAt(o, sections, seq(|sections|, _ => 2));
  }

  /* ----- fences ----- */

  function CountFences(lines: seq<string>): nat {
    if lines == [] then 0
    else CountFences(lines[..|lines| - 1]) + if FENCE <= lines[|lines| - 1] then 1 else 0
  }

  lemma RunMore(o: Origin, st: State, lines: seq<string>)
    requires lines != []
    ensures Run(o, st, lines) == Step(o, Run(o, st, lines[..|lines| - 1]), lines[|lines| - 1])
  {
    hide Step;
    assert lines == lines[..|lines| - 1] + [lines[|lines| - 1]];
    RunAppend(o, st, lines[..|lines| - 1], [lines[|lines| - 1]]);
    RunOne(o, Run(o, st, lines[..|lines| - 1]), lines[|lines| - 1]);
  }

  /** A fence is open behind an odd number of fence lines. */
  lemma {:induction false} OpenFenceIff(o: Origin, lines: seq<string>)
    ensures Run(o, START, lines).inFence <==> CountFences(lines) % 2 == 1
    decreases |lines|
  {
    hide Run, AtxHeading, FlushedSection, TrimSpace, TrimRight;
    if lines == [] {
      RunEnd(o, START);
    } else {
      OpenFenceIff(o, lines[..|lines| - 1]);
      RunMore(o, START, lines);
    }
  }

  /** An unclosed fence is not lost: the text reads as if a closing fence stood at its end. */
  lemma {:induction false} UnclosedFenceIsKept(o: Origin, md: string)
    requires CountFences(Split(md)) % 2 == 1
    ensures Parsed(o, md) == Parsed(o, md + "\n" + FENCE)
  {
    hide Run, Split, FlushedSection, TrimRight, CountFences;
    OpenFenceIff(o, Split(md));
    SplitAtNewline(md, FENCE);
    SplitOneLine(FENCE);
    RunAppend(o, START, Split(md), [FENCE]);
    RunOne(o, Run(o, START, Split(md)), FENCE);
  }

  /** A fence without a language opens a block of language "text". */
  lemma {:induction false} FenceWithoutLanguageIsText(o: Origin, st: State, blanks: string)
    requires !st.inFence && forall c <- blanks :: IsSpace(c)
    ensures Run(o, st, [FENCE + blanks]) == Run(o, st, [FENCE + "text"])
    ensures Run(o, st, [FENCE + "text"]).inFence && Run(o, st, [FENCE + "text"]).fenceLang == "text"
  {
    hide Flush, AtxHeading, Run, FenceLang;
    RunOne(o, st, FENCE + blanks);
    RunOne(o, st, FENCE + "text");
    NoLanguage(blanks);
  }

  lemma NoLanguage(blanks: string)
    requires forall c <- blanks :: IsSpace(c)
    ensures FENCE <= FENCE + blanks && FenceLang(FENCE + blanks) == "text"
    ensures FENCE <= FENCE + "text" && FenceLang(FENCE + "text") == "text"
  {
    hide TrimSpace;
    assert (FENCE + blanks)[3..] == blanks;
    TrimSpaceBlank(blanks);
    OpenFence("text");
  }

  /* ----- what is parsed ----- */

  /** Trimmed text of the section's provenance, or a diagram of the diagram provenance. */
  predicate IsParsed(b: Block, provPrefix: string, inputHash: string) {
    match b
    case ProseBlock(text, prov) => text != "" && prov == Provenance(provPrefix + "-section", [], inputHash)
    case DiagramBlock(_, _, assetRef, prov) =>
      assetRef == "" && prov == Provenance(provPrefix + "-diagram", [], inputHash)
    case _ => false
  }

  predicate AllParsed(sections: seq<Section>, provPrefix: string, inputHash: string) {
    forall i, k :: 0 <= i < |sections| && 0 <= k < |sections[i].blocks| ==>
      IsParsed(sections[i].blocks[k], provPrefix, inputHash)
  }

  predicate StateParsed(o: Origin, st: State) {
    AllParsed(st.sections + [st.current], o.provPrefix, o.inputHash)
  }

  lemma FlushIsParsed(o: Origin, st: State)
    requires StateParsed(o, st)
    ensures StateParsed(o, Flush(o, st)) && AllParsed(Close(Flush(o, st)), o.provPrefix, o.inputHash)
  {
    hide TrimSpace;
    var f := Flush(o, st);
    assert forall i :: 0 <= i < |st.sections| ==> (st.sections + [st.current])[i] == st.sections[i];
    assert (st.sections + [st.current])[|st.sections|] == st.current;
    assert forall i :: 0 <= i < |st.sections| ==> (f.sections + [f.current])[i] == st.sections[i];
  }

  lemma AddDiagramIsParsed(o: Origin, st: State)
    requires StateParsed(o, st)
    ensures StateParsed(o, AddDiagram(o, st))
  {
    hide TrimRight;
    var f := AddDiagram(o, st);
    assert forall i :: 0 <= i < |st.sections| ==> (st.sections + [st.current])[i] == st.sections[i];
    assert (st.sections + [st.current])[|st.sections|] == st.current;
    assert forall i :: 0 <= i < |st.sections| ==> (f.sections + [f.current])[i] == st.sections[i];
  }

  lemma StepIsParsed(o: Origin, st: State, line: string)
    requires StateParsed(o, st)
    ensures StateParsed(o, Step(o, st, line))
  {
    hide AtxHeading, FlushedSection, TrimSpace, TrimRight;
    FlushIsParsed(o, st);
    AddDiagramIsParsed(o, st);
  }

  lemma {:induction false} RunIsParsed(o: Origin, st: State, lines: seq<string>)
    requires StateParsed(o, st)
    ensures StateParsed(o, Run(o, st, lines))
    decreases |lines|
  {
    hide StateParsed, Step;
    if lines != [] {
      StepIsParsed(o, st, lines[0]);
      RunIsParsed(o, Step(o, st, lines[0]), lines[1..]);
    }
  }

  /** Whatever the text: every block is prose or a diagram, with the provenance of its kind and the given hash. */
  lemma {:induction false} ParsedBlocksHaveProvenance(md: string, provPrefix: string, inputHash: string)
    ensures AllParsed(Parsed(Origin(provPrefix, inputHash), md), provPrefix, inputHash)
  {
    hide Run, Split, Flush, AddDiagram, AllParsed;
    var o := Origin(provPrefix, inputHash);
    assert StateParsed(o, START) by {
      StartIsParsed(o);
    }
    RunIsParsed(o, START, Split(md));
    var st := Run(o, START, Split(md));
    AddDiagramIsParsed(o, st);
    FlushIsParsed(o, if st.inFence then AddDiagram(o, st) else st);
  }

  lemma StartIsParsed(o: Origin)
    ensures StateParsed(o, START)
  {}

  /* ----- white space around texts ----- */

  /** White space around prose is dropped; what is nothing but white space is no block. */
  lemma {:induction false} ProseIsTrimmed(o: Origin, sec: Section, a: string, text: string, b: string)
    requires (forall c <- a :: IsSpace(c)) && (forall c <- b :: IsSpace(c)) && Trimmed(text)
    ensures FlushedSection(o, sec, a + text + b) == if text == "" then sec else Add(sec, o.Prose(text))
  {
    hide TrimSpace, Trimmed;
    if text == "" {
      assert a + text + b == a + b;
      TrimSpaceBlank(a + b);
    } else {
      TrimSpaceAround(a, text, b);
    }
  }

  /** Empty lines at the end of a fence are dropped. */
  lemma {:induction false} FenceDropsFinalNewlines(o: Origin, st: State, source: string, newlines: string)
    requires st.inFence && st.fenceBuf == source + newlines
    requires (source == "" || source[|source| - 1] != '\n') && forall c <- newlines :: c == '\n'
    ensures Run(o, st, [FENCE]).current == Add(st.current, o.Diagram(st.fenceLang, source))
    ensures !Run(o, st, [FENCE]).inFence
  {
    hide TrimRight, Run;
    RunOne(o, st, FENCE);
    assert forall c <- newlines :: IsNewline(c);
    TrimRightBlank(source, newlines, IsNewline);
  }
}
