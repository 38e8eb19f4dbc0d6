/** `mdir.go`: markdown written by a language model, read into sections. */
module MDir {
  import opened Wrappers
  import opened IR
  import opened Text

  const FENCE := "```"

  predicate IsBlank(c: char) {
    c == ' ' || c == '\t'
  }

  predicate IsHash(c: char) {
    c == '#'
  }

  function HashCount(s: string): (n: nat)
    ensures n <= |s|
    ensures forall i :: 0 <= i < n ==> s[i] == '#'
    ensures n < |s| ==> s[n] != '#'
  {
    if s == "" || s[0] != '#' then 0 else 1 + HashCount(s[1..])
  }

  /** The text of a heading of level 2 to 6. */
  function AtxHeading(line: string): Option<string> {
    var s := TrimRight(line, IsBlank);
    var n := HashCount(s);
    if n < 2 || n > 6 || n >= |s| || s[n] != ' ' then None else Some(TrimSpace(s[n + 1..]))
  }

  method ParseAtxHeading(line: string) returns (r: Option<string>)
    ensures r == AtxHeading(line)
  {
    hide TrimRight, TrimSpace;
    var s := TrimRight(line, IsBlank);
    var n := 0;
    assert s[0..] == s;
    while n < |s| && s[n] == '#'
      invariant 0 <= n <= |s|
      invariant HashCount(s) == n + HashCount(s[n..])
    {
      assert s[n..][1..] == s[n + 1..];
      n := n + 1;
    }
    assert HashCount(s[n..]) == 0;
    if n < 2 || n > 6 || n >= |s| || s[n] != ' ' {
      return None;
    }
    return Some(TrimSpace(s[n + 1..]));
  }

  /* ----- the line machine ----- */

  /** Where the parsed blocks come from: the two provenance labels and the input hash. */
  datatype Origin = Origin(provPrefix: string, inputHash: string) {
    function Prose(text: string): Block {
      ProseBlock(text, Provenance(provPrefix + "-section", [], inputHash))
    }

    function Diagram(lang: string, source: string): Block {
      DiagramBlock(lang, source, "", Provenance(provPrefix + "-diagram", [], inputHash))
    }
  }

  datatype State = State(
    sections: seq<Section>,
    current: Section,
    buf: string,
    inFence: bool,
    fenceLang: string,
    fenceBuf: string)

  const START := State([], Section("", []), "", false, "", "")

  function Add(sec: Section, b: Block): Section {
    sec.(blocks := sec.blocks + [b])
  }

  function FlushedSection(o: Origin, current: Section, buf: string): Section {
    var text := TrimSpace(buf);
    if text != "" then Add(current, o.Prose(text)) else current
  }

  function Flush(o: Origin, st: State): State {
    st.(current := FlushedSection(o, st.current, st.buf), buf := "")
  }

  predicate IsEmptySection(sec: Section) {
    sec.heading == "" && sec.blocks == []
  }

  function Close(st: State): seq<Section> {
    if IsEmptySection(st.current) then st.sections else st.sections + [st.current]
  }

  function StartSection(o: Origin, st: State, heading: string): State {
    var f := Flush(o, st);
    f.(sections := Close(f), current := Section(heading, []))
  }

  function AddDiagram(o: Origin, st: State): State {
    st.(current := Add(st.current, o.Diagram(st.fenceLang, TrimRight(st.fenceBuf, IsNewline))), fenceBuf := "",
      fenceLang := "")
  }

  function FenceLang(line: string): string
    requires FENCE <= line
  {
    var lang := TrimSpace(line[3..]);
    if lang == "" then "text" else lang
  }

  function Step(o: Origin, st: State, line: string): State {
    if FENCE <= line then
      if st.inFence then AddDiagram(o, st).(inFence := false)
      else Flush(o, st).(fenceLang := FenceLang(line), inFence := true)
    else if st.inFence then st.(fenceBuf := st.fenceBuf + line + "\n")
    else
      match AtxHeading(line)
      case Some(h) => StartSection(o, st, h)
      case None => st.(buf := st.buf + line + "\n")
  }

  function Run(o: Origin, st: State, lines: seq<string>): State
    decreases |lines|
  {
    if lines == [] then st else Run(o, Step(o, st, lines[0]), lines[1..])
  }

  lemma RunStep(o: Origin, st: State, lines: seq<string>, k: nat)
    requires k < |lines|
    ensures Run(o, st, lines[k..]) == Run(o, Step(o, st, lines[k]), lines[k + 1..])
  {
    assert lines[k..][0] == lines[k] && lines[k..][1..] == lines[k + 1..];
  }

  lemma RunEnd(o: Origin, st: State)
    ensures Run(o, st, []) == st
  {}

  function Finish(o: Origin, st: State): seq<Section> {
    var closed := if st.inFence then AddDiagram(o, st) else st;
    Close(Flush(o, closed))
  }

  function Parsed(o: Origin, md: string): seq<Section> {
    Finish(o, Run(o, START, Split(md)))
  }

  method Parse(md: string, provPrefix: string, inputHash: string) returns (sections: seq<Section>)
    ensures sections == Parsed(Origin(provPrefix, inputHash), md)
  {
    hide AtxHeading, TrimRight, TrimLeft, TrimSpace, Split, Run, FlushedSection;
    ghost var o := Origin(provPrefix, inputHash);
    var lines := Split(md);
    sections := [];
    var current := Section("", []);
    var buf := "";
    var inFence := false;
    var fenceLang := "";
    var fenceBuf := "";
    assert lines[0..] == lines;
    for k := 0 to |lines|
      invariant Run(o, START, lines) == Run(o, State(sections, current, buf, inFence, fenceLang, fenceBuf), lines[k..])
    {
      var line := lines[k];
      RunStep(o, State(sections, current, buf, inFence, fenceLang, fenceBuf), lines, k);
      if FENCE <= line {
        if inFence {
          current := AppendDiagram(current, fenceLang, fenceBuf, provPrefix, inputHash);
          fenceBuf, fenceLang := "", "";
          inFence := false;
        } else {
          current := FlushProse(current, buf, provPrefix, inputHash);
          buf := "";
          fenceLang := TrimSpace(line[3..]);
          if fenceLang == "" {
            fenceLang := "text";
          }
          inFence := true;
        }
        continue;
      }
      if inFence {
        fenceBuf := fenceBuf + line + "\n";
        continue;
      }
      var h := ParseAtxHeading(line);
      if h.Some? {
        current := FlushProse(current, buf, provPrefix, inputHash);
        buf := "";
        if current.heading != "" || |current.blocks| > 0 {
          sections := sections + [current];
        }
        current := Section(h.value, []);
        continue;
      }
      buf := buf + line + "\n";
    }
    assert lines[|lines|..] == [];
    RunEnd(o, State(sections, current, buf, inFence, fenceLang, fenceBuf));
    if inFence {
      current := AppendDiagram(current, fenceLang, fenceBuf, provPrefix, inputHash);
      fenceBuf, fenceLang := "", "";
    }
    current := FlushProse(current, buf, provPrefix, inputHash);
    if current.heading != "" || |current.blocks| > 0 {
      sections := sections + [current];
    }
  }

  method FlushProse(current: Section, buf: string, provPrefix: string, inputHash: string) returns (r: Section)
    ensures r == FlushedSection(Origin(provPrefix, inputHash), current, buf)
  {
    var text := TrimSpace(buf);
    r := current;
    if text != "" {
      r := r.(blocks := r.blocks + [ProseBlock(text, Provenance(provPrefix + "-section", [], inputHash))]);
    }
  }

  method AppendDiagram(current: Section, fenceLang: string, fenceBuf: string, provPrefix: string, inputHash: string)
    returns (r: Section)
    ensures r == Add(current, Origin(provPrefix, inputHash).Diagram(fenceLang, TrimRight(fenceBuf, IsNewline)))
  {
    var source := TrimRight(fenceBuf, IsNewline);
    r := current.(blocks := current.blocks
      + [DiagramBlock(fenceLang, source, "", Provenance(provPrefix + "-diagram", [], inputHash))]);
  }
}
