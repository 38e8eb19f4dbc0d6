/** `cachekey.go`: the key under which the rendered pages of a cluster are reused. */
module CacheKey {
  import opened Wrappers
  import opened Text
  import SortStrings

  const NUL: char := '\0'

  datatype Source = Source(scheme: string, spec: string, raw: string)
  datatype Section = Section(title: string, intent: string, render: string, sources: seq<Source>)
  datatype Page = Page(
    page: string, kind: string, audience: string, intent: string,
    sections: seq<Section>, sources: seq<Source>,
    related: seq<string>, categories: seq<string>,
    nav: string, supersedes: seq<string>)
  datatype Spec = Spec(topic: string, parent: Page, children: seq<Page>)

  /* ----- lists as text ----- */

  /** Two lists are joined alike only as the empty list and the list of one empty name are. */
  function Names(list: seq<string>): seq<string> {
    if list == [""] then [] else list
  }

  lemma {:induction false} JoinedAlikeIff(a: seq<string>, b: seq<string>, sep: char)
    requires Free(sep, a) && Free(sep, b)
    ensures Join(a, [sep]) == Join(b, [sep]) <==> Names(a) == Names(b)
  {
    var x, y := if a == [] then [""] else a, if b == [] then [""] else b;
    assert Join(x, [sep]) == Join(a, [sep]) && Join(y, [sep]) == Join(b, [sep]);
    JoinTerminates(x, sep);
    JoinTerminates(y, sep);
    if Join(a, [sep]) == Join(b, [sep]) {
      TerminatedApart(x, y, sep);
    }
  }

  lemma {:induction false} JoinIsFree(parts: seq<string>, sep: char, c: char)
    requires Free(c, parts) && c != sep
    ensures c !in Join(parts, [sep])
  {
    if |parts| > 1 {
      JoinIsFree(parts[1..], sep, c);
    }
  }

  /* ----- the sources of a page ----- */

  function SourceTexts(sources: seq<Source>): (r: seq<string>)
    ensures |r| == |sources|
    ensures forall i :: 0 <= i < |r| ==> r[i] == sources[i].scheme + ":" + sources[i].spec
  {
    seq(|sources|, i requires 0 <= i < |sources| => sources[i].scheme + ":" + sources[i].spec)
  }

  method RawSources(sources: seq<Source>) returns (r: string)
    ensures r == Join(SourceTexts(sources), "|")
  {
    var parts := [];
    for i := 0 to |sources|
      invariant parts == SourceTexts(sources)[..i]
    {
      parts := parts + [sources[i].scheme + ":" + sources[i].spec];
    }
    assert SourceTexts(sources)[..|sources|] == SourceTexts(sources);
    r := Join(parts, "|");
  }

  /** The condition of the laws below: no `:` in a scheme, and neither `|` nor NUL anywhere. */
  ghost predicate CleanSources(sources: seq<Source>) {
    forall i :: 0 <= i < |sources| ==>
      && ':' !in sources[i].scheme && '|' !in sources[i].scheme && '|' !in sources[i].spec
      && NUL !in sources[i].scheme && NUL !in sources[i].spec
  }

  ghost predicate SameSources(a: seq<Source>, b: seq<Source>) {
    && |a| == |b|
    && forall i :: 0 <= i < |a| ==> a[i].scheme == b[i].scheme && a[i].spec == b[i].spec
  }

  lemma {:induction false} SourcesAlikeIff(a: seq<Source>, b: seq<Source>)
    requires CleanSources(a) && CleanSources(b)
    ensures Join(SourceTexts(a), "|") == Join(SourceTexts(b), "|") <==> SameSources(a, b)
    ensures NUL !in Join(SourceTexts(a), "|")
  {
    hide Join;
    JoinedAlikeIff(SourceTexts(a), SourceTexts(b), '|');
    JoinIsFree(SourceTexts(a), '|', NUL);
    assert forall i :: 0 <= i < |a| ==> |SourceTexts(a)[i]| > 0;
    assert forall i :: 0 <= i < |b| ==> |SourceTexts(b)[i]| > 0;
    assert [""][0] == "";
    assert Names(SourceTexts(a)) == SourceTexts(a) && Names(SourceTexts(b)) == SourceTexts(b);
    if SourceTexts(a) == SourceTexts(b) {
      forall i | 0 <= i < |a| ensures a[i].scheme == b[i].scheme && a[i].spec == b[i].spec {
        assert SourceTexts(a)[i] == SourceTexts(b)[i];
        CutAt(a[i].scheme, a[i].spec, b[i].scheme, b[i].spec, ':');
      }
    }
  }

  /* ----- the text that is hashed for a page ----- */

  function SectionTokens(s: Section): seq<string> {
    ["sec=" + s.title, "int=" + s.intent, "render=" + s.render, "src=" + Join(SourceTexts(s.sources), "|")]
  }

  function SectionsTokens(sections: seq<Section>): seq<string> {
    if sections == [] then [] else SectionTokens(sections[0]) + SectionsTokens(sections[1..])
  }

  function HeadTokens(p: Page): seq<string> {
    ["page=" + p.page, "kind=" + p.kind, "audience=" + p.audience, "intent=" + p.intent]
  }

  function TailTokens(p: Page): seq<string> {
    ["psrc=" + Join(SourceTexts(p.sources), "|"), "related=" + Join(p.related, ","), "cats=" + Join(p.categories, ",")]
  }

  function PageTokens(p: Page): seq<string> {
    HeadTokens(p) + SectionsTokens(p.sections) + TailTokens(p)
  }

  function PageText(p: Page): string {
    Terminated(PageTokens(p), NUL)
  }

  method HashDocPage(p: Page, hash: string -> string) returns (h: string)
    ensures h == hash(PageText(p))
  {
    hide Terminated, Join;
    var b := "page=" + p.page + [NUL] + "kind=" + p.kind + [NUL]
             + "audience=" + p.audience + [NUL] + "intent=" + p.intent + [NUL];
    Four("page=" + p.page, "kind=" + p.kind, "audience=" + p.audience, "intent=" + p.intent);
    Flat("page=", p.page, "kind=", p.kind, "audience=", p.audience, "intent=", p.intent);
    assert b == Terminated(HeadTokens(p), NUL);
    NoTokens();
    assert p.sections[..0] == [];
    for i := 0 to |p.sections|
      invariant b == Terminated(HeadTokens(p), NUL) + Terminated(SectionsTokens(p.sections[..i]), NUL)
    {
      var s := p.sections[i];
      var raw := RawSources(s.sources);
      var text := "sec=" + s.title + [NUL] + "int=" + s.intent + [NUL]
                  + "render=" + s.render + [NUL] + "src=" + raw + [NUL];
      Four("sec=" + s.title, "int=" + s.intent, "render=" + s.render, "src=" + raw);
      Flat("sec=", s.title, "int=", s.intent, "render=", s.render, "src=", raw);
      OneMoreSection(p.sections, i);
      Associates(Terminated(HeadTokens(p), NUL), Terminated(SectionsTokens(p.sections[..i]), NUL), text);
      b := b + text;
    }
    assert p.sections[..|p.sections|] == p.sections;
    var raw := RawSources(p.sources);
    var related, categories := Join(p.related, ","), Join(p.categories, ",");
    var text := "psrc=" + raw + [NUL] + "related=" + related + [NUL] + "cats=" + categories + [NUL];
    Three("psrc=" + raw, "related=" + related, "cats=" + categories);
    Flat3("psrc=", raw, "related=", related, "cats=", categories);
    TerminatedAppend(HeadTokens(p), SectionsTokens(p.sections), NUL);
    TerminatedAppend(HeadTokens(p) + SectionsTokens(p.sections), TailTokens(p), NUL);
    b := b + text;
    h := hash(b);
  }

  lemma NoTokens()
    ensures Terminated([], NUL) == "" && SectionsTokens([]) == []
  {}

  lemma One(a: string)
    ensures Terminated([a], NUL) == a + [NUL]
  {
    assert Terminated([a][1..], NUL) == "";
  }

  lemma Three(a: string, b: string, c: string)
    ensures Terminated([a, b, c], NUL) == a + [NUL] + (b + [NUL] + (c + [NUL]))
  {
    hide Terminated;
    One(a);
    One(b);
    One(c);
    TerminatedAppend([b], [c], NUL);
    TerminatedAppend([a], [b] + [c], NUL);
    assert [a] + ([b] + [c]) == [a, b, c];
  }

  lemma Four(a: string, b: string, c: string, d: string)
    ensures Terminated([a, b, c, d], NUL) == a + [NUL] + (b + [NUL] + (c + [NUL] + (d + [NUL])))
  {
    hide Terminated;
    One(a);
    Three(b, c, d);
    TerminatedAppend([a], [b, c, d], NUL);
    assert [a] + [b, c, d] == [a, b, c, d];
  }

  lemma Flat3(k: string, a: string, l: string, b: string, m: string, c: string)
    ensures k + a + [NUL] + l + b + [NUL] + m + c + [NUL] ==
      (k + a) + [NUL] + ((l + b) + [NUL] + ((m + c) + [NUL]))
  {
    var x := k + a + [NUL];
    Associates(x, l, b);
    Associates(x, l + b, [NUL]);
    var y := l + b + [NUL];
    Associates(x + y, m, c);
    Associates(x + y, m + c, [NUL]);
    Associates(x, y, m + c + [NUL]);
  }

  lemma Flat(k: string, a: string, l: string, b: string, m: string, c: string, n: string, d: string)
    ensures k + a + [NUL] + l + b + [NUL] + m + c + [NUL] + n + d + [NUL] ==
      (k + a) + [NUL] + ((l + b) + [NUL] + ((m + c) + [NUL] + ((n + d) + [NUL])))
  {
    Flat3(k, a, l, b, m, c);
    var x, y, z, w := k + a + [NUL], l + b + [NUL], m + c + [NUL], n + d + [NUL];
    var xyz := x + (y + z);
    Associates(xyz, n, d);
    Associates(xyz, n + d, [NUL]);
    Associates(x, y + z, w);
    Associates(y, z, w);
  }

  lemma {:induction false} SectionsAppend(a: seq<Section>, s: Section)
    ensures SectionsTokens(a + [s]) == SectionsTokens(a) + SectionTokens(s)
  {
    hide SectionTokens;
    if a == [] {
      assert a + [s] == [s] && [s][1..] == [];
      assert SectionsTokens([s]) == SectionTokens(s) + SectionsTokens([]);
    } else {
      assert (a + [s])[1..] == a[1..] + [s];
      SectionsAppend(a[1..], s);
    }
  }

  lemma OneMoreSection(sections: seq<Section>, i: nat)
    requires i < |sections|
    ensures Terminated(SectionsTokens(sections[..i + 1]), NUL) ==
      Terminated(SectionsTokens(sections[..i]), NUL) + Terminated(SectionTokens(sections[i]), NUL)
  {
    hide Terminated, SectionsTokens, SectionTokens;
    assert sections[..i + 1] == sections[..i] + [sections[i]];
    SectionsAppend(sections[..i], sections[i]);
    TerminatedAppend(SectionsTokens(sections[..i]), SectionTokens(sections[i]), NUL);
  }

  /* ----- which pages are hashed alike ----- */

  ghost predicate CleanSection(s: Section) {
    NUL !in s.title && NUL !in s.intent && NUL !in s.render && CleanSources(s.sources)
  }

  ghost predicate CleanPage(p: Page) {
    && NUL !in p.page && NUL !in p.kind && NUL !in p.audience && NUL !in p.intent
    && (forall i :: 0 <= i < |p.sections| ==> CleanSection(p.sections[i]))
    && CleanSources(p.sources)
    && Free(NUL, p.related) && Free(',', p.related)
    && Free(NUL, p.categories) && Free(',', p.categories)
  }

  ghost predicate SameSection(s: Section, t: Section) {
    s.title == t.title && s.intent == t.intent && s.render == t.render && SameSources(s.sources, t.sources)
  }

  ghost predicate SameSections(a: seq<Section>, b: seq<Section>) {
    |a| == |b| && forall i :: 0 <= i < |a| ==> SameSection(a[i], b[i])
  }

  /**
   The pages agree on everything but how a source was written, the navigation and
   the superseded titles; a list of one empty name passes for no names.
   */
  ghost predicate SameInputs(p: Page, q: Page) {
    && p.page == q.page && p.kind == q.kind && p.audience == q.audience && p.intent == q.intent
    && SameSections(p.sections, q.sections)
    && SameSources(p.sources, q.sources)
    && Names(p.related) == Names(q.related)
    && Names(p.categories) == Names(q.categories)
  }

  lemma SameKey(k: string, x: string, y: string)
    ensures k + x == k + y <==> x == y
  {
    assert (k + x)[|k|..] == x && (k + y)[|k|..] == y;
  }

  lemma SectionAlikeIff(s: Section, t: Section)
    requires CleanSection(s) && CleanSection(t)
    ensures SectionTokens(s) == SectionTokens(t) <==> SameSection(s, t)
    ensures Free(NUL, SectionTokens(s))
  {
    hide Join;
    SourcesAlikeIff(s.sources, t.sources);
    SameKey("sec=", s.title, t.title);
    SameKey("int=", s.intent, t.intent);
    SameKey("render=", s.render, t.render);
    SameKey("src=", Join(SourceTexts(s.sources), "|"), Join(SourceTexts(t.sources), "|"));
    var a, b := SectionTokens(s), SectionTokens(t);
    if a == b {
      assert a[0] == b[0] && a[1] == b[1] && a[2] == b[2] && a[3] == b[3];
    }
  }

  /** No page tail begins like a section. */
  ghost predicate IsTail(t: seq<string>) {
    |t| == 3 && |t[0]| > 0 && t[0][0] == 'p'
  }

  lemma {:induction false} SectionsAlikeIff(a: seq<Section>, b: seq<Section>, t: seq<string>, u: seq<string>)
    requires forall i :: 0 <= i < |a| ==> CleanSection(a[i])
    requires forall i :: 0 <= i < |b| ==> CleanSection(b[i])
    requires IsTail(t) && IsTail(u)
    ensures SectionsTokens(a) + t == SectionsTokens(b) + u <==> SameSections(a, b) && t == u
  {
    hide CleanSection, SameSection;
    if a == [] || b == [] {
      SectionsStart(a, t);
      SectionsStart(b, u);
    } else {
      SectionsAlikeIff(a[1..], b[1..], t, u);
      SectionAlikeIff(a[0], b[0]);
      SectionsCons(a, t);
      SectionsCons(b, u);
      FourAhead(SectionTokens(a[0]), SectionsTokens(a[1..]) + t, SectionTokens(b[0]), SectionsTokens(b[1..]) + u);
      SameSectionsCons(a, b);
    }
  }

  lemma SectionsStart(a: seq<Section>, t: seq<string>)
    requires IsTail(t)
    ensures a == [] ==> SectionsTokens(a) + t == t
    ensures a != [] ==>
      |SectionsTokens(a) + t| > 0 && |(SectionsTokens(a) + t)[0]| > 0 && (SectionsTokens(a) + t)[0][0] == 's'
  {}

  lemma SectionsCons(a: seq<Section>, t: seq<string>)
    requires a != []
    ensures SectionsTokens(a) + t == SectionTokens(a[0]) + (SectionsTokens(a[1..]) + t)
    ensures |SectionTokens(a[0])| == 4
  {}

  lemma FourAhead(x: seq<string>, r: seq<string>, y: seq<string>, s: seq<string>)
    requires |x| == |y|
    ensures x + r == y + s <==> x == y && r == s
  {
    if x + r == y + s {
      assert x == (x + r)[..|x|] && r == (x + r)[|x|..];
      assert y == (y + s)[..|y|] && s == (y + s)[|y|..];
    }
  }

  lemma SameSectionsCons(a: seq<Section>, b: seq<Section>)
    requires a != [] && b != []
    ensures SameSections(a, b) <==> SameSection(a[0], b[0]) && SameSections(a[1..], b[1..])
  {
    hide SameSection;
    if SameSection(a[0], b[0]) && SameSections(a[1..], b[1..]) {
      forall i | 0 <= i < |a| ensures SameSection(a[i], b[i]) {
        if i > 0 {
          assert SameSection(a[1..][i - 1], b[1..][i - 1]);
        }
      }
    }
  }

  lemma HeadAlikeIff(p: Page, q: Page)
    ensures HeadTokens(p) == HeadTokens(q) <==>
      p.page == q.page && p.kind == q.kind && p.audience == q.audience && p.intent == q.intent
  {
    SameKey("page=", p.page, q.page);
    SameKey("kind=", p.kind, q.kind);
    SameKey("audience=", p.audience, q.audience);
    SameKey("intent=", p.intent, q.intent);
    var a, b := HeadTokens(p), HeadTokens(q);
    if a == b {
      assert a[0] == b[0] && a[1] == b[1] && a[2] == b[2] && a[3] == b[3];
    }
  }

  lemma TailAlikeIff(p: Page, q: Page)
    requires CleanPage(p) && CleanPage(q)
    ensures TailTokens(p) == TailTokens(q) <==>
      SameSources(p.sources, q.sources) && Names(p.related) == Names(q.related) &&
        Names(p.categories) == Names(q.categories)
    ensures IsTail(TailTokens(p)) && Free(NUL, TailTokens(p))
  {
    hide Join, Names;
    SourcesAlikeIff(p.sources, q.sources);
    JoinedAlikeIff(p.related, q.related, ',');
    JoinedAlikeIff(p.categories, q.categories, ',');
    JoinIsFree(p.related, ',', NUL);
    JoinIsFree(p.categories, ',', NUL);
    SameKey("psrc=", Join(SourceTexts(p.sources), "|"), Join(SourceTexts(q.sources), "|"));
    SameKey("related=", Join(p.related, ","), Join(q.related, ","));
    SameKey("cats=", Join(p.categories, ","), Join(q.categories, ","));
    var a, b := TailTokens(p), TailTokens(q);
    if a == b {
      assert a[0] == b[0] && a[1] == b[1] && a[2] == b[2];
    }
  }

  lemma {:induction false} SectionsAreFree(sections: seq<Section>)
    requires forall i :: 0 <= i < |sections| ==> CleanSection(sections[i])
    ensures Free(NUL, SectionsTokens(sections))
  {
    hide CleanSection, SectionTokens;
    if sections != [] {
      SectionAlikeIff(sections[0], sections[0]);
      SectionsAreFree(sections[1..]);
    }
  }

  lemma PageIsFree(p: Page)
    requires CleanPage(p)
    ensures Free(NUL, PageTokens(p))
  {
    hide Join;
    SectionsAreFree(p.sections);
    TailAlikeIff(p, p);
    assert Free(NUL, HeadTokens(p));
    hide *;
    FreeAppend(HeadTokens(p), SectionsTokens(p.sections));
    FreeAppend(HeadTokens(p) + SectionsTokens(p.sections), TailTokens(p));
    PageTokensAre(p);
  }

  lemma PageTokensAre(p: Page)
    ensures PageTokens(p) == HeadTokens(p) + SectionsTokens(p.sections) + TailTokens(p)
    ensures PageTokens(p) == HeadTokens(p) + (SectionsTokens(p.sections) + TailTokens(p))
    ensures |HeadTokens(p)| == 4
  {}

  lemma FreeAppend(a: seq<string>, b: seq<string>)
    requires Free(NUL, a) && Free(NUL, b)
    ensures Free(NUL, a + b)
  {}

  /** The text that is hashed determines, over any number of sections, exactly the inputs it is made of. */
  lemma {:induction false} PageTextsAlikeIff(p: Page, q: Page)
    requires CleanPage(p) && CleanPage(q)
    ensures PageText(p) == PageText(q) <==> SameInputs(p, q)
  {
    hide Join, Terminated, HeadTokens, TailTokens, PageTokens, SectionsTokens, CleanSection, SameSection,
      SameSections, SameSources, Names;
    PageIsFree(p);
    PageIsFree(q);
    if PageText(p) == PageText(q) {
      TerminatedApart(PageTokens(p), PageTokens(q), NUL);
    }
    PageTokensAre(p);
    PageTokensAre(q);
    HeadAlikeIff(p, q);
    TailAlikeIff(p, q);
    TailAlikeIff(q, p);
    FourAhead(HeadTokens(p), SectionsTokens(p.sections) + TailTokens(p), HeadTokens(q), SectionsTokens(q.sections)
      + TailTokens(q));
    SectionsAlikeIff(p.sections, q.sections, TailTokens(p), TailTokens(q));
  }

  /** With a NUL in a field two different pages can have the same text. */
  lemma {:induction false} PagesWithNulAreConfused(p: Page, x: string, y: string)
    requires p.page == x && p.kind == y + [NUL] + "kind=" + x
    ensures var q := p.(page := x + [NUL] + "kind=" + y, kind := x);
      PageText(p) == PageText(q) && !SameInputs(p, q)
  {
    hide Terminated, Join;
    assert |x + [NUL] + "kind=" + y| > |x|;
    var q := p.(page := x + [NUL] + "kind=" + y, kind := x);
    var rest := ["audience=" + p.audience, "intent=" + p.intent] + (SectionsTokens(p.sections) + TailTokens(p));
    assert PageTokens(p) == ["page=" + p.page, "kind=" + p.kind] + rest;
    assert PageTokens(q) == ["page=" + q.page, "kind=" + q.kind] + rest;
    TwoAhead("page=" + p.page, "kind=" + p.kind, rest);
    TwoAhead("page=" + q.page, "kind=" + q.kind, rest);
    assert "page=" + p.page + [NUL] + ("kind=" + p.kind + [NUL]) ==
      "page=" + q.page + [NUL] + ("kind=" + q.kind + [NUL]);
  }

  /** So can two lists of names when a name has a comma. */
  lemma {:induction false} NamesWithCommaAreConfused(p: Page, x: string, y: string)
    requires p.related == [x + "," + y]
    ensures var q := p.(related := [x, y]);
      PageText(p) == PageText(q) && !SameInputs(p, q)
  {
    hide Terminated;
    var q := p.(related := [x, y]);
    assert [x, y][1..] == [y];
    assert Join(q.related, ",") == x + [','] + y;
    assert PageTokens(p) == PageTokens(q);
    assert |x + "," + y| > 0;
  }

  /** And two lists of sources when one has a `|`. */
  lemma {:induction false} SourcesWithBarAreConfused(p: Page, a: Source, b: Source)
    requires p.sources == [Source(a.scheme, a.spec + "|" + b.scheme + ":" + b.spec, a.raw)]
    ensures var q := p.(sources := [a, b]);
      PageText(p) == PageText(q) && !SameInputs(p, q)
  {
    hide Terminated;
    var q := p.(sources := [a, b]);
    var x, y := a.scheme + ":" + a.spec, b.scheme + ":" + b.spec;
    assert SourceTexts(q.sources) == [x, y] && [x, y][1..] == [y];
    assert Join(SourceTexts(q.sources), "|") == x + ['|'] + y;
    assert SourceTexts(p.sources) == [a.scheme + ":" + (a.spec + "|" + b.scheme + ":" + b.spec)];
    assert a.scheme + ":" + (a.spec + "|" + b.scheme + ":" + b.spec) == x + ['|'] + y;
    assert PageTokens(p) == PageTokens(q);
  }

  lemma TwoAhead(a: string, b: string, rest: seq<string>)
    ensures Terminated([a, b] + rest, NUL) == a + [NUL] + (b + [NUL]) + Terminated(rest, NUL)
  {
    hide Terminated;
    One(a);
    One(b);
    TerminatedAppend([a], [b], NUL);
    TerminatedAppend([a] + [b], rest, NUL);
    assert [a, b] == [a] + [b];
  }

  /* ----- the areas a page reads ----- */

  predicate NamesArea(token: string) {
    |token| > 5 && token[..5] == "area="
  }

  function TokenAreas(tokens: seq<string>): set<string> {
    if tokens == [] then {}
    else TokenAreas(tokens[..|tokens| - 1]) +
         (var t := tokens[|tokens| - 1]; if NamesArea(t) then {t[5..]} else {})
  }

  function SourceAreas(sources: seq<Source>): set<string> {
    if sources == [] then {}
    else SourceAreas(sources[..|sources| - 1]) +
         (var s := sources[|sources| - 1]; if s.scheme == "kb" then TokenAreas(Fields(s.spec)) else {})
  }

  function SectionAreas(sections: seq<Section>): set<string> {
    if sections == [] then {}
    else SectionAreas(sections[..|sections| - 1]) + SourceAreas(sections[|sections| - 1].sources)
  }

  function PageAreas(p: Page): set<string> {
    SourceAreas(p.sources) + SectionAreas(p.sections)
  }

  function ClusterAreas(pages: seq<Page>): set<string> {
    if pages == [] then {} else ClusterAreas(pages[..|pages| - 1]) + PageAreas(pages[|pages| - 1])
  }

  /** The closure `collect` of `pageAreas`: add the areas that the sources name. */
  method Collect(seen: set<string>, sources: seq<Source>) returns (r: set<string>)
    ensures r == seen + SourceAreas(sources)
  {
    hide Fields;
    r := seen;
    for i := 0 to |sources|
      invariant r == seen + SourceAreas(sources[..i])
    {
      var s := sources[i];
      assert sources[..i + 1][..i] == sources[..i];
      if s.scheme != "kb" {
        continue;
      }
      var tokens := Fields(s.spec);
      for k := 0 to |tokens|
        invariant r == seen + SourceAreas(sources[..i]) + TokenAreas(tokens[..k])
      {
        assert tokens[..k + 1][..k] == tokens[..k];
        if |tokens[k]| >= 5 && tokens[k][..5] == "area=" {
          var a := tokens[k][5..];
          if a != "" {
            r := r + {a};
          }
        }
      }
      assert tokens[..|tokens|] == tokens;
    }
    assert sources[..|sources|] == sources;
  }

  /** The areas of the page, sorted. */
  method CollectPageAreas(p: Page) returns (out: seq<string>)
    ensures SortStrings.Sorted(out) && multiset(out) == multiset(PageAreas(p))
  {
    hide SourceAreas, SortStrings.Sorted;
    var seen := Collect({}, p.sources);
    for i := 0 to |p.sections|
      invariant seen == SourceAreas(p.sources) + SectionAreas(p.sections[..i])
    {
      assert p.sections[..i + 1][..i] == p.sections[..i];
      seen := Collect(seen, p.sections[i].sources);
    }
    assert p.sections[..|p.sections|] == p.sections;
    var list := Listed(seen);
    SortStrings.Sort(list);
    out := list[..];
  }

  /** The elements of a set, in whatever order the set is walked. */
  method Listed(seen: set<string>) returns (list: array<string>)
    ensures fresh(list) && multiset(list[..]) == multiset(seen)
  {
    var out, todo := [], seen;
    assert seen - todo == {};
    while todo != {}
      invariant todo <= seen && multiset(out) == multiset(seen - todo)
      decreases todo
    {
      var a :| a in todo;
      OneMoreListed(seen, todo, a);
      out := out + [a];
      todo := todo - {a};
    }
    assert seen - todo == seen;
    list := new string[|out|](i requires 0 <= i < |out| => out[i]);
    assert list[..] == out;
  }

  lemma OneMoreListed(seen: set<string>, todo: set<string>, a: string)
    requires todo <= seen && a in todo
    ensures multiset(seen - (todo - {a})) == multiset(seen - todo) + multiset{a}
  {
    assert seen - (todo - {a}) == (seen - todo) + {a};
  }

  ghost predicate SourceReads(s: Source, area: string) {
    s.scheme == "kb" && area != "" && "area=" + area in Fields(s.spec)
  }

  lemma {:induction false} TokenAreasMeaning(tokens: seq<string>, area: string)
    ensures area in TokenAreas(tokens) <==> area != "" && "area=" + area in tokens
  {
    if tokens != [] {
      var front, t := tokens[..|tokens| - 1], tokens[|tokens| - 1];
      TokenAreasMeaning(front, area);
      assert tokens == front + [t];
      assert ("area=" + area)[..5] == "area=" && ("area=" + area)[5..] == area;
      assert NamesArea(t) ==> t == "area=" + t[5..];
    }
  }

  lemma {:induction false} SourceAreasMeaning(sources: seq<Source>, area: string)
    ensures area in SourceAreas(sources) <==> exists i :: 0 <= i < |sources| && SourceReads(sources[i], area)
  {
    hide Fields, TokenAreas;
    if sources != [] {
      var n := |sources| - 1;
      SourceAreasMeaning(sources[..n], area);
      TokenAreasMeaning(Fields(sources[n].spec), area);
      assert forall i :: 0 <= i < n ==> sources[..n][i] == sources[i];
    }
  }

  /** A page reads the areas that one of its own or its sections' `kb` sources names. */
  lemma {:induction false} SectionAreasMeaning(sections: seq<Section>, area: string)
    ensures area in SectionAreas(sections) <==>
      exists i, k :: 0 <= i < |sections| && 0 <= k < |sections[i].sources| && SourceReads(sections[i].sources[k], area)
  {
    hide SourceReads, SourceAreas;
    if sections != [] {
      var n := |sections| - 1;
      SectionAreasMeaning(sections[..n], area);
      SourceAreasMeaning(sections[n].sources, area);
      assert forall i :: 0 <= i < n ==> sections[..n][i] == sections[i];
    }
  }

  /** A `kb` source of the page, or of one of its sections, names the area. */
  ghost predicate PageReads(p: Page, area: string) {
    || (exists i :: 0 <= i < |p.sources| && SourceReads(p.sources[i], area))
    || (exists i, k :: 0 <= i < |p.sections| && 0 <= k < |p.sections[i].sources| &&
          SourceReads(p.sections[i].sources[k], area))
  }

  /** A page reads the areas that its own `kb` sources and those of its sections name, and no others. */
  lemma {:induction false} PageAreasMeaning(p: Page, area: string)
    ensures area in PageAreas(p) <==> PageReads(p, area)
  {
    hide SourceReads, SourceAreas, SectionAreas;
    SourceAreasMeaning(p.sources, area);
    SectionAreasMeaning(p.sections, area);
  }

  /** The parent or a child reads the area. */
  ghost predicate ClusterReads(spec: Spec, area: string) {
    PageReads(spec.parent, area) || exists i :: 0 <= i < |spec.children| && PageReads(spec.children[i], area)
  }

  lemma {:induction false} AreasOfPagesMeaning(pages: seq<Page>, area: string)
    ensures area in ClusterAreas(pages) <==> exists i :: 0 <= i < |pages| && PageReads(pages[i], area)
  {
    hide PageReads, PageAreas;
    if pages != [] {
      var n := |pages| - 1;
      AreasOfPagesMeaning(pages[..n], area);
      PageAreasMeaning(pages[n], area);
      assert forall i :: 0 <= i < n ==> pages[..n][i] == pages[i];
    }
  }

  /** A cluster reads the areas that its parent and its children read. */
  lemma {:induction false} ClusterAreasMeaning(spec: Spec, area: string)
    ensures area in ClusterAreas(Pages(spec)) <==> ClusterReads(spec, area)
  {
    hide PageReads, ClusterAreas;
    var pages := Pages(spec);
    AreasOfPagesMeaning(pages, area);
    assert pages[0] == spec.parent && forall i :: 0 <= i < |spec.children| ==> pages[i + 1] == spec.children[i];
    if i :| 0 <= i < |pages| && PageReads(pages[i], area) && i > 0 {
      assert PageReads(spec.children[i - 1], area);
    }
  }

  lemma {:induction false} SameSourcesReadAlike(a: seq<Source>, b: seq<Source>)
    requires SameSources(a, b)
    ensures SourceAreas(a) == SourceAreas(b)
  {
    hide Fields;
    if a != [] {
      SameSourcesReadAlike(a[..|a| - 1], b[..|b| - 1]);
    }
  }

  lemma {:induction false} SameSectionsReadAlike(a: seq<Section>, b: seq<Section>)
    requires SameSections(a, b)
    ensures SectionAreas(a) == SectionAreas(b)
  {
    hide SourceAreas, SameSources;
    if a != [] {
      var n := |a| - 1;
      SameSectionsReadAlike(a[..n], b[..n]);
      assert SameSection(a[n], b[n]);
      SameSourcesReadAlike(a[n].sources, b[n].sources);
    }
  }

  /* ----- the key of a cluster ----- */

  function Pages(spec: Spec): seq<Page> {
    [spec.parent] + spec.children
  }

  function Hashes(pages: seq<Page>, hash: string -> string): (r: seq<string>)
    ensures |r| == |pages| && forall i :: 0 <= i < |r| ==> r[i] == hash(PageText(pages[i]))
  {
    seq(|pages|, i requires 0 <= i < |pages| => hash(PageText(pages[i])))
  }

  function SpecText(spec: Spec, hash: string -> string): string {
    Terminated(["topic=" + spec.topic] + Hashes(Pages(spec), hash), NUL)
  }

  /** `kbHash` is the hash of the part of the knowledge base that lies in the given areas. */
  function KeyText(spec: Spec, kbHash: set<string> -> string, version: string, hash: string -> string): string {
    hash(SpecText(spec, hash)) + ['|'] + (kbHash(ClusterAreas(Pages(spec))) + ['|'] + version)
  }

  lemma SameElements(s: seq<string>, t: set<string>)
    requires multiset(s) == multiset(t)
    ensures (set a <- s) == t
  {
    forall a ensures a in s <==> a in t {
      assert a in multiset(s) <==> a in multiset(t);
    }
  }

  method ClusterKey(
      spec: Spec, kbHash: set<string> -> string, version: string, hash: string -> string) returns (key: string)
    ensures key == hash(KeyText(spec, kbHash, version, hash))
  {
    hide Terminated, PageText, PageAreas;
    var pages := [spec.parent] + spec.children;
    ghost var hashes := Hashes(pages, hash);
    var b := "topic=" + spec.topic + [NUL];
    One("topic=" + spec.topic);
    var areas := {};
    assert ["topic=" + spec.topic] + hashes[..0] == ["topic=" + spec.topic];
    for i := 0 to |pages|
      invariant b == Terminated(["topic=" + spec.topic] + hashes[..i], NUL)
      invariant areas == ClusterAreas(pages[..i])
    {
      assert pages[..i + 1][..i] == pages[..i];
      var h := HashDocPage(pages[i], hash);
      One(h);
      TerminatedAppend(["topic=" + spec.topic] + hashes[..i], [h], NUL);
      assert ["topic=" + spec.topic] + hashes[..i + 1] == ["topic=" + spec.topic] + hashes[..i] + [h];
      b := b + (h + [NUL]);
      var read := CollectPageAreas(pages[i]);
      SameElements(read, PageAreas(pages[i]));
      areas := areas + (set a <- read);
    }
    assert pages[..|pages|] == pages && hashes[..|pages|] == hashes;
    key := hash(hash(b) + "|" + kbHash(areas) + "|" + version);
    assert hash(b) + "|" + kbHash(areas) + "|" + version == hash(b) + ['|'] + (kbHash(areas) + ['|'] + version);
  }

  /** The texts that are hashed for a cluster. */
  ghost predicate Hashed(
      t: string, spec: Spec, kbHash: set<string> -> string, version: string, hash: string -> string) {
    || t == KeyText(spec, kbHash, version, hash)
    || t == SpecText(spec, hash)
    || exists i :: 0 <= i < |Pages(spec)| && t == PageText(Pages(spec)[i])
  }

  ghost predicate DoNotCollide(t: string, u: string, hash: string -> string) {
    hash(t) == hash(u) ==> t == u
  }

  ghost predicate CleanSpec(spec: Spec) {
    NUL !in spec.topic && CleanPage(spec.parent) &&
    forall i :: 0 <= i < |spec.children| ==> CleanPage(spec.children[i])
  }

  ghost predicate IsHash(h: string) {
    NUL !in h && '|' !in h
  }

  ghost predicate SameCluster(a: Spec, b: Spec) {
    && a.topic == b.topic
    && SameInputs(a.parent, b.parent)
    && |a.children| == |b.children|
    && forall i :: 0 <= i < |a.children| ==> SameInputs(a.children[i], b.children[i])
  }

  lemma SamePages(a: Spec, b: Spec)
    ensures SameCluster(a, b) <==>
      && a.topic == b.topic && |Pages(a)| == |Pages(b)|
      && forall i :: 0 <= i < |Pages(a)| ==> SameInputs(Pages(a)[i], Pages(b)[i])
  {
    hide SameInputs;
    SameBehindFirst(a.parent, b.parent, a.children, b.children);
  }

  ghost predicate AllSame(p: seq<Page>, q: seq<Page>) {
    |p| == |q| && forall i :: 0 <= i < |p| ==> SameInputs(p[i], q[i])
  }

  lemma SameBehindFirst(x: Page, y: Page, p: seq<Page>, q: seq<Page>)
    ensures AllSame([x] + p, [y] + q) <==> SameInputs(x, y) && AllSame(p, q)
  {
    hide SameInputs, AllSame;
    if AllSame([x] + p, [y] + q) {
      SameFromFirst(x, y, p, q);
    }
    if SameInputs(x, y) && AllSame(p, q) {
      SameWithFirst(x, y, p, q);
    }
  }

  lemma SameFromFirst(x: Page, y: Page, p: seq<Page>, q: seq<Page>)
    requires AllSame([x] + p, [y] + q)
    ensures SameInputs(x, y) && AllSame(p, q)
  {
    hide SameInputs;
    var a, b := [x] + p, [y] + q;
    assert SameInputs(a[0], b[0]);
    forall i | 0 <= i < |p| ensures SameInputs(p[i], q[i]) {
      assert SameInputs(a[i + 1], b[i + 1]);
    }
  }

  lemma SameWithFirst(x: Page, y: Page, p: seq<Page>, q: seq<Page>)
    requires SameInputs(x, y) && AllSame(p, q)
    ensures AllSame([x] + p, [y] + q)
  {
    hide SameInputs;
    var a, b := [x] + p, [y] + q;
    forall i | 0 <= i < |a| ensures SameInputs(a[i], b[i]) {
      assert i > 0 ==> SameInputs(p[i - 1], q[i - 1]);
    }
  }

  lemma {:induction false} SamePagesReadAlike(a: seq<Page>, b: seq<Page>)
    requires |a| == |b| && forall i :: 0 <= i < |a| ==> SameInputs(a[i], b[i])
    ensures ClusterAreas(a) == ClusterAreas(b)
  {
    hide SourceAreas, SectionAreas, SameSources, SameSections;
    if a != [] {
      var n := |a| - 1;
      SamePagesReadAlike(a[..n], b[..n]);
      assert SameInputs(a[n], b[n]);
      SameSourcesReadAlike(a[n].sources, b[n].sources);
      SameSectionsReadAlike(a[n].sections, b[n].sections);
    }
  }

  lemma CleanPages(spec: Spec)
    requires CleanSpec(spec)
    ensures NUL !in spec.topic && forall i :: 0 <= i < |Pages(spec)| ==> CleanPage(Pages(spec)[i])
  {
    hide CleanPage;
  }

  lemma SpecTextsAlikeIff(a: Spec, b: Spec, hash: string -> string)
    requires CleanSpec(a) && CleanSpec(b)
    requires forall t :: IsHash(hash(t))
    requires forall i, j :: 0 <= i < |Pages(a)| && 0 <= j < |Pages(b)| ==>
      DoNotCollide(PageText(Pages(a)[i]), PageText(Pages(b)[j]), hash)
    ensures SpecText(a, hash) == SpecText(b, hash) <==> SameCluster(a, b)
  {
    hide CleanPage, SameInputs, PageText, Terminated, Pages, SameCluster, CleanSpec;
    var p, q := Pages(a), Pages(b);
    SamePages(a, b);
    CleanPages(a);
    CleanPages(b);
    var x, y := ["topic=" + a.topic] + Hashes(p, hash), ["topic=" + b.topic] + Hashes(q, hash);
    assert Free(NUL, x) && Free(NUL, y);
    if SpecText(a, hash) == SpecText(b, hash) {
      TerminatedApart(x, y, NUL);
    }
    FourAhead(["topic=" + a.topic], Hashes(p, hash), ["topic=" + b.topic], Hashes(q, hash));
    SameKey("topic=", a.topic, b.topic);
    assert ["topic=" + a.topic][0] == "topic=" + a.topic && ["topic=" + b.topic][0] == "topic=" + b.topic;
    forall i | 0 <= i < |p| && |p| == |q|
      ensures SameInputs(p[i], q[i]) <==> Hashes(p, hash)[i] == Hashes(q, hash)[i]
    {
      PageTextsAlikeIff(p[i], q[i]);
    }
    assert |p| == |q| && (forall i :: 0 <= i < |p| ==> Hashes(p, hash)[i] == Hashes(q, hash)[i]) ==>
      Hashes(p, hash) == Hashes(q, hash);
  }

  /**
   When no two of the texts hashed for two clusters collide, the clusters have the
   same key exactly when they agree on the topic, on every page's inputs, on the
   knowledge base within the areas that some `kb` source of some page names, and on
   the pipeline version.
   */
  lemma {:induction false} ClusterKeysAlikeIff(
      a: Spec, kbA: set<string> -> string, versionA: string, areasA: set<string>,
      b: Spec, kbB: set<string> -> string, versionB: string, areasB: set<string>, hash: string -> string)
    requires CleanSpec(a) && CleanSpec(b)
    requires (forall t :: IsHash(hash(t))) && (forall s :: IsHash(kbA(s)) && IsHash(kbB(s)))
    requires forall t, u :: Hashed(t, a, kbA, versionA, hash) && Hashed(u, b, kbB, versionB, hash) ==>
      DoNotCollide(t, u, hash)
    requires forall x :: x in areasA <==> ClusterReads(a, x)
    requires forall x :: x in areasB <==> ClusterReads(b, x)
    ensures hash(KeyText(a, kbA, versionA, hash)) == hash(KeyText(b, kbB, versionB, hash)) <==>
      SameCluster(a, b) && areasA == areasB && kbA(areasA) == kbB(areasB) && versionA == versionB
  {
    hide ClusterAreas, KeyText, SameCluster, Hashed, CleanSpec;
    forall x ensures x in ClusterAreas(Pages(a)) <==> x in areasA {
      ClusterAreasMeaning(a, x);
    }
    forall x ensures x in ClusterAreas(Pages(b)) <==> x in areasB {
      ClusterAreasMeaning(b, x);
    }
    assert ClusterAreas(Pages(a)) == areasA && ClusterAreas(Pages(b)) == areasB;
    KeyTextsAlikeIff(a, kbA, versionA, b, kbB, versionB, hash);
  }

  lemma {:induction false} KeyTextsAlikeIff(
      a: Spec, kbA: set<string> -> string, versionA: string,
      b: Spec, kbB: set<string> -> string, versionB: string, hash: string -> string)
    requires CleanSpec(a) && CleanSpec(b)
    requires (forall t :: IsHash(hash(t))) && (forall s :: IsHash(kbA(s)) && IsHash(kbB(s)))
    requires forall t, u :: Hashed(t, a, kbA, versionA, hash) && Hashed(u, b, kbB, versionB, hash) ==>
      DoNotCollide(t, u, hash)
    ensures hash(KeyText(a, kbA, versionA, hash)) == hash(KeyText(b, kbB, versionB, hash)) <==>
      && SameCluster(a, b)
      && ClusterAreas(Pages(a)) == ClusterAreas(Pages(b))
      && kbA(ClusterAreas(Pages(a))) == kbB(ClusterAreas(Pages(b)))
      && versionA == versionB
  {
    hide CleanSpec, SpecText, ClusterAreas, PageText, Pages, SameCluster, SameInputs;
    forall i, j | 0 <= i < |Pages(a)| && 0 <= j < |Pages(b)|
      ensures DoNotCollide(PageText(Pages(a)[i]), PageText(Pages(b)[j]), hash)
    {
      assert Hashed(PageText(Pages(a)[i]), a, kbA, versionA, hash);
      assert Hashed(PageText(Pages(b)[j]), b, kbB, versionB, hash);
    }
    SpecTextsAlikeIff(a, b, hash);
    assert Hashed(SpecText(a, hash), a, kbA, versionA, hash) && Hashed(SpecText(b, hash), b, kbB, versionB, hash);
    assert Hashed(KeyText(a, kbA, versionA, hash), a, kbA, versionA, hash) &&
      Hashed(KeyText(b, kbB, versionB, hash), b, kbB, versionB, hash);
    SamePages(a, b);
    if SameCluster(a, b) {
      SamePagesReadAlike(Pages(a), Pages(b));
    }
    var kA, kB := kbA(ClusterAreas(Pages(a))), kbB(ClusterAreas(Pages(b)));
    if KeyText(a, kbA, versionA, hash) == KeyText(b, kbB, versionB, hash) {
      CutAt(hash(SpecText(a, hash)), kA + ['|'] + versionA, hash(SpecText(b, hash)), kB + ['|'] + versionB, '|');
      CutAt(kA, versionA, kB, versionB, '|');
    }
  }
}
