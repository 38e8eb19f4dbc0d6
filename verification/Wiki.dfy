/** `memory.go`: the in-process wiki, with newest-first page histories. */
module Wiki {
  import opened Wrappers

  datatype Revision = Revision(id: string, user: string, comment: string, isBot: bool)

  /** Revisions and contents are aligned, newest first. */
  datatype PageState = PageState(revisions: seq<Revision>, contents: seq<string>)

  datatype Page = Page(title: string, content: string, latestRevision: Revision)

  type Pages = map<string, PageState>

  /** Spaces and underscores are interchangeable in titles. */
  function NormTitle(t: string): string {
    seq(|t|, i requires 0 <= i < |t| => if t[i] == ' ' then '_' else t[i])
  }

  function StateOf(pages: Pages, title: string): PageState {
    var key := NormTitle(title);
    if key in pages then pages[key] else PageState([], [])
  }

  ghost predicate Aligned(pages: Pages) {
    forall key <- pages :: |pages[key].revisions| == |pages[key].contents|
  }

  function Prepended(pages: Pages, title: string, rev: Revision, content: string): Pages {
    var p := StateOf(pages, title);
    pages[NormTitle(title) := PageState([rev] + p.revisions, [content] + p.contents)]
  }

  function PageAt(pages: Pages, title: string): Option<Page>
    requires Aligned(pages)
  {
    var p := StateOf(pages, title);
    if p.revisions == [] then None
    else Some(Page(title, p.contents[0], p.revisions[0]))
  }

  /** The revisions that are newer than `id`: all of them when `id` is not there. */
  function NewerThan(revisions: seq<Revision>, id: string): (r: seq<Revision>)
    ensures r <= revisions
    ensures forall rev <- r :: rev.id != id
    ensures r != revisions ==> revisions[|r|].id == id
  {
    if revisions == [] || revisions[0].id == id then []
    else [revisions[0]] + NewerThan(revisions[1..], id)
  }

  function Humans(revisions: seq<Revision>): seq<Revision> {
    if revisions == [] then []
    else (if revisions[0].isBot then [] else [revisions[0]]) + Humans(revisions[1..])
  }

  lemma {:induction false} HumansAppend(a: seq<Revision>, b: seq<Revision>)
    ensures Humans(a + b) == Humans(a) + Humans(b)
  {
    if a == [] {
      assert a + b == b;
    } else {
      HumansAppend(a[1..], b);
      var first := if a[0].isBot then [] else [a[0]];
      HumansFirst(a[0], a[1..] + b);
      assert a + b == [a[0]] + (a[1..] + b);
      Associates(first, Humans(a[1..]), Humans(b));
    }
  }

  lemma HumansFirst(rev: Revision, rest: seq<Revision>)
    ensures Humans([rev] + rest) == (if rev.isBot then [] else [rev]) + Humans(rest)
  {
    assert ([rev] + rest)[1..] == rest;
  }

  lemma NewerThanFirst(revisions: seq<Revision>, i: nat, id: string)
    requires i < |revisions|
    ensures NewerThan(revisions[i..], id) ==
      if revisions[i].id == id then [] else [revisions[i]] + NewerThan(revisions[i + 1..], id)
  {
    assert revisions[i..][1..] == revisions[i + 1..];
  }

  lemma NewerThanNothing(id: string)
    ensures NewerThan([], id) == []
  {}

  class Target {
    const identity: string
    var pages: Pages

    ghost predicate Valid()
      reads this
    {
      Aligned(pages)
    }

    constructor (identity: string)
      ensures Valid() && pages == map[] && this.identity == identity
    {
      this.identity := identity;
      pages := map[];
    }

    method GetPage(title: string) returns (page: Option<Page>)
      requires Valid()
      ensures page == PageAt(pages, title)
    {
      var key := NormTitle(title);
      if key !in pages || |pages[key].revisions| == 0 {
        return None;
      }
      var p := pages[key];
      return Some(Page(title, p.contents[0], p.revisions[0]));
    }

    /** `id` stands for the random revision ID. */
    method UpsertPage(title: string, content: string, summary: string, id: string) returns (rev: Revision)
      requires Valid()
      modifies this
      ensures Valid()
      ensures rev == Revision(id, identity, summary, true)
      ensures pages == Prepended(old(pages), title, rev, content)
    {
      rev := Revision(id, identity, summary, true);
      Prepend(title, rev, content);
    }

    method SimulateHumanEdit(title: string, user: string, content: string, summary: string, id: string)
      requires Valid()
      modifies this
      ensures Valid()
      ensures pages == Prepended(old(pages), title, Revision(id, user, summary, false), content)
    {
      Prepend(title, Revision(id, user, summary, false), content);
    }

    method Prepend(title: string, rev: Revision, content: string)
      requires Valid()
      modifies this
      ensures Valid()
      ensures pages == Prepended(old(pages), title, rev, content)
    {
      var key := NormTitle(title);
      var p := PageState([], []);
      if key in pages {
        p := pages[key];
      }
      pages := pages[key := PageState([rev] + p.revisions, [content] + p.contents)];
    }

    method History(title: string, sinceRevID: string) returns (out: seq<Revision>)
      requires Valid()
      ensures var all := StateOf(pages, title).revisions;
        out == if sinceRevID == "" then all else NewerThan(all, sinceRevID)
    {
      var key := NormTitle(title);
      if key !in pages {
        return [];
      }
      var revisions := pages[key].revisions;
      if sinceRevID == "" {
        return revisions;
      }
      hide NewerThan;
      out := [];
      assert revisions[0..] == revisions;
      assert NewerThan(revisions[|revisions|..], sinceRevID) == [] by { NewerThanNothing(sinceRevID); }
      for i := 0 to |revisions|
        invariant NewerThan(revisions, sinceRevID) == out + NewerThan(revisions[i..], sinceRevID)
      {
        NewerThanFirst(revisions, i, sinceRevID);
        if revisions[i].id == sinceRevID {
          assert out + [] == out;
          return;
        }
        Associates(out, [revisions[i]], NewerThan(revisions[i + 1..], sinceRevID));
        out := out + [revisions[i]];
      }
    }

    method HumanEditsSinceBot(title: string, lastBotRevID: string) returns (edit: Option<Revision>)
      requires Valid()
      ensures var humans := Humans(NewerThan(StateOf(pages, title).revisions, lastBotRevID));
        edit == if humans == [] then None else Some(humans[0])
    {
      var key := NormTitle(title);
      if key !in pages {
        return None;
      }
      var revisions := pages[key].revisions;
      for i := 0 to |revisions|
        invariant Humans(NewerThan(revisions, lastBotRevID)) == Humans(NewerThan(revisions[i..], lastBotRevID))
      {
        assert revisions[i..][1..] == revisions[i + 1..];
        if revisions[i].id == lastBotRevID {
          return None;
        }
        if !revisions[i].isBot {
          return Some(revisions[i]);
        }
      }
      return None;
    }
  }

  predicate IsGap(c: char) {
    c == ' ' || c == '_'
  }

  /** Two titles are the same page exactly when they differ only in spaces and underscores. */
  lemma {:induction false} SameTitleIff(a: string, b: string)
    ensures NormTitle(a) == NormTitle(b) <==>
      |a| == |b| && forall i :: 0 <= i < |a| ==> a[i] == b[i] || (IsGap(a[i]) && IsGap(b[i]))
  {
    var x, y := NormTitle(a), NormTitle(b);
    if |a| == |b| {
      forall i | 0 <= i < |a| ensures x[i] == y[i] <==> a[i] == b[i] || (IsGap(a[i]) && IsGap(b[i])) {}
      assert x == y <==> forall i :: 0 <= i < |a| ==> x[i] == y[i];
      if forall i :: 0 <= i < |a| ==> a[i] == b[i] || (IsGap(a[i]) && IsGap(b[i])) {
        assert forall i :: 0 <= i < |a| ==> x[i] == y[i];
      }
    } else {
      assert |x| != |y|;
    }
  }

  /* ----- what a page is ----- */

  /** A page is its newest content and revision, under the title asked for. */
  lemma {:induction false} PageMeaning(pages: Pages, title: string)
    requires Aligned(pages)
    ensures var history, page := StateOf(pages, title).revisions, PageAt(pages, title);
      && (page.None? <==> history == [])
      && (page.Some? ==>
            && page.value.title == title && page.value.latestRevision == history[0]
            && page.value.content == StateOf(pages, title).contents[0])
  {}

  /** A revision on top is what its page is from then on, under every spelling of its title; no other page changes. */
  lemma {:induction false} EditedPage(pages: Pages, title: string, rev: Revision, content: string, other: string)
    requires Aligned(pages)
    ensures var after := Prepended(pages, title, rev, content);
      && Aligned(after)
      && (NormTitle(other) == NormTitle(title) ==> PageAt(after, other) == Some(Page(other, content, rev)))
      && (NormTitle(other) != NormTitle(title) ==> PageAt(after, other) == PageAt(pages, other))
  {
    hide NormTitle;
  }
}
