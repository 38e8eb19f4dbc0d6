/**
 The soft-read-only protocol over whole histories: curator runs of many specs
 and human edits of any page, in any order.
 */
module Protocol {
  import opened Wiki
  import opened Reconciler
  import opened Orchestrator
  import opened WikiParse
  import opened MergeLaws
  import Merge
  import PageText

  /** `id` is the revision ID that the event may create; `faults` and `store` say which calls of the run fail. */
  datatype Event =
    | HumanEdit(title: string, user: string, content: string, comment: string, id: string)
    | CuratorRun(
        specID: string, rendered: string, kbCommit: string, id: string, faults: WikiFaults, store: StoreFaults)

  /** Which page each spec writes, and under which identity. */
  datatype Site = Site(identity: string, pageOf: map<string, string>)

  /** No two specs write the same page. */
  ghost predicate OneSpecPerPage(site: Site) {
    forall s <- site.pageOf, t <- site.pageOf ::
      NormTitle(site.pageOf[s]) == NormTitle(site.pageOf[t]) ==> s == t
  }

  predicate Known(site: Site, e: Event) {
    e.CuratorRun? ==> e.specID in site.pageOf
  }

  /** The ID is new to the wiki. */
  ghost predicate Fresh(w: World, id: string) {
    id != "" && forall key <- w.pages, rev <- w.pages[key].revisions :: rev.id != id
  }

  function Step(site: Site, w: World, e: Event): (r: World)
    requires Aligned(w.pages) && Known(site, e)
    ensures Aligned(r.pages)
  {
    match e
    case HumanEdit(title, user, content, comment, id) =>
      w.(pages := Prepended(w.pages, title, Revision(id, user, comment, false), content))
    case CuratorRun(specID, rendered, kbCommit, id, faults, store) =>
      PushedUnder(w, site.identity, specID, site.pageOf[specID], rendered, kbCommit, id, faults, store)
  }

  predicate AllKnown(site: Site, events: seq<Event>) {
    forall k :: 0 <= k < |events| ==> Known(site, events[k])
  }

  function After(site: Site, w: World, events: seq<Event>): (r: World)
    requires Aligned(w.pages) && AllKnown(site, events)
    ensures Aligned(r.pages)
  {
    if events == [] then w
    else Step(site, After(site, w, events[..|events| - 1]), events[|events| - 1])
  }

  /** Every event is known to the site and brings an ID that is new at its time. */
  ghost predicate Legal(site: Site, w: World, events: seq<Event>)
    requires Aligned(w.pages)
  {
    && AllKnown(site, events)
    && (events != [] ==>
      var front, e := events[..|events| - 1], events[|events| - 1];
      Legal(site, w, front) && Fresh(After(site, w, front), e.id))
  }

  predicate RunOf(e: Event, spec: string) {
    e.CuratorRun? && e.specID == spec
  }

  /** What a run decides about its page, with what it sees of the run state. */
  function Decided(site: Site, w: World, e: Event): Decision
    requires Aligned(w.pages) && Known(site, e) && e.CuratorRun?
  {
    DecisionOf(Seen(w, e.specID, e.store), e.specID, site.pageOf[e.specID], e.rendered)
  }

  /** The event is a run of `spec` that does not end with an error. */
  predicate Completes(site: Site, w: World, e: Event, spec: string)
    requires Aligned(w.pages) && Known(site, e)
  {
    RunOf(e, spec) && !Aborts(Seen(w, spec, e.store), spec, site.pageOf[spec], e.rendered, e.faults)
  }

  function RevisionsOf(edits: seq<HumanEditDetection>): seq<Revision> {
    seq(|edits|, k requires 0 <= k < |edits| => edits[k].revision)
  }

  /** The human revisions that event `e` reports for `spec`. */
  function Report(site: Site, w: World, e: Event, spec: string): seq<Revision>
    requires Aligned(w.pages) && Known(site, e)
  {
    if Completes(site, w, e, spec) then RevisionsOf(Decided(site, w, e).humanEdits) else []
  }

  /** All reports for `spec`, the latest run first. */
  ghost function Reported(site: Site, w: World, events: seq<Event>, spec: string): seq<Revision>
    requires Aligned(w.pages) && Legal(site, w, events)
  {
    if events == [] then []
    else
      var front, e := events[..|events| - 1], events[|events| - 1];
      Report(site, After(site, w, front), e, spec) + Reported(site, w, front, spec)
  }

  predicate Writes(site: Site, w: World, e: Event, spec: string)
    requires Aligned(w.pages) && Known(site, e)
  {
    Completes(site, w, e, spec) && !Decided(site, w, e).action.NoOp?
  }

  /** The revision of the first write of `spec`, `""` before it. */
  ghost function FirstWrite(site: Site, w: World, events: seq<Event>, spec: string): string
    requires Aligned(w.pages) && Legal(site, w, events)
  {
    if events == [] then ""
    else
      var front, e := events[..|events| - 1], events[|events| - 1];
      var first := FirstWrite(site, w, front, spec);
      if first == "" && Writes(site, After(site, w, front), e, spec) then e.id else first
  }

  /* ----- every human edit between two writes is reported exactly once ----- */

  /** The revisions newer than `older` and older than `newer`. */
  function Between(history: seq<Revision>, newer: string, older: string): seq<Revision> {
    var n, m := |NewerThan(history, newer)|, |NewerThan(history, older)|;
    if n < m then history[n + 1..m] else []
  }

  predicate Has(history: seq<Revision>, id: string) {
    NewerThan(history, id) != history
  }

  ghost predicate Accounted(history: seq<Revision>, last: string, first: string, reported: seq<Revision>) {
    if last == "" then first == "" && reported == []
    else
      && first != "" && Has(history, last) && Has(history, first)
      && |NewerThan(history, last)| <= |NewerThan(history, first)|
      && history[|NewerThan(history, last)|].isBot
      && reported == Humans(Between(history, last, first))
  }

  lemma NewerThanFresh(rev: Revision, history: seq<Revision>, id: string)
    requires rev.id != id
    ensures NewerThan([rev] + history, id) == [rev] + NewerThan(history, id)
    ensures Has([rev] + history, id) <==> Has(history, id)
  {
    assert ([rev] + history)[1..] == history;
  }

  lemma HasIsMember(history: seq<Revision>, id: string)
    requires Has(history, id)
    ensures exists rev <- history :: rev.id == id
  {
    assert history[|NewerThan(history, id)|] in history;
  }

  /** A revision on top of the history moves no boundary below it. */
  lemma BetweenShifts(rev: Revision, history: seq<Revision>, last: string, first: string)
    requires rev.id != last && rev.id != first && Has(history, first)
    ensures Between([rev] + history, last, first) == Between(history, last, first)
  {
    hide NewerThan;
    NewerThanFresh(rev, history, last);
    NewerThanFresh(rev, history, first);
    var n, m := |NewerThan(history, last)|, |NewerThan(history, first)|;
    if n < m {
      assert ([rev] + history)[n + 2..m + 1] == history[n + 1..m];
    }
  }

  lemma AccountedAfterEdit(rev: Revision, history: seq<Revision>, last: string, first: string, reported: seq<Revision>)
    requires Accounted(history, last, first, reported)
    requires forall r <- history :: r.id != rev.id
    ensures Accounted([rev] + history, last, first, reported)
  {
    if last != "" {
      HasIsMember(history, last);
      HasIsMember(history, first);
      NewerThanFresh(rev, history, last);
      NewerThanFresh(rev, history, first);
      BetweenShifts(rev, history, last, first);
    }
  }

  lemma HumansAroundBot(history: seq<Revision>, n: nat, m: nat)
    requires n < m <= |history| && history[n].isBot
    ensures Humans(history[..m]) == Humans(history[..n]) + Humans(history[n + 1..m])
  {
    assert history[..m] == history[..n] + ([history[n]] + history[n + 1..m]);
    HumansAppend(history[..n], [history[n]] + history[n + 1..m]);
    HumansAppend([history[n]], history[n + 1..m]);
    assert Humans([history[n]]) == [];
    assert [] + Humans(history[n + 1..m]) == Humans(history[n + 1..m]);
  }

  /** A write reports what lies above the last write and becomes the new last write. */
  lemma AccountedAfterWrite(rev: Revision, history: seq<Revision>, last: string, first: string, reported: seq<Revision>)
    requires Accounted(history, last, first, reported) && rev.isBot && rev.id != ""
    requires forall r <- history :: r.id != rev.id
    ensures Accounted([rev] + history, rev.id, if first == "" then rev.id else first,
                      Reportable(history, last) + reported)
  {
    hide Humans, NewerThan;
    NewestIsFirst(rev, history);
    NoHumans();
    if last != "" {
      HasIsMember(history, first);
      NewerThanFresh(rev, history, first);
      var n, m := |NewerThan(history, last)|, |NewerThan(history, first)|;
      assert ([rev] + history)[1..m + 1] == history[..m];
      assert Between([rev] + history, rev.id, first) == history[..m];
      assert NewerThan(history, last) == history[..n];
      assert NewerThan(history, last) == history[..m] ==> n == m;
      if n < m {
        HumansAroundBot(history, n, m);
      } else {
        assert Humans(history[..n]) + [] == Humans(history[..n]);
      }
    }
  }

  lemma NewestIsFirst(rev: Revision, history: seq<Revision>)
    ensures NewerThan([rev] + history, rev.id) == [] && Has([rev] + history, rev.id)
    ensures Between([rev] + history, rev.id, rev.id) == []
  {}

  lemma NoHumans()
    ensures Humans([]) == []
  {}

  function HistoryOf(site: Site, w: World, spec: string): seq<Revision>
    requires spec in site.pageOf
  {
    StateOf(w.pages, site.pageOf[spec]).revisions
  }

  /** The revision that the run state records after a run of `spec`. */
  function RecordedAfter(site: Site, w: World, e: Event, spec: string): string
    requires Aligned(w.pages) && Known(site, e) && RunOf(e, spec)
  {
    var last := LastBotRev(w.runState, spec);
    if !Completes(site, w, e, spec) || e.store.write then last
    else if Writes(site, w, e, spec) then e.id
    else if e.store.read then ""
    else last
  }

  /** A run of `spec`: what it reports, and what it does to the page's history and to the recorded revision. */
  lemma {:induction false} RunEffect(site: Site, w: World, e: Event, spec: string)
    requires Aligned(w.pages) && Known(site, e) && RunOf(e, spec)
    ensures var history, last := HistoryOf(site, w, spec), LastBotRev(w.runState, spec);
      Report(site, w, e, spec) ==
        if Writes(site, w, e, spec) && !e.store.read then Reportable(history, last) else []
    ensures var w' := Step(site, w, e);
      && LastBotRev(w'.runState, spec) == RecordedAfter(site, w, e, spec)
      && HistoryOf(site, w', spec) ==
           if Writes(site, w, e, spec) then [Revision(e.id, site.identity, Summary(spec), true)]
             + HistoryOf(site, w, spec)
           else HistoryOf(site, w, spec)
  {
    hide Merge.Merged, Humans, NewerThan, NormTitle;
    NothingToReport(LastBotRev(w.runState, spec));
  }

  /** An event that is not about `spec` or its page leaves both alone. */
  lemma OthersDoNotInterfere(site: Site, w: World, e: Event, spec: string)
    requires Aligned(w.pages) && Known(site, e) && OneSpecPerPage(site) && spec in site.pageOf
    requires e.CuratorRun? ==> e.specID != spec
    requires e.HumanEdit? ==> NormTitle(e.title) != NormTitle(site.pageOf[spec])
    ensures var w' := Step(site, w, e);
      && LastBotRev(w'.runState, spec) == LastBotRev(w.runState, spec)
      && StateOf(w'.pages, site.pageOf[spec]) == StateOf(w.pages, site.pageOf[spec])
  {
    hide NormTitle, Decide;
  }

  lemma FreshForPage(w: World, id: string, title: string)
    requires Fresh(w, id)
    ensures forall r <- StateOf(w.pages, title).revisions :: r.id != id
  {}

  /** No run of `spec` has trouble with the run state. */
  predicate StoreWorks(events: seq<Event>, spec: string) {
    forall k :: 0 <= k < |events| && RunOf(events[k], spec) ==> events[k].store == WORKING
  }

  lemma {:induction false} AccountedAlways(site: Site, w: World, events: seq<Event>, spec: string)
    requires Aligned(w.pages) && OneSpecPerPage(site) && spec in site.pageOf
    requires LastBotRev(w.runState, spec) == "" && Legal(site, w, events) && StoreWorks(events, spec)
    ensures var w' := After(site, w, events);
      Accounted(StateOf(w'.pages, site.pageOf[spec]).revisions, LastBotRev(w'.runState, spec),
                FirstWrite(site, w, events, spec), Reported(site, w, events, spec))
    decreases |events|
  {
    hide Accounted, NormTitle, Step, Fresh, Report, Writes;
    if events == [] {
      StartsAccounted(HistoryOf(site, w, spec));
    } else {
      var front, e := events[..|events| - 1], events[|events| - 1];
      AccountedAlways(site, w, front, spec);
      var v := After(site, w, front);
      StepAccounted(site, v, e, spec, FirstWrite(site, w, front, spec), Reported(site, w, front, spec));
    }
  }

  lemma StartsAccounted(history: seq<Revision>)
    ensures Accounted(history, "", "", [])
  {}

  lemma StepAccounted(site: Site, v: World, e: Event, spec: string, first: string, reported: seq<Revision>)
    requires Aligned(v.pages) && OneSpecPerPage(site) && spec in site.pageOf && Known(site, e) && Fresh(v, e.id)
    requires RunOf(e, spec) ==> e.store == WORKING
    requires Accounted(HistoryOf(site, v, spec), LastBotRev(v.runState, spec), first, reported)
    ensures var v' := Step(site, v, e);
      Accounted(HistoryOf(site, v', spec), LastBotRev(v'.runState, spec),
                if first == "" && Writes(site, v, e, spec) then e.id else first,
                Report(site, v, e, spec) + reported)
  {
    hide Accounted, NormTitle, Decide, Reportable, Aborts;
    var title := site.pageOf[spec];
    var history, last := HistoryOf(site, v, spec), LastBotRev(v.runState, spec);
    FreshForPage(v, e.id, title);
    assert [] + reported == reported;
    if RunOf(e, spec) {
      hide Step, Report, Writes, Completes;
      RunEffect(site, v, e, spec);
      if Writes(site, v, e, spec) {
        assert Completes(site, v, e, spec) by { WritesCompletes(site, v, e, spec); }
        AccountedAfterWrite(Revision(e.id, site.identity, Summary(spec), true), history, last, first, reported);
      }
    } else if e.HumanEdit? && NormTitle(e.title) == NormTitle(title) {
      AccountedAfterEdit(Revision(e.id, e.user, e.comment, false), history, last, first, reported);
    } else {
      OthersDoNotInterfere(site, v, e, spec);
    }
  }

  lemma WritesCompletes(site: Site, w: World, e: Event, spec: string)
    requires Aligned(w.pages) && Known(site, e) && Writes(site, w, e, spec)
    ensures Completes(site, w, e, spec)
  {}

  lemma NothingToReport(last: string)
    ensures Reportable([], last) == []
  {}

  predicate DistinctRevisions(history: seq<Revision>) {
    forall i, j :: 0 <= i < j < |history| ==> history[i].id != history[j].id
  }

  lemma {:induction false} DistinctAlways(site: Site, w: World, events: seq<Event>, key: string)
    requires Aligned(w.pages) && Legal(site, w, events)
    requires key in w.pages ==> DistinctRevisions(w.pages[key].revisions)
    ensures var w' := After(site, w, events);
      key in w'.pages ==> DistinctRevisions(w'.pages[key].revisions)
    decreases |events|
  {
    hide Step, DistinctRevisions, Fresh;
    if events != [] {
      var front, e := events[..|events| - 1], events[|events| - 1];
      DistinctAlways(site, w, front, key);
      DistinctStep(site, After(site, w, front), e, key);
    }
  }

  lemma DistinctStep(site: Site, w: World, e: Event, key: string)
    requires Aligned(w.pages) && Known(site, e) && Fresh(w, e.id)
    requires key in w.pages ==> DistinctRevisions(w.pages[key].revisions)
    ensures var w' := Step(site, w, e);
      key in w'.pages ==> DistinctRevisions(w'.pages[key].revisions)
  {
    hide NormTitle, Decide, Aborts;
  }

  lemma {:induction false} HumansCount(history: seq<Revision>, rev: Revision)
    requires DistinctRevisions(history)
    ensures multiset(Humans(history))[rev] == if rev in history && !rev.isBot then 1 else 0
  {
    if history != [] {
      var rest := history[1..];
      assert history == [history[0]] + rest;
      HumansCount(rest, rev);
      assert forall r <- rest :: r.id != history[0].id;
    }
  }

  /**
   Whatever the interleaving, as long as the run state can be read and written: the
   reports of all runs of `spec` together are exactly the human revisions between its
   first and its latest write, newest first, each of them in exactly one report.
   */
  lemma {:induction false} EveryHumanEditReportedOnce(site: Site, w: World, events: seq<Event>, spec: string)
    requires Aligned(w.pages) && OneSpecPerPage(site) && spec in site.pageOf
    requires LastBotRev(w.runState, spec) == "" && Legal(site, w, events) && StoreWorks(events, spec)
    requires DistinctRevisions(StateOf(w.pages, site.pageOf[spec]).revisions)
    ensures
      var w' := After(site, w, events);
      var last, first := LastBotRev(w'.runState, spec), FirstWrite(site, w, events, spec);
      var window := Between(StateOf(w'.pages, site.pageOf[spec]).revisions, last, first);
      var reported := Reported(site, w, events, spec);
      && reported == (if last == "" then [] else Humans(window))
      && (last != "" ==> forall rev :: multiset(reported)[rev] == if rev in window && !rev.isBot then 1 else 0)
  {
    hide NormTitle, After, Reported, FirstWrite, Humans;
    AccountedAlways(site, w, events, spec);
    var w' := After(site, w, events);
    var key := NormTitle(site.pageOf[spec]);
    DistinctAlways(site, w, events, key);
    var window := Between(StateOf(w'.pages, site.pageOf[spec]).revisions, LastBotRev(w'.runState, spec),
                          FirstWrite(site, w, events, spec));
    forall rev { HumansCount(window, rev); }
  }

  /* ----- content: what runs leave alone ----- */

  lemma {:induction false} MergedIsEmptyOnlyForEmptyRender(h: string, render: string)
    ensures Merge.Merged(h, render) == "" ==> render == ""
  {
    hide Merge.Merged, Parsed;
    MergeKeepsExactlySurvivingBodies(h, render);
    VerbatimRenderIsFixedIff(h, render);
    assert Parsed("").blocks == [] by { EmptyText(); }
    if Merge.Merged(h, render) == "" {
      assert Parsed(render).blocks == [];
    }
  }

  /** The content of the page after a run: the merge, or the bare render when there was no page. */
  lemma {:induction false} ContentAfterRun(
      w: World, identity: string, spec: string, title: string, render: string, commit: string, id: string)
    requires Aligned(w.pages)
    ensures
      var before, after := PageAt(w.pages, title),
        PageAt(Pushed(w, identity, spec, title, render, commit, id).pages, title);
      && after.Some?
      && after.value.content == if before.None? then render else Merge.Merged(before.value.content, render)
  {
    hide Merge.Merged, NormTitle;
    if PageAt(w.pages, title).Some? {
      MergedIsEmptyOnlyForEmptyRender(PageAt(w.pages, title).value.content, render);
    }
  }

  /**
   After one run, a second run of the same render is a no-op exactly when the
   page was there before or the render has no block; after two runs it always is.
   */
  lemma {:induction false} RunsSettle(
      w: World, identity: string, spec: string, title: string, render: string, commit: string, id1: string, id2: string)
    requires Aligned(w.pages) && StableIDs(Parsed(render).blocks)
    ensures
      var w1 := Pushed(w, identity, spec, title, render, commit, id1);
      var w2 := Pushed(w1, identity, spec, title, render, commit, id2);
      && (DecisionOf(w1, spec, title, render).action.NoOp? <==>
          PageAt(w.pages, title).Some? || Parsed(render).blocks == [])
      && DecisionOf(w2, spec, title, render).action.NoOp?
  {
    hide Merge.Merged, NormTitle, Parsed, StableIDs;
    ContentAfterRun(w, identity, spec, title, render, commit, id1);
    var w1 := Pushed(w, identity, spec, title, render, commit, id1);
    ContentAfterRun(w1, identity, spec, title, render, commit, id2);
    var page := PageAt(w.pages, title);
    if page.Some? {
      StableMergeIsFixed(page.value.content, render);
    } else {
      VerbatimRenderIsFixedIff(render, render);
      StableMergeIsFixed(render, render);
    }
  }

  /**
   A run with the render of a page on which a human has left the markers.  It is a
   no-op, and the page stays as the human left it, exactly when nothing but bodies
   of editorial blocks with a provenance was edited; otherwise it puts the render
   back, with just these bodies kept.
   */
  lemma {:induction false} EditedPageIsLeftAloneIff(
      w: World, identity: string, spec: string, title: string, render: string, commit: string, id: string)
    requires Aligned(w.pages) && PageAt(w.pages, title).Some?
    requires SameMarkers(Parsed(PageAt(w.pages, title).value.content), Parsed(render)) &&
      DistinctIDs(Parsed(render).blocks)
    ensures
      var h := PageAt(w.pages, title).value.content;
      var after := Pushed(w, identity, spec, title, render, commit, id).pages;
      && (DecisionOf(w, spec, title, render).action.NoOp? <==> OnlyKeptBodiesDiffer(h, Parsed(render)))
      && (OnlyKeptBodiesDiffer(h, Parsed(render)) ==> after == w.pages)
      && PageAt(after, title).Some?
      && PageAt(after, title).value.content == PageText.PrintDoc(Restored(Parsed(h), Parsed(render)))
  {
    hide Parsed, PageText.PrintDoc, Merge.Merged, OnlyKeptBodiesDiffer, Restored, SameMarkers;
    var h := PageAt(w.pages, title).value.content;
    BodyEditsStayIff(h, render);
    MergeRestoresAllButKeptBodies(h, render);
    ContentAfterRun(w, identity, spec, title, render, commit, id);
  }

  /** The page of `spec` holds `body` as its first block named `block`, with this provenance. */
  ghost predicate HoldsBody(site: Site, w: World, spec: string, block: string, provenance: string, body: string)
    requires Aligned(w.pages) && spec in site.pageOf
  {
    var page := PageAt(w.pages, site.pageOf[spec]);
    page.Some? &&
    var b := FirstWithID(Parsed(page.value.content).blocks, block);
    b.Some? && b.value.provenance == provenance && b.value.body == body
  }

  /** No human touches the page, and every render still asks for the block with unchanged inputs. */
  predicate InputsUnchanged(site: Site, e: Event, spec: string, block: string, provenance: string)
    requires spec in site.pageOf
  {
    match e
    case HumanEdit(title, _, _, _, _) => NormTitle(title) != NormTitle(site.pageOf[spec])
    case CuratorRun(specID, rendered, _, _, _, _) =>
      specID == spec ==>
        var nb := FirstWithID(Parsed(rendered).blocks, block);
        nb.Some? && nb.value.zone == "editorial" && nb.value.provenance == provenance
  }

  lemma MergeKeepsFirstBody(h: string, render: string, block: string)
    requires FirstWithID(Parsed(h).blocks, block).Some? && FirstWithID(Parsed(render).blocks, block).Some?
    requires Survives(FirstWithID(Parsed(render).blocks, block).value, FirstWithID(Parsed(h).blocks, block))
    ensures var b := FirstWithID(Parsed(Merge.Merged(h, render)).blocks, block);
      && b.Some?
      && b.value.provenance == FirstWithID(Parsed(h).blocks, block).value.provenance
      && b.value.body == FirstWithID(Parsed(h).blocks, block).value.body
  {
    hide Merge.Merged, Parsed, FirstWithID;
    MergeKeepsExactlySurvivingBodies(h, render);
    FirstInChanged(Parsed(render).blocks, Parsed(Merge.Merged(h, render)).blocks, block);
    FirstHasID(Parsed(render).blocks, block);
  }

  /**
   Human polish outlives every run: as long as the inputs of an editorial block
   are unchanged, no sequence of runs, of this spec or of others, touches its body.
   */
  lemma {:induction false} PolishOutlivesRuns(
      site: Site, w: World, events: seq<Event>, spec: string, block: string, provenance: string, body: string)
    requires Aligned(w.pages) && OneSpecPerPage(site) && spec in site.pageOf && AllKnown(site, events)
    requires provenance != "" && HoldsBody(site, w, spec, block, provenance, body)
    requires forall k :: 0 <= k < |events| ==> InputsUnchanged(site, events[k], spec, block, provenance)
    ensures HoldsBody(site, After(site, w, events), spec, block, provenance, body)
  {
    hide Merge.Merged, NormTitle, Parsed, FirstWithID, Decide, Pushed;
    if events != [] {
      var front, e := events[..|events| - 1], events[|events| - 1];
      PolishOutlivesRuns(site, w, front, spec, block, provenance, body);
      var v := After(site, w, front);
      if e.CuratorRun? && e.specID == spec {
        var title := site.pageOf[spec];
        ContentAfterRun(Seen(v, spec, e.store), site.identity, spec, title, e.rendered, e.kbCommit, e.id);
        MergeKeepsFirstBody(PageAt(v.pages, title).value.content, e.rendered, block);
      } else {
        OthersDoNotInterfere(site, v, e, spec);
      }
    }
  }
}
