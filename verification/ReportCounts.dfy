/** How often each human edit is reported, whichever calls to the wiki and to the run state fail. */
module ReportCounts {
  import opened Wrappers
  import opened Wiki
  import opened Reconciler
  import opened Orchestrator
  import opened Protocol
  import WikiParse
  import MergeLaws
  import Merge
  import RenderedPage

  /* ----- runs that report, and runs that settle ----- */

  /** The run pushes, and could read the run state: it reports what lies above the recorded write. */
  predicate ReadablePush(site: Site, w: World, e: Event, spec: string)
    requires Aligned(w.pages) && Known(site, e)
  {
    Writes(site, w, e, spec) && !e.store.read
  }

  /** The run changes the record: its state is written, and it pushed or could not read the old state. */
  predicate Settles(site: Site, w: World, e: Event, spec: string)
    requires Aligned(w.pages) && Known(site, e)
  {
    Completes(site, w, e, spec) && !e.store.write && (Writes(site, w, e, spec) || e.store.read)
  }

  /** Some run has settled. */
  predicate Settled(site: Site, w: World, events: seq<Event>, spec: string)
    requires Aligned(w.pages) && AllKnown(site, events)
  {
    events != [] &&
    var front, e := events[..|events| - 1], events[|events| - 1];
    Settled(site, w, front, spec) || Settles(site, After(site, w, front), e, spec)
  }

  /** The number of readable pushes up to and including the first run that settles. */
  function ReadablePushes(site: Site, w: World, events: seq<Event>, spec: string): nat
    requires Aligned(w.pages) && AllKnown(site, events)
  {
    if events == [] then 0
    else
      var front, e := events[..|events| - 1], events[|events| - 1];
      ReadablePushes(site, w, front, spec) +
        if !Settled(site, w, front, spec) && ReadablePush(site, After(site, w, front), e, spec) then 1 else 0
  }

  /* ----- where a human revision stands ----- */

  /** The recorded write, if there is one, is in the history of the page. */
  predicate Recorded(site: Site, w: World, spec: string)
    requires spec in site.pageOf
  {
    var last := LastBotRev(w.runState, spec);
    last != "" ==> Has(HistoryOf(site, w, spec), last)
  }

  /** There is a recorded write, and `r` is newer. */
  predicate Above(site: Site, w: World, spec: string, r: Revision)
    requires spec in site.pageOf
  {
    var last := LastBotRev(w.runState, spec);
    last != "" && r in NewerThan(HistoryOf(site, w, spec), last)
  }

  /** What holds of the page of `spec` at all times, for a human revision `r` in its history. */
  ghost predicate Tracked(site: Site, w: World, spec: string, r: Revision)
    requires spec in site.pageOf
  {
    && Recorded(site, w, spec) && DistinctRevisions(HistoryOf(site, w, spec))
    && r in HistoryOf(site, w, spec) && !r.isBot
  }

  /* ----- one event ----- */

  lemma DistinctMore(rev: Revision, history: seq<Revision>)
    requires DistinctRevisions(history) && forall x <- history :: x.id != rev.id
    ensures DistinctRevisions([rev] + history)
  {}

  /** A new revision on top moves nothing with respect to a recorded write. */
  lemma OneOnTop(rev: Revision, history: seq<Revision>, last: string, r: Revision)
    requires Has(history, last) && r in history && forall x <- history :: x.id != rev.id
    ensures Has([rev] + history, last) && r in [rev] + history
    ensures r in NewerThan([rev] + history, last) <==> r in NewerThan(history, last)
  {
    HasIsMember(history, last);
    NewerThanFresh(rev, history, last);
  }

  /** An edit of the page, by anyone, under a record that stays as it is. */
  lemma EditKeepsPlace(site: Site, w: World, w': World, spec: string, r: Revision, rev: Revision)
    requires spec in site.pageOf && Tracked(site, w, spec, r)
    requires forall x <- HistoryOf(site, w, spec) :: x.id != rev.id
    requires HistoryOf(site, w', spec) == [rev] + HistoryOf(site, w, spec)
    requires LastBotRev(w'.runState, spec) == LastBotRev(w.runState, spec)
    ensures Tracked(site, w', spec, r) && (Above(site, w', spec, r) <==> Above(site, w, spec, r))
  {
    hide NewerThan, Has, NormTitle, LastBotRev;
    var history, last := HistoryOf(site, w, spec), LastBotRev(w.runState, spec);
    DistinctMore(rev, history);
    if last != "" {
      OneOnTop(rev, history, last, r);
    }
  }

  lemma NothingChanged(site: Site, w: World, w': World, spec: string, r: Revision)
    requires spec in site.pageOf && Tracked(site, w, spec, r)
    requires HistoryOf(site, w', spec) == HistoryOf(site, w, spec)
    requires LastBotRev(w'.runState, spec) == LastBotRev(w.runState, spec)
    ensures Tracked(site, w', spec, r) && (Above(site, w', spec, r) <==> Above(site, w, spec, r))
  {}

  /** The record is gone, or stands at the revision on top: nothing older is above it. */
  lemma NothingAbove(site: Site, w: World, w': World, spec: string, r: Revision, rev: Revision)
    requires spec in site.pageOf && Tracked(site, w, spec, r)
    requires forall x <- HistoryOf(site, w, spec) :: x.id != rev.id
    requires LastBotRev(w'.runState, spec) == rev.id && HistoryOf(site, w', spec) == [rev] + HistoryOf(site, w, spec)
    ensures Tracked(site, w', spec, r) && !Above(site, w', spec, r)
  {
    hide NewerThan, Has, NormTitle, LastBotRev;
    DistinctMore(rev, HistoryOf(site, w, spec));
    NewestIsFirst(rev, HistoryOf(site, w, spec));
  }

  lemma RecordIsGone(site: Site, w: World, w': World, spec: string, r: Revision)
    requires spec in site.pageOf && Tracked(site, w, spec, r)
    requires LastBotRev(w'.runState, spec) == "" && HistoryOf(site, w', spec) == HistoryOf(site, w, spec)
    ensures Tracked(site, w', spec, r) && !Above(site, w', spec, r)
  {}

  /** A revision is reportable, once, exactly when it is above the record. */
  lemma ReportableCount(site: Site, w: World, spec: string, r: Revision)
    requires spec in site.pageOf && Tracked(site, w, spec, r)
    ensures multiset(Reportable(HistoryOf(site, w, spec), LastBotRev(w.runState, spec)))[r]
         == if Above(site, w, spec, r) then 1 else 0
  {
    hide NewerThan, Humans, NormTitle;
    HumansCount(NewerThan(HistoryOf(site, w, spec), LastBotRev(w.runState, spec)), r);
  }

  /** A revision is reported by a readable push that finds it above the record; a run that settles ends that. */
  lemma RunCounts(site: Site, w: World, e: Event, spec: string, r: Revision)
    requires Aligned(w.pages) && Known(site, e) && RunOf(e, spec) && Fresh(w, e.id) && Tracked(site, w, spec, r)
    ensures multiset(Report(site, w, e, spec))[r] ==
      if Above(site, w, spec, r) && ReadablePush(site, w, e, spec) then 1 else 0
    ensures var w' := Step(site, w, e);
      && Tracked(site, w', spec, r)
      && (Above(site, w', spec, r) <==> Above(site, w, spec, r) && !Settles(site, w, e, spec))
  {
    hide Step, Report, Writes, Completes, Tracked, Above, Reportable, LastBotRev, HistoryOf;
    RunEffect(site, w, e, spec);
    ReportableCount(site, w, spec, r);
    FreshInHistory(site, w, e.id, spec);
    if Writes(site, w, e, spec) {
      WritesCompletes(site, w, e, spec);
    }
    var w', rev := Step(site, w, e), Revision(e.id, site.identity, Summary(spec), true);
    if Settles(site, w, e, spec) {
      if Writes(site, w, e, spec) {
        NothingAbove(site, w, w', spec, r, rev);
      } else {
        RecordIsGone(site, w, w', spec, r);
      }
    } else if Writes(site, w, e, spec) {
      EditKeepsPlace(site, w, w', spec, r, rev);
    } else {
      NothingChanged(site, w, w', spec, r);
    }
  }

  lemma FreshInHistory(site: Site, w: World, id: string, spec: string)
    requires Fresh(w, id) && spec in site.pageOf
    ensures forall x <- HistoryOf(site, w, spec) :: x.id != id
  {
    FreshForPage(w, id, site.pageOf[spec]);
  }

  lemma EventCounts(site: Site, w: World, e: Event, spec: string, r: Revision)
    requires Aligned(w.pages) && OneSpecPerPage(site) && spec in site.pageOf && Known(site, e) && Fresh(w, e.id)
    requires Tracked(site, w, spec, r)
    ensures multiset(Report(site, w, e, spec))[r] ==
      if Above(site, w, spec, r) && ReadablePush(site, w, e, spec) then 1 else 0
    ensures var w' := Step(site, w, e);
      && Tracked(site, w', spec, r)
      && (Above(site, w', spec, r) <==> Above(site, w, spec, r) && !Settles(site, w, e, spec))
  {
    if RunOf(e, spec) {
      RunCounts(site, w, e, spec, r);
    } else {
      NotARun(site, w, e, spec);
      OthersCount(site, w, e, spec, r);
    }
  }

  lemma NotARun(site: Site, w: World, e: Event, spec: string)
    requires Aligned(w.pages) && Known(site, e) && !RunOf(e, spec)
    ensures Report(site, w, e, spec) == [] && !ReadablePush(site, w, e, spec) && !Settles(site, w, e, spec)
  {}

  lemma OthersCount(site: Site, w: World, e: Event, spec: string, r: Revision)
    requires Aligned(w.pages) && OneSpecPerPage(site) && spec in site.pageOf && Known(site, e) && Fresh(w, e.id)
    requires Tracked(site, w, spec, r) && !RunOf(e, spec)
    ensures var w' := Step(site, w, e);
      Tracked(site, w', spec, r) && (Above(site, w', spec, r) <==> Above(site, w, spec, r))
  {
    hide Tracked, Above, NormTitle, LastBotRev;
    var w' := Step(site, w, e);
    if e.HumanEdit? && NormTitle(e.title) == NormTitle(site.pageOf[spec]) {
      FreshInHistory(site, w, e.id, spec);
      EditKeepsPlace(site, w, w', spec, r, Revision(e.id, e.user, e.comment, false));
    } else {
      OthersDoNotInterfere(site, w, e, spec);
      NothingChanged(site, w, w', spec, r);
    }
  }

  /* ----- whole histories ----- */

  /**
   However runs, edits and failures interleave: a human revision in the history is
   reported exactly as often as there are readable pushes up to and including the
   first run that settles, when it is newer than the recorded write, and never when
   it is not or when there is no recorded write.
   */
  lemma {:induction false} ReportsAreReadablePushes(site: Site, w: World, events: seq<Event>, spec: string, r: Revision)
    requires Aligned(w.pages) && OneSpecPerPage(site) && spec in site.pageOf && Legal(site, w, events)
    requires Tracked(site, w, spec, r)
    ensures multiset(Reported(site, w, events, spec))[r] ==
      if Above(site, w, spec, r) then ReadablePushes(site, w, events, spec) else 0
    ensures var w' := After(site, w, events);
      && Tracked(site, w', spec, r)
      && (Above(site, w', spec, r) <==> Above(site, w, spec, r) && !Settled(site, w, events, spec))
    decreases |events|
  {
    hide Step, Report, Writes, Completes, Tracked, Above, ReadablePush, Settles, OneSpecPerPage, Fresh;
    if events != [] {
      var front, e := events[..|events| - 1], events[|events| - 1];
      ReportsAreReadablePushes(site, w, front, spec, r);
      EventCounts(site, After(site, w, front), e, spec, r);
    }
  }

  /* ----- every human edit of a history ----- */

  lemma {:induction false} HistorySplits(site: Site, w: World, a: seq<Event>, b: seq<Event>, spec: string)
    requires Aligned(w.pages) && Legal(site, w, a + b)
    ensures Legal(site, w, a) && Legal(site, After(site, w, a), b)
    ensures After(site, w, a + b) == After(site, After(site, w, a), b)
    ensures Reported(site, w, a + b, spec) == Reported(site, After(site, w, a), b, spec) + Reported(site, w, a, spec)
    decreases |b|
  {
    hide Step, Report, Fresh, Known;
    if b == [] {
      assert a + b == a;
      assert [] + Reported(site, w, a, spec) == Reported(site, w, a, spec);
    } else {
      var front, e := b[..|b| - 1], b[|b| - 1];
      assert (a + b)[..|a + b| - 1] == a + front && (a + b)[|a + b| - 1] == e;
      HistorySplits(site, w, a, front, spec);
      assert forall k :: 0 <= k < |b| ==> b[k] == (a + b)[|a| + k];
      var v := After(site, After(site, w, a), front);
      Associates(Report(site, v, e, spec), Reported(site, After(site, w, a), front, spec), Reported(site, w, a, spec));
    }
  }

  /** Only revisions that are in the history are reported. */
  lemma {:induction false} ReportedAreOld(site: Site, w: World, events: seq<Event>, spec: string, r: Revision)
    requires Aligned(w.pages) && OneSpecPerPage(site) && spec in site.pageOf && Legal(site, w, events)
    requires r in Reported(site, w, events, spec)
    ensures r in HistoryOf(site, After(site, w, events), spec)
    decreases |events|
  {
    hide Step, Report, Writes, Completes, OneSpecPerPage, Fresh, HistoryOf;
    if events != [] {
      var front, e := events[..|events| - 1], events[|events| - 1];
      var v := After(site, w, front);
      if r in Report(site, v, e, spec) {
        ReportIsOld(site, v, e, spec, r);
      } else {
        ReportedAreOld(site, w, front, spec, r);
      }
      HistoryGrows(site, v, e, spec);
    }
  }

  lemma ReportIsOld(site: Site, w: World, e: Event, spec: string, r: Revision)
    requires Aligned(w.pages) && Known(site, e) && spec in site.pageOf && r in Report(site, w, e, spec)
    ensures r in HistoryOf(site, w, spec)
  {
    hide Step, Report, Writes, Completes;
    if RunOf(e, spec) {
      RunEffect(site, w, e, spec);
      HumansAreMembers(NewerThan(HistoryOf(site, w, spec), LastBotRev(w.runState, spec)), r);
    } else {
      NotARun(site, w, e, spec);
    }
  }

  lemma {:induction false} HumansAreMembers(history: seq<Revision>, r: Revision)
    ensures r in Humans(history) <==> r in history && !r.isBot
  {
    if history != [] {
      HumansAreMembers(history[1..], r);
      assert history == [history[0]] + history[1..];
    }
  }

  lemma HistoryGrows(site: Site, w: World, e: Event, spec: string)
    requires Aligned(w.pages) && Known(site, e) && OneSpecPerPage(site) && spec in site.pageOf
    ensures forall x <- HistoryOf(site, w, spec) :: x in HistoryOf(site, Step(site, w, e), spec)
  {
    hide NormTitle, Decide, Aborts;
    if RunOf(e, spec) {
      RunEffect(site, w, e, spec);
    } else if e.HumanEdit? && NormTitle(e.title) == NormTitle(site.pageOf[spec]) {
    } else {
      OthersDoNotInterfere(site, w, e, spec);
    }
  }

  /** The record stays in the history of the page. */
  lemma {:induction false} RecordedAlways(site: Site, w: World, events: seq<Event>, spec: string)
    requires Aligned(w.pages) && OneSpecPerPage(site) && spec in site.pageOf && Legal(site, w, events)
    requires Recorded(site, w, spec)
    ensures Recorded(site, After(site, w, events), spec)
    decreases |events|
  {
    hide Step, Recorded, OneSpecPerPage, Fresh;
    if events != [] {
      var front, e := events[..|events| - 1], events[|events| - 1];
      RecordedAlways(site, w, front, spec);
      StepRecords(site, After(site, w, front), e, spec);
    }
  }

  lemma StepRecords(site: Site, w: World, e: Event, spec: string)
    requires Aligned(w.pages) && OneSpecPerPage(site) && spec in site.pageOf && Known(site, e) && Fresh(w, e.id)
    requires Recorded(site, w, spec)
    ensures Recorded(site, Step(site, w, e), spec)
  {
    hide NormTitle, Decide, Aborts, NewerThan, Has;
    var history, last := HistoryOf(site, w, spec), LastBotRev(w.runState, spec);
    FreshInHistory(site, w, e.id, spec);
    if RunOf(e, spec) {
      hide Step, Writes, Completes;
      RunEffect(site, w, e, spec);
      TopRecord(history, last, Revision(e.id, site.identity, Summary(spec), true));
    } else if e.HumanEdit? && NormTitle(e.title) == NormTitle(site.pageOf[spec]) {
      TopRecord(history, last, Revision(e.id, e.user, e.comment, false));
    } else {
      OthersDoNotInterfere(site, w, e, spec);
    }
  }

  lemma TopRecord(history: seq<Revision>, last: string, rev: Revision)
    requires forall x <- history :: x.id != rev.id
    ensures Has([rev] + history, rev.id) && (Has(history, last) ==> Has([rev] + history, last))
  {
    NewestIsFirst(rev, history);
    if Has(history, last) {
      HasIsMember(history, last);
      NewerThanFresh(rev, history, last);
    }
  }

  /**
   Every human edit of the page, anywhere in any history: when it is made under a
   recorded write it is reported once for each readable push from then on, up to and
   including the first run that settles; when there is no recorded write, never.
   */
  lemma {:induction false} EachEditIsReported(
      site: Site, w: World, before: seq<Event>, edit: Event, rest: seq<Event>, spec: string)
    requires Aligned(w.pages) && OneSpecPerPage(site) && spec in site.pageOf
    requires Legal(site, w, before + [edit] + rest)
    requires Recorded(site, w, spec) && DistinctRevisions(HistoryOf(site, w, spec))
    requires edit.HumanEdit? && NormTitle(edit.title) == NormTitle(site.pageOf[spec])
    ensures AllKnown(site, before) && AllKnown(site, before + [edit]) && AllKnown(site, rest)
    ensures
      var r := Revision(edit.id, edit.user, edit.comment, false);
      var recorded := LastBotRev(After(site, w, before).runState, spec);
      multiset(Reported(site, w, before + [edit] + rest, spec))[r] ==
        if recorded == "" then 0 else ReadablePushes(site, After(site, w, before + [edit]), rest, spec)
  {
    hide Step, Report, OneSpecPerPage, NormTitle, Above, Tracked, ReadablePushes, Reported;
    var r := Revision(edit.id, edit.user, edit.comment, false);
    HistorySplits(site, w, before + [edit], rest, spec);
    HistorySplits(site, w, before, [edit], spec);
    RecordedAlways(site, w, before, spec);
    DistinctAlways(site, w, before, NormTitle(site.pageOf[spec]));
    var v := After(site, w, before);
    LegalEvent(site, v, edit);
    EditIsAbove(site, v, edit, spec);
    EditIsNew(site, w, before, edit, spec);
    ReportsAreReadablePushes(site, Step(site, v, edit), rest, spec, r);
  }

  lemma LegalEvent(site: Site, w: World, e: Event)
    requires Aligned(w.pages) && Legal(site, w, [e])
    ensures Known(site, e) && Fresh(w, e.id) && After(site, w, [e]) == Step(site, w, e)
  {
    hide Fresh, Step, Known;
    assert [e][..0] == [];
    assert [e][0] == e;
  }

  /** A new edit is above the record, if there is one. */
  lemma EditIsAbove(site: Site, v: World, edit: Event, spec: string)
    requires Aligned(v.pages) && spec in site.pageOf && Known(site, edit) && Fresh(v, edit.id)
    requires Recorded(site, v, spec) && DistinctRevisions(HistoryOf(site, v, spec))
    requires edit.HumanEdit? && NormTitle(edit.title) == NormTitle(site.pageOf[spec])
    ensures var r := Revision(edit.id, edit.user, edit.comment, false);
      && Tracked(site, Step(site, v, edit), spec, r)
      && (Above(site, Step(site, v, edit), spec, r) <==> LastBotRev(v.runState, spec) != "")
  {
    hide NormTitle, NewerThan, Has, LastBotRev;
    var r := Revision(edit.id, edit.user, edit.comment, false);
    var history, last := HistoryOf(site, v, spec), LastBotRev(v.runState, spec);
    assert HistoryOf(site, Step(site, v, edit), spec) == [r] + history;
    FreshInHistory(site, v, edit.id, spec);
    DistinctMore(r, history);
    if last != "" {
      TopRecord(history, last, r);
      HasIsMember(history, last);
      NewerThanFresh(r, history, last);
    }
  }

  /** It has not been reported before it is made. */
  lemma EditIsNew(site: Site, w: World, before: seq<Event>, edit: Event, spec: string)
    requires Aligned(w.pages) && OneSpecPerPage(site) && spec in site.pageOf
    requires Legal(site, w, before + [edit]) && Legal(site, w, before) && edit.HumanEdit?
    requires Fresh(After(site, w, before), edit.id)
    ensures Revision(edit.id, edit.user, edit.comment, false) !in Reported(site, w, before + [edit], spec)
  {
    hide Step, OneSpecPerPage, NormTitle, Fresh;
    var r := Revision(edit.id, edit.user, edit.comment, false);
    var v := After(site, w, before);
    assert (before + [edit])[..|before|] == before && (before + [edit])[|before|] == edit;
    NotARun(site, v, edit, spec);
    assert [] + Reported(site, w, before, spec) == Reported(site, w, before, spec);
    FreshInHistory(site, v, edit.id, spec);
    if r in Reported(site, w, before, spec) {
      ReportedAreOld(site, w, before, spec, r);
    }
  }

  /* ----- with and without a working run state ----- */

  /** While the run state works, an edit is reported once the page is pushed, and never again. */
  lemma {:induction false} WorkingStoreReportsOnce(site: Site, w: World, events: seq<Event>, spec: string)
    requires Aligned(w.pages) && AllKnown(site, events) && StoreWorks(events, spec)
    ensures ReadablePushes(site, w, events, spec) == if Settled(site, w, events, spec) then 1 else 0
    decreases |events|
  {
    hide Step, Writes, Completes;
    if events != [] {
      var front, e := events[..|events| - 1], events[|events| - 1];
      WorkingStoreReportsOnce(site, w, front, spec);
      var v := After(site, w, front);
      if Writes(site, v, e, spec) {
        WritesCompletes(site, v, e, spec);
        IsRun(site, v, e, spec);
      } else if Settles(site, v, e, spec) {
        CompletesIsRun(site, v, e, spec);
      }
    }
  }

  lemma IsRun(site: Site, w: World, e: Event, spec: string)
    requires Aligned(w.pages) && Known(site, e) && Writes(site, w, e, spec)
    ensures RunOf(e, spec)
  {}

  lemma CompletesIsRun(site: Site, w: World, e: Event, spec: string)
    requires Aligned(w.pages) && Known(site, e) && Completes(site, w, e, spec)
    ensures RunOf(e, spec)
  {}

  /**
   A no-op that cannot read the run state but writes it erases the record of the last
   write: no human edit that is in the history by then is reported by it or by any
   later run.
   */
  lemma {:induction false} ForgettingNoOpLosesEdits(
      site: Site, w: World, e: Event, events: seq<Event>, spec: string, r: Revision)
    requires Aligned(w.pages) && OneSpecPerPage(site) && Known(site, e) && Fresh(w, e.id)
    requires Completes(site, w, e, spec) && !Writes(site, w, e, spec) && e.store.read && !e.store.write
    requires Legal(site, Step(site, w, e), events) && Tracked(site, w, spec, r)
    ensures LastBotRev(Step(site, w, e).runState, spec) == ""
    ensures Report(site, w, e, spec) == [] && r !in Reported(site, Step(site, w, e), events, spec)
  {
    hide Step, Report, Writes, Tracked, OneSpecPerPage, Fresh;
    RunEffect(site, w, e, spec);
    RunCounts(site, w, e, spec, r);
    ReportsAreReadablePushes(site, Step(site, w, e), events, spec, r);
  }

  /** A run whose render has no blocks and differs from the page pushes it. */
  lemma PlainRenderIsPushed(site: Site, w: World, e: Event, spec: string)
    requires Aligned(w.pages) && Known(site, e) && RunOf(e, spec) && e.faults == WikiFaults(false, false, false)
    requires PageAt(w.pages, site.pageOf[spec]).Some? && WikiParse.Parsed(e.rendered).blocks == []
    requires PageAt(w.pages, site.pageOf[spec]).value.content != e.rendered
    ensures Writes(site, w, e, spec)
    ensures var page := PageAt(Step(site, w, e).pages, site.pageOf[spec]);
      page.Some? && page.value.content == e.rendered
  {
    hide Merge.Merged, NormTitle, WikiParse.Parsed, Reportable, Detections;
    MergeLaws.VerbatimRenderIsFixedIff(PageAt(w.pages, site.pageOf[spec]).value.content, e.rendered);
  }

  /** Two pushes in a row, of which the first loses its state write. */
  function LostWrite(spec: string, x: string, y: string, commit: string, id1: string, id2: string): seq<Event> {
    var none := WikiFaults(false, false, false);
    [CuratorRun(spec, x, commit, id1, none, StoreFaults(false, true)), CuratorRun(spec, y, commit, id2, none, WORKING)]
  }

  /**
   When the state write of a push is lost and the next run pushes again, each human
   edit above the recorded write is reported twice.
   */
  lemma {:induction false} LostWriteReportsTwice(
      site: Site, w: World, spec: string, r: Revision,
      x: string, y: string, commit: string, id1: string, id2: string)
    requires Aligned(w.pages) && OneSpecPerPage(site) && spec in site.pageOf
    requires Tracked(site, w, spec, r) && Above(site, w, spec, r)
    requires Legal(site, w, LostWrite(spec, x, y, commit, id1, id2))
    requires PageAt(w.pages, site.pageOf[spec]).Some? && PageAt(w.pages, site.pageOf[spec]).value.content != x && x != y
    requires WikiParse.Parsed(x).blocks == [] && WikiParse.Parsed(y).blocks == []
    ensures multiset(Reported(site, w, LostWrite(spec, x, y, commit, id1, id2), spec))[r] == 2
  {
    hide Step, Report, Writes, Completes, Tracked, Above, OneSpecPerPage, Fresh, WikiParse.Parsed, Reported;
    var events := LostWrite(spec, x, y, commit, id1, id2);
    var first, second := events[0], events[1];
    assert events[..1] == [first] && [first][..0] == [];
    var v := Step(site, w, first);
    assert After(site, w, [first]) == v;
    PlainRenderIsPushed(site, w, first, spec);
    PlainRenderIsPushed(site, v, second, spec);
    assert ReadablePushes(site, w, [first], spec) == 1 && !Settled(site, w, [first], spec);
    ReportsAreReadablePushes(site, w, events, spec, r);
  }

  /* ----- an input ----- */

  const SITE := Site("bot", map["s" := "P"])
  const HUMAN := Revision("2", "human", "", false)

  /** A page that the curator wrote and a human then edited. */
  const EDITED := World(
    map["P" := PageState([HUMAN, Revision("1", "bot", "", true)], ["edited", "written"])],
    map["s" := SpecState("1", "c")])

  /** On this page, two pushes of which the first loses its state write report the human edit twice. */
  lemma {:induction false} HumanEditIsReportedTwice()
    ensures Legal(SITE, EDITED, LostWrite("s", "x", "y", "c", "3", "4"))
    ensures multiset(Reported(SITE, EDITED, LostWrite("s", "x", "y", "c", "3", "4"), "s"))[HUMAN] == 2
  {
    hide WikiParse.Parsed, Merge.Merged, Reported, Tracked, Above, HistoryOf, NormTitle, Legal;
    EditedPage();
    TextWithoutMarkers("x");
    TextWithoutMarkers("y");
    var events := LostWrite("s", "x", "y", "c", "3", "4");
    TwoEventsAreLegal(events[0], events[1]);
    assert events == [events[0], events[1]];
    LostWriteReportsTwice(SITE, EDITED, "s", HUMAN, "x", "y", "c", "3", "4");
  }

  lemma EditedPage()
    ensures Tracked(SITE, EDITED, "s", HUMAN) && Above(SITE, EDITED, "s", HUMAN) && OneSpecPerPage(SITE)
    ensures Aligned(EDITED.pages) && PageAt(EDITED.pages, "P") == Some(Page("P", "edited", HUMAN))
  {
    assert NormTitle("P") == "P";
  }

  lemma TextWithoutMarkers(text: string)
    requires '<' !in text
    ensures WikiParse.Parsed(text).blocks == []
  {
    RenderedPage.NoAngleIsFree(text);
    RenderedPage.FreeTextHasNoBlocks(text);
  }

  lemma TwoEventsAreLegal(a: Event, b: Event)
    requires RunOf(a, "s") && RunOf(b, "s") && a.id == "3" && b.id == "4"
    ensures Legal(SITE, EDITED, [a, b])
  {
    hide Step, NormTitle;
    assert [a, b][..1] == [a] && [a][..0] == [];
    assert Fresh(EDITED, "3") && Fresh(EDITED, "4");
    RunAddsOne(SITE, EDITED, a);
    hide Fresh;
    assert After(SITE, EDITED, []) == EDITED && After(SITE, EDITED, [a]) == Step(SITE, EDITED, a);
    assert Legal(SITE, EDITED, []) && Legal(SITE, EDITED, [a]);
  }

  /** A run brings no other revision than its own. */
  lemma RunAddsOne(site: Site, w: World, e: Event)
    requires Aligned(w.pages) && Known(site, e) && e.CuratorRun?
    ensures forall id :: Fresh(w, id) && id != e.id ==> Fresh(Step(site, w, e), id)
  {
    hide NormTitle, Decide, Aborts;
  }
}
