/** What the result of a run tells its caller, for whole histories of runs and edits. */
module RunResults {
  import opened Wrappers
  import opened Wiki
  import opened Reconciler
  import opened Orchestrator
  import opened Protocol
  import opened ReportCounts
  import Merge

  /** What a run of `spec` returns; `None` is an error. */
  function ResultOf(site: Site, w: World, e: Event, spec: string): Option<PushResult>
    requires Aligned(w.pages) && Known(site, e) && RunOf(e, spec)
  {
    ResultUnder(w, spec, site.pageOf[spec], e.rendered, e.id, e.faults, e.store)
  }

  /** The event tells of this revision: that it is overwritten, its ID, its user and its comment. */
  predicate Tells(e: HumanEditEvent, r: Revision) {
    && e.blockID == "page" && e.action == "overwritten"
    && e.diff == "revision " + r.id + " by " + r.user + ": " + r.comment
    && e.explanation == "human edit by " + r.user + " after last bot write"
  }

  /* ----- the result of one run ----- */

  /**
   A run that completes returns one event for each human revision that it reports, in order; one that
   does not, an error.
   */
  lemma {:induction false} ResultTellsReport(site: Site, w: World, e: Event, spec: string)
    requires Aligned(w.pages) && Known(site, e) && RunOf(e, spec)
    ensures ResultOf(site, w, e, spec).Some? <==> Completes(site, w, e, spec)
    ensures Completes(site, w, e, spec) ==>
      var events, report := ResultOf(site, w, e, spec).value.humanEdits, Report(site, w, e, spec);
      |events| == |report| && forall k :: 0 <= k < |events| ==> Tells(events[k], report[k])
  {
    hide Aborts, Merge.Merged, Reportable;
  }

  /**
   The result is a no-op exactly when the history of the page has not grown; otherwise
   it has grown by one revision, and the result names it.
   */
  lemma {:induction false} ResultNamesNewRevision(site: Site, w: World, e: Event, spec: string)
    requires Aligned(w.pages) && Known(site, e) && RunOf(e, spec) && Completes(site, w, e, spec)
    ensures
      var res, before := ResultOf(site, w, e, spec).value, HistoryOf(site, w, spec);
      var after := HistoryOf(site, Step(site, w, e), spec);
      && (res.noOp <==> after == before)
      && (res.noOp ==> res.newRevisionID == "")
      && (!res.noOp ==>
            && after != [] && after[1..] == before && after[0].id == res.newRevisionID
            && after[0] == Revision(e.id, site.identity, "mykb-curator: spec=" + spec, true))
  {
    hide Step, Report, Completes, Decided, HistoryOf;
    RunEffect(site, w, e, spec);
    ResultIsDecision(site, w, e, spec);
    var rev := Revision(e.id, site.identity, Summary(spec), true);
    assert ([rev] + HistoryOf(site, w, spec))[1..] == HistoryOf(site, w, spec);
  }

  /**
   A run completes unless a call that it needs fails: reading the page always, the history
   when it is to push over a page, and writing when it is to push.  It pushes when there is
   no page, or when merging the render changes the page.
   */
  lemma {:induction false} CompletesIff(site: Site, w: World, e: Event, spec: string)
    requires Aligned(w.pages) && Known(site, e) && RunOf(e, spec)
    ensures
      var page := PageAt(w.pages, site.pageOf[spec]);
      var pushes := page.None? || Merge.Merged(page.value.content, e.rendered) != page.value.content;
      && (Completes(site, w, e, spec) <==>
            && !e.faults.getPage
            && (page.Some? && pushes ==> !e.faults.history)
            && (pushes ==> !e.faults.upsert))
      && (Writes(site, w, e, spec) <==> Completes(site, w, e, spec) && pushes)
  {
    hide Merge.Merged, Reportable, Detections;
  }

  lemma ResultIsDecision(site: Site, w: World, e: Event, spec: string)
    requires Aligned(w.pages) && Known(site, e) && RunOf(e, spec) && Completes(site, w, e, spec)
    ensures var res, d := ResultOf(site, w, e, spec), Decided(site, w, e);
      && res.Some? && res.value.noOp == d.action.NoOp?
      && res.value.newRevisionID == if d.action.NoOp? then "" else e.id
  {
    hide Aborts, Decide;
  }

  /* ----- the results of a history ----- */

  /** The events that all runs of `spec` return, the latest run first. */
  ghost function Returned(site: Site, w: World, events: seq<Event>, spec: string): seq<HumanEditEvent>
    requires Aligned(w.pages) && AllKnown(site, events)
  {
    if events == [] then []
    else
      var front, e := events[..|events| - 1], events[|events| - 1];
      var v := After(site, w, front);
      (if RunOf(e, spec) && ResultOf(site, v, e, spec).Some? then ResultOf(site, v, e, spec).value.humanEdits else [])
      + Returned(site, w, front, spec)
  }

  /** Each returned event tells of the revision that is reported in its place. */
  lemma {:induction false} ReturnedTellReported(site: Site, w: World, events: seq<Event>, spec: string)
    requires Aligned(w.pages) && Legal(site, w, events)
    ensures var returned, reported := Returned(site, w, events, spec), Reported(site, w, events, spec);
      |returned| == |reported| && forall k :: 0 <= k < |returned| ==> Tells(returned[k], reported[k])
    decreases |events|
  {
    hide Step, Report, Completes, ResultOf, Tells, Fresh;
    if events != [] {
      var front, e := events[..|events| - 1], events[|events| - 1];
      var v := After(site, w, front);
      ReturnedTellReported(site, w, front, spec);
      if RunOf(e, spec) {
        ResultTellsReport(site, v, e, spec);
        NoReportOfFailure(site, v, e, spec);
      } else {
        NotARun(site, v, e, spec);
      }
    }
  }

  lemma NoReportOfFailure(site: Site, w: World, e: Event, spec: string)
    requires Aligned(w.pages) && Known(site, e)
    ensures !Completes(site, w, e, spec) ==> Report(site, w, e, spec) == []
  {}

  /**
   Whatever the interleaving, while the run state works: the events that the runs of
   `spec` return tell, one by one and newest first, of the human revisions between its
   first and its latest write.
   */
  lemma {:induction false} EveryHumanEditIsReturnedOnce(site: Site, w: World, events: seq<Event>, spec: string)
    requires Aligned(w.pages) && OneSpecPerPage(site) && spec in site.pageOf
    requires LastBotRev(w.runState, spec) == "" && Legal(site, w, events) && StoreWorks(events, spec)
    requires DistinctRevisions(HistoryOf(site, w, spec))
    ensures
      var w' := After(site, w, events);
      var last, first := LastBotRev(w'.runState, spec), FirstWrite(site, w, events, spec);
      var window := if last == "" then [] else Humans(Between(HistoryOf(site, w', spec), last, first));
      var returned := Returned(site, w, events, spec);
      |returned| == |window| && forall k :: 0 <= k < |returned| ==> Tells(returned[k], window[k])
  {
    hide Step, Returned, Reported, Between, Humans, FirstWrite, Tells, After, Legal, StoreWorks;
    ReturnedTellReported(site, w, events, spec);
    EveryHumanEditReportedOnce(site, w, events, spec);
  }

  /* ----- counting what is told ----- */

  /** How many of the events tell of `r`. */
  function CountTelling(events: seq<HumanEditEvent>, r: Revision): nat {
    if events == [] then 0 else (if Tells(events[0], r) then 1 else 0) + CountTelling(events[1..], r)
  }

  /** IDs without spaces can be told apart in an event. */
  lemma TellsOneID(e: HumanEditEvent, r: Revision, q: Revision)
    requires Tells(e, r) && Tells(e, q) && ' ' !in r.id && ' ' !in q.id
    ensures r.id == q.id
  {
    DiffAfterWord(r);
    DiffAfterWord(q);
    CutAtSpace(r.id, "by " + r.user + ": " + r.comment, q.id, "by " + q.user + ": " + q.comment);
  }

  lemma DiffAfterWord(r: Revision)
    ensures ("revision " + r.id + " by " + r.user + ": " + r.comment)[9..]
         == r.id + [' '] + ("by " + r.user + ": " + r.comment)
  {
    var rest := r.user + ": " + r.comment;
    assert "revision " + r.id + " by " + r.user + ": " + r.comment == "revision " + (r.id + (" by " + rest));
    assert " by " + rest == [' '] + ("by " + rest);
    assert "by " + rest == "by " + r.user + ": " + r.comment;
    assert ("revision " + (r.id + (" by " + rest)))[9..] == r.id + (" by " + rest);
  }

  lemma CutAtSpace(x: string, r: string, y: string, s: string)
    requires ' ' !in x && ' ' !in y && x + [' '] + r == y + [' '] + s
    ensures x == y
  {
    var t := x + [' '] + r;
    assert t[|x|] == ' ' && t[|y|] == ' ';
    assert forall k :: 0 <= k < |x| ==> t[k] == x[k];
    assert forall k :: 0 <= k < |y| ==> t[k] == y[k];
    assert |x| == |y|;
    assert x == t[..|x|];
  }

  lemma {:induction false} CountIsMultiplicity(events: seq<HumanEditEvent>, reported: seq<Revision>, r: Revision)
    requires |events| == |reported| && forall k :: 0 <= k < |events| ==> Tells(events[k], reported[k])
    requires ' ' !in r.id
    requires forall k :: 0 <= k < |reported| ==> ' ' !in reported[k].id && (reported[k].id == r.id ==> reported[k] == r)
    ensures CountTelling(events, r) == multiset(reported)[r]
  {
    hide Tells;
    if events != [] {
      CountIsMultiplicity(events[1..], reported[1..], r);
      assert reported == [reported[0]] + reported[1..];
      if Tells(events[0], r) {
        TellsOneID(events[0], reported[0], r);
      }
    }
  }

  /** The revision IDs of the page hold no spaces. */
  ghost predicate PlainIDs(history: seq<Revision>) {
    forall k :: 0 <= k < |history| ==> ' ' !in history[k].id
  }

  /**
   Every human edit of the page, anywhere in any history and under any faults: it is
   told by exactly as many returned events as there are readable pushes from then on,
   up to and including the first run that settles, and by none when it was made without
   a recorded write.
   */
  lemma {:induction false} EachEditIsReturned(
      site: Site, w: World, before: seq<Event>, edit: Event, rest: seq<Event>, spec: string)
    requires Aligned(w.pages) && OneSpecPerPage(site) && spec in site.pageOf
    requires Legal(site, w, before + [edit] + rest)
    requires Recorded(site, w, spec) && DistinctRevisions(HistoryOf(site, w, spec))
    requires edit.HumanEdit? && NormTitle(edit.title) == NormTitle(site.pageOf[spec])
    requires PlainIDs(HistoryOf(site, After(site, w, before + [edit] + rest), spec))
    ensures AllKnown(site, before) && AllKnown(site, before + [edit]) && AllKnown(site, rest)
    ensures
      var r := Revision(edit.id, edit.user, edit.comment, false);
      var recorded := LastBotRev(After(site, w, before).runState, spec);
      CountTelling(Returned(site, w, before + [edit] + rest, spec), r) ==
        if recorded == "" then 0 else ReadablePushes(site, After(site, w, before + [edit]), rest, spec)
  {
    hide Step, OneSpecPerPage, NormTitle, ReadablePushes, Reported, Returned, After, Recorded, HistoryOf, LastBotRev;
    var all := before + [edit] + rest;
    var r := Revision(edit.id, edit.user, edit.comment, false);
    EachEditIsReported(site, w, before, edit, rest, spec);
    ReturnedTellReported(site, w, all, spec);
    EditStays(site, w, before, edit, rest, spec);
    ReportedAreDistinct(site, w, all, spec, r);
    CountIsMultiplicity(Returned(site, w, all, spec), Reported(site, w, all, spec), r);
  }

  /** The edit is in the history of the page to the end. */
  lemma EditStays(site: Site, w: World, before: seq<Event>, edit: Event, rest: seq<Event>, spec: string)
    requires Aligned(w.pages) && OneSpecPerPage(site) && spec in site.pageOf
    requires Legal(site, w, before + [edit] + rest)
    requires edit.HumanEdit? && NormTitle(edit.title) == NormTitle(site.pageOf[spec])
    ensures Revision(edit.id, edit.user, edit.comment, false)
         in HistoryOf(site, After(site, w, before + [edit] + rest), spec)
  {
    hide Step, OneSpecPerPage, NormTitle, HistoryOf, Fresh;
    HistorySplits(site, w, before + [edit], rest, spec);
    HistorySplits(site, w, before, [edit], spec);
    var v := After(site, w, before);
    LegalEvent(site, v, edit);
    EditIsOnTop(site, v, edit, spec);
    HistoryAlwaysGrows(site, Step(site, v, edit), rest, spec);
  }

  lemma EditIsOnTop(site: Site, v: World, edit: Event, spec: string)
    requires Aligned(v.pages) && spec in site.pageOf && Known(site, edit)
    requires edit.HumanEdit? && NormTitle(edit.title) == NormTitle(site.pageOf[spec])
    ensures Revision(edit.id, edit.user, edit.comment, false) in HistoryOf(site, Step(site, v, edit), spec)
  {
    hide NormTitle;
  }

  lemma {:induction false} HistoryAlwaysGrows(site: Site, w: World, events: seq<Event>, spec: string)
    requires Aligned(w.pages) && OneSpecPerPage(site) && spec in site.pageOf && AllKnown(site, events)
    ensures forall x <- HistoryOf(site, w, spec) :: x in HistoryOf(site, After(site, w, events), spec)
    decreases |events|
  {
    hide Step, OneSpecPerPage, HistoryOf;
    if events != [] {
      var front, e := events[..|events| - 1], events[|events| - 1];
      HistoryAlwaysGrows(site, w, front, spec);
      HistoryGrows(site, After(site, w, front), e, spec);
    }
  }

  /** What is reported can be told apart by its ID. */
  lemma ReportedAreDistinct(site: Site, w: World, events: seq<Event>, spec: string, r: Revision)
    requires Aligned(w.pages) && OneSpecPerPage(site) && spec in site.pageOf && Legal(site, w, events)
    requires DistinctRevisions(HistoryOf(site, w, spec))
    requires PlainIDs(HistoryOf(site, After(site, w, events), spec)) &&
      r in HistoryOf(site, After(site, w, events), spec)
    ensures ' ' !in r.id
    ensures var reported := Reported(site, w, events, spec);
      forall k :: 0 <= k < |reported| ==> ' ' !in reported[k].id && (reported[k].id == r.id ==> reported[k] == r)
  {
    hide Step, OneSpecPerPage, NormTitle, After, Reported, Fresh;
    DistinctAlways(site, w, events, NormTitle(site.pageOf[spec]));
    var history, reported := HistoryOf(site, After(site, w, events), spec), Reported(site, w, events, spec);
    assert DistinctRevisions(history);
    forall k | 0 <= k < |reported|
      ensures ' ' !in reported[k].id && (reported[k].id == r.id ==> reported[k] == r)
    {
      ReportedAreOld(site, w, events, spec, reported[k]);
    }
  }
}
