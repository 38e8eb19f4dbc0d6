/** The reconcile-and-push tail of `orchestrator.go` and its run state. */
module Orchestrator {
  import opened Wrappers
  import opened Wiki
  import opened Reconciler
  import Merge

  datatype SpecState = SpecState(lastBotRevID: string, lastKBCommit: string)

  datatype HumanEditEvent = HumanEditEvent(blockID: string, action: string, diff: string, explanation: string)

  datatype PushResult = PushResult(noOp: bool, newRevisionID: string, humanEdits: seq<HumanEditEvent>)

  type RunState = map<string, SpecState>

  /** The wiki and the per-spec run state: everything a run reads and writes. */
  datatype World = World(pages: Pages, runState: RunState)

  function LastBotRev(runState: RunState, specID: string): string {
    if specID in runState then runState[specID].lastBotRevID else ""
  }

  function EventFor(e: HumanEditDetection): HumanEditEvent {
    HumanEditEvent("page", "overwritten", e.diff, "human edit by " + e.revision.user + " after last bot write")
  }

  function EventsFor(edits: seq<HumanEditDetection>): (r: seq<HumanEditEvent>)
    ensures |r| == |edits|
    ensures forall k :: 0 <= k < |r| ==> r[k] == EventFor(edits[k])
  {
    seq(|edits|, k requires 0 <= k < |edits| => EventFor(edits[k]))
  }

  /** What a run of `specID` decides about its page. */
  function DecisionOf(w: World, specID: string, title: string, rendered: string): Decision
    requires Aligned(w.pages)
  {
    Decide(w.pages, title, rendered, LastBotRev(w.runState, specID))
  }

  function PushedContent(d: Decision, rendered: string): string {
    if d.mergedContent == "" then rendered else d.mergedContent
  }

  function Summary(specID: string): string {
    "mykb-curator: spec=" + specID
  }

  /** The world after a run of `specID` has pushed `rendered`; `id` names the revision it may write. */
  function Pushed(
      w: World, identity: string, specID: string, title: string, rendered: string, kbCommit: string,
      id: string): (r: World)
    requires Aligned(w.pages)
    ensures Aligned(r.pages)
  {
    var d := DecisionOf(w, specID, title, rendered);
    if d.action.NoOp? then
      w.(runState := w.runState[specID := SpecState(LastBotRev(w.runState, specID), kbCommit)])
    else
      var rev := Revision(id, identity, Summary(specID), true);
      World(Prepended(w.pages, title, rev, PushedContent(d, rendered)),
            w.runState[specID := SpecState(id, kbCommit)])
  }

  /* ----- when calls fail ----- */

  /** Whether reads of the run state fail, and whether writes to it do. */
  datatype StoreFaults = StoreFaults(read: bool, write: bool)

  /** The run of `specID` ends with an error. */
  predicate Aborts(w: World, specID: string, title: string, rendered: string, faults: WikiFaults)
    requires Aligned(w.pages)
  {
    var d := DecisionOf(w, specID, title, rendered);
    ReconcileFails(d, faults) || (!d.action.NoOp? && faults.upsert)
  }

  /** A spec whose run state cannot be read looks like one that never ran. */
  function Seen(w: World, specID: string, store: StoreFaults): World {
    if store.read then w.(runState := w.runState - {specID}) else w
  }

  /** The world after a push under faults: an error leaves it as it was, a lost write the run state only. */
  function PushedUnder(
      w: World, identity: string, specID: string, title: string, rendered: string, kbCommit: string, id: string,
      wiki: WikiFaults, store: StoreFaults): (r: World)
    requires Aligned(w.pages)
    ensures Aligned(r.pages)
  {
    var seen := Seen(w, specID, store);
    if Aborts(seen, specID, title, rendered, wiki) then w
    else
      var p := Pushed(seen, identity, specID, title, rendered, kbCommit, id);
      World(p.pages, if store.write then w.runState else w.runState[specID := p.runState[specID]])
  }

  function ResultUnder(w: World, specID: string, title: string, rendered: string, id: string,
                       wiki: WikiFaults, store: StoreFaults): Option<PushResult>
    requires Aligned(w.pages)
  {
    var seen := Seen(w, specID, store);
    if Aborts(seen, specID, title, rendered, wiki) then None
    else
      var d := DecisionOf(seen, specID, title, rendered);
      Some(PushResult(d.action.NoOp?, if d.action.NoOp? then "" else id, EventsFor(d.humanEdits)))
  }

  const WORKING := StoreFaults(false, false)

  /** With a working store a run that is not aborted does what `Pushed` says. */
  lemma {:induction false} WorkingStorePushes(
      w: World, identity: string, specID: string, title: string, rendered: string, kbCommit: string, id: string,
      wiki: WikiFaults)
    requires Aligned(w.pages)
    ensures PushedUnder(w, identity, specID, title, rendered, kbCommit, id, wiki, WORKING) ==
      if Aborts(w, specID, title, rendered, wiki) then w
      else Pushed(w, identity, specID, title, rendered, kbCommit, id)
  {
    hide DecisionOf;
  }

  /**
   A run that cannot read the run state reports no human edit; and when it is a
   no-op, it records that there has been no write at all.
   */
  lemma {:induction false} NothingIsReportedWithoutState(
      w: World, specID: string, title: string, rendered: string, id: string, wiki: WikiFaults, store: StoreFaults)
    requires Aligned(w.pages) && store.read && ResultUnder(w, specID, title, rendered, id, wiki, store).Some?
    ensures ResultUnder(w, specID, title, rendered, id, wiki, store).value.humanEdits == []
    ensures forall identity, commit ::
      var w' := PushedUnder(w, identity, specID, title, rendered, commit, id, wiki, store);
      ResultUnder(w, specID, title, rendered, id, wiki, store).value.noOp && !store.write ==>
        w'.pages == w.pages && LastBotRev(w'.runState, specID) == ""
  {
    hide Aborts, Merge.Merged;
  }

  class Orchestrator {
    const wikiTarget: Target
    /** Whether there is a run-state store at all. */
    const hasStore: bool
    var runState: RunState

    constructor (wikiTarget: Target, hasStore: bool)
      ensures this.wikiTarget == wikiTarget && this.hasStore == hasStore && runState == map[]
    {
      this.wikiTarget := wikiTarget;
      this.hasStore := hasStore;
      runState := map[];
    }

    ghost function State(): World
      reads this, wikiTarget
    {
      World(wikiTarget.pages, runState)
    }

    /** An absent store neither reads nor writes. */
    function Faults(store: StoreFaults): StoreFaults {
      StoreFaults(store.read || !hasStore, store.write || !hasStore)
    }

    method LookupLastBotRev(specID: string, readFails: bool) returns (id: string)
      ensures id ==
        LastBotRev(Seen(World(map[], runState), specID, StoreFaults(readFails || !hasStore, false)).runState, specID)
    {
      if !hasStore || readFails || specID !in runState {
        return "";
      }
      return runState[specID].lastBotRevID;
    }

    /** A failed write is ignored. */
    method PersistRunState(specID: string, revID: string, kbCommit: string, writeFails: bool)
      modifies this`runState
      ensures runState ==
        if writeFails || !hasStore then old(runState) else old(runState)[specID := SpecState(revID, kbCommit)]
    {
      if !hasStore || writeFails {
        return;
      }
      runState := runState[specID := SpecState(revID, kbCommit)];
    }

    method ConvertHumanEdits(edits: seq<HumanEditDetection>) returns (out: seq<HumanEditEvent>)
      ensures out == EventsFor(edits)
    {
      out := [];
      for i := 0 to |edits|
        invariant |out| == i && forall k :: 0 <= k < i ==> out[k] == EventFor(edits[k])
      {
        out := out + [EventFor(edits[i])];
      }
    }

    /** `newRevID` stands for the random ID of a revision that the push may create; `None` is an error. */
    method ReconcileAndPush(specID: string, page: string, rendered: string, kbCommit: string, newRevID: string,
                            wiki: WikiFaults, store: StoreFaults)
      returns (res: Option<PushResult>)
      requires wikiTarget.Valid()
      modifies this`runState, wikiTarget
      ensures wikiTarget.Valid()
      ensures State() == PushedUnder(old(State()), wikiTarget.identity, specID, page, rendered, kbCommit, newRevID,
        wiki, Faults(store))
      ensures res == ResultUnder(old(State()), specID, page, rendered, newRevID, wiki, Faults(store))
    {
      hide Decide, Prepended;
      var lastBotRevID := LookupLastBotRev(specID, store.read);
      var reconciled := Reconcile(wikiTarget, page, rendered, lastBotRevID, wiki);
      if reconciled.None? {
        return None;
      }
      var dec := reconciled.value;
      var humanEdits := ConvertHumanEdits(dec.humanEdits);
      match dec.action {
        case NoOp =>
          PersistRunState(specID, lastBotRevID, kbCommit, store.write);
          return Some(PushResult(true, "", humanEdits));
        case _ =>
          var content := dec.mergedContent;
          if content == "" {
            content := rendered;
          }
          if wiki.upsert {
            return None;
          }
          var rev := wikiTarget.UpsertPage(page, content, Summary(specID), newRevID);
          PersistRunState(specID, rev.id, kbCommit, store.write);
          return Some(PushResult(false, rev.id, humanEdits));
      }
    }
  }
}
