/** `reconciler.go`: what to do at the wiki boundary with a rendered page. */
module Reconciler {
  import opened Wrappers
  import opened Wiki
  import Merge

  datatype Action = Create | Upsert | NoOp

  datatype HumanEditDetection = HumanEditDetection(revision: Revision, diff: string)

  datatype Decision = Decision(
    action: Action,
    currentRevisionID: string,
    mergedContent: string,
    humanEdits: seq<HumanEditDetection>,
    preExistingContent: bool)

  function Detection(rev: Revision): HumanEditDetection {
    HumanEditDetection(rev, "revision " + rev.id + " by " + rev.user + ": " + rev.comment)
  }

  function Detections(revisions: seq<Revision>): (r: seq<HumanEditDetection>)
    ensures |r| == |revisions|
    ensures forall k :: 0 <= k < |r| ==> r[k] == Detection(revisions[k])
  {
    seq(|revisions|, k requires 0 <= k < |revisions| => Detection(revisions[k]))
  }

  /** The human revisions that a reconcile reports. */
  function Reportable(history: seq<Revision>, lastBotRevID: string): seq<Revision> {
    if lastBotRevID == "" then [] else Humans(NewerThan(history, lastBotRevID))
  }

  function Decide(pages: Pages, title: string, rendered: string, lastBotRevID: string): Decision
    requires Aligned(pages)
  {
    match PageAt(pages, title)
    case None => Decision(Create, "", rendered, [], false)
    case Some(current) =>
      var merged := Merge.Merged(current.content, rendered);
      if merged == current.content then
        Decision(NoOp, current.latestRevision.id, merged, [], false)
      else
        var history := StateOf(pages, title).revisions;
        Decision(Upsert, current.latestRevision.id, merged,
                 Detections(Reportable(history, lastBotRevID)),
                 lastBotRevID == "" && Humans(history) != [])
  }

  /** A no-op carries the page as it is for its merged content, not nothing. */
  lemma {:induction false} NoOpCarriesThePage(pages: Pages, title: string, rendered: string, lastBotRevID: string)
    requires Aligned(pages)
    ensures var d, page := Decide(pages, title, rendered, lastBotRevID), PageAt(pages, title);
      d.action.NoOp? <==>
        page.Some? && d.mergedContent == page.value.content == Merge.Merged(page.value.content, rendered)
  {
    hide Merge.Merged;
  }

  /**
   The rest of a decision: the revision it was made against is the newest one of the
   page, if there is one; and it speaks of earlier human content exactly when it pushes
   over a page with human revisions without knowing a write of its own.
   */
  lemma {:induction false} DecisionMeaning(pages: Pages, title: string, rendered: string, lastBotRevID: string)
    requires Aligned(pages)
    ensures var d, history := Decide(pages, title, rendered, lastBotRevID), StateOf(pages, title).revisions;
      && (d.action.Create? <==> history == [])
      && d.currentRevisionID == (if history == [] then "" else history[0].id)
      && (d.preExistingContent <==>
            d.action.Upsert? && lastBotRevID == "" && exists k :: 0 <= k < |history| && !history[k].isBot)
      && (d.humanEdits != [] ==> d.action.Upsert? && lastBotRevID != "")
  {
    hide Merge.Merged, NewerThan;
    HumansExist(StateOf(pages, title).revisions);
  }

  lemma {:induction false} HumansExist(history: seq<Revision>)
    ensures Humans(history) != [] <==> exists k :: 0 <= k < |history| && !history[k].isBot
  {
    if history != [] {
      HumansExist(history[1..]);
      assert forall k :: 1 <= k < |history| ==> history[k] == history[1..][k - 1];
    }
  }

  /** Which of the wiki's answers are errors. */
  datatype WikiFaults = WikiFaults(getPage: bool, history: bool, upsert: bool)

  /** The reconcile itself fails: no page content, or no history when the merge is to be pushed. */
  predicate ReconcileFails(d: Decision, faults: WikiFaults) {
    faults.getPage || (d.action.Upsert? && faults.history)
  }

  method Reconcile(target: Target, title: string, rendered: string, lastBotRevID: string, faults: WikiFaults)
    returns (d: Option<Decision>)
    requires target.Valid()
    ensures var decision := Decide(target.pages, title, rendered, lastBotRevID);
      d == if ReconcileFails(decision, faults) then None else Some(decision)
  {
    hide Merge.Merged;
    if faults.getPage {
      return None;
    }
    var current := target.GetPage(title);
    if current.None? {
      return Some(Decision(Create, "", rendered, [], false));
    }
    var merged := Merge.MergeBlocks(current.value.content, rendered);
    var decision := Decision(NoOp, current.value.latestRevision.id, merged, [], false);
    if merged == current.value.content {
      return Some(decision);
    }
    if faults.history {
      return None;
    }
    var humans, preExisting := DetectHumanEdits(target, title, lastBotRevID);
    return Some(decision.(humanEdits := humans, preExistingContent := preExisting, action := Upsert));
  }

  method DetectHumanEdits(target: Target, title: string, lastBotRevID: string)
    returns (out: seq<HumanEditDetection>, preExisting: bool)
    requires target.Valid()
    ensures var history := StateOf(target.pages, title).revisions;
      && out == Detections(Reportable(history, lastBotRevID))
      && preExisting == (lastBotRevID == "" && Humans(history) != [])
  {
    hide Humans, NewerThan, Detection, Detections;
    var hist := target.History(title, "");
    NothingToReport(lastBotRevID);
    assert hist[|hist|..] == [] && hist[0..] == hist;
    out, preExisting := [], false;
    if lastBotRevID == "" {
      for i := 0 to |hist|
        invariant Humans(hist) == Humans(hist[i..])
      {
        assert hist[i..] == [hist[i]] + hist[i + 1..];
        HumansFirst(hist[i], hist[i + 1..]);
        if !hist[i].isBot {
          return [], true;
        }
      }
      return;
    }
    for i := 0 to |hist|
      invariant Detections(Humans(NewerThan(hist, lastBotRevID)))
             == out + Detections(Humans(NewerThan(hist[i..], lastBotRevID)))
    {
      DetectStep(out, hist[i..], lastBotRevID);
      assert hist[i..][0] == hist[i] && hist[i..][1..] == hist[i + 1..];
      if hist[i].id == lastBotRevID {
        break;
      }
      if !hist[i].isBot {
        out := out + [Detection(hist[i])];
      }
    }
  }

  lemma NothingToReport(id: string)
    ensures Humans([]) == [] && NewerThan([], id) == [] && Detections([]) == []
  {}

  lemma NewerHumans(hist: seq<Revision>, id: string)
    requires hist != []
    ensures Humans(NewerThan(hist, id)) ==
      if hist[0].id == id then []
      else (if hist[0].isBot then [] else [hist[0]]) + Humans(NewerThan(hist[1..], id))
  {
    if hist[0].id != id {
      assert NewerThan(hist, id)[1..] == NewerThan(hist[1..], id);
    }
  }

  lemma DetectionsAppend(a: seq<Revision>, b: seq<Revision>)
    ensures Detections(a + b) == Detections(a) + Detections(b)
  {}

  lemma DetectStep(out: seq<HumanEditDetection>, hist: seq<Revision>, id: string)
    requires hist != []
    ensures out + Detections(Humans(NewerThan(hist, id))) ==
      if hist[0].id == id then out
      else (if hist[0].isBot then out else out + [Detection(hist[0])])
           + Detections(Humans(NewerThan(hist[1..], id)))
  {
    hide Humans, NewerThan, Detection, Detections;
    NewerHumans(hist, id);
    var rest := Humans(NewerThan(hist[1..], id));
    if hist[0].id == id {
      NothingToReport(id);
      assert out + [] == out;
    } else if hist[0].isBot {
      assert [] + rest == rest;
    } else {
      DetectionsAppend([hist[0]], rest);
      OneDetection(hist[0]);
      Associates(out, [Detection(hist[0])], Detections(rest));
    }
  }

  lemma OneDetection(rev: Revision)
    ensures Detections([rev]) == [Detection(rev)]
  {}
}
