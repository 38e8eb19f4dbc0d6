/** `refine.go`: judge, revise the failing sections, run the passes again, judge again. */
module Refine {
  import opened Wrappers
  import opened IR

  datatype Verdict = Verdict(section: string, pass: bool, inconclusive: bool, reason: string,
    ungroundedClaims: seq<string>)
  datatype Report = Report(page: string, verdicts: seq<Verdict>)
  datatype DocSection = DocSection(title: string, intent: string, render: string)
  datatype DocPage = DocPage(page: string, sections: seq<DocSection>)
  datatype Feedback = Feedback(reason: string, ungroundedClaims: seq<string>)

  /** The `n`-th review of a run; `None` is an error. */
  type Reviewer = (nat, seq<Section>) -> Option<Report>

  /** The revision for one verdict, given round and verdict number; `None` is an error. */
  type Reviser = (nat, nat, DocSection, Feedback) -> Option<Section>

  /** What the rewriting passes make of the section at a position, its heading included. */
  type SectionPass = (Section, nat) -> Section

  /** A pipeline: what it makes of each section, and whether it accepts the result (`ValidateLinks` may not). */
  datatype Passes = Passes(f: SectionPass, accepts: seq<Section> -> bool)

  predicate Clean(v: Verdict) {
    v.pass && !v.inconclusive
  }

  predicate AllPass(rep: Report) {
    forall v <- rep.verdicts :: Clean(v)
  }

  function CountFailing(verdicts: seq<Verdict>): nat {
    if verdicts == [] then 0 else (if Clean(verdicts[0]) then 0 else 1) + CountFailing(verdicts[1..])
  }

  function FailingCount(rep: Report): nat {
    CountFailing(rep.verdicts)
  }

  lemma {:induction false} FailingVerdicts(verdicts: seq<Verdict>)
    ensures CountFailing(verdicts) == 0 <==> forall v <- verdicts :: v.pass && !v.inconclusive
  {
    if verdicts != [] {
      FailingVerdicts(verdicts[1..]);
      assert verdicts == [verdicts[0]] + verdicts[1..];
    }
  }

  /** The first section of the page with this title, an intent and no structural render. */
  function ProseSection(sections: seq<DocSection>, title: string): Option<DocSection> {
    if sections == [] then None
    else if sections[0].title == title && sections[0].render == "" && sections[0].intent != "" then Some(sections[0])
    else ProseSection(sections[1..], title)
  }

  /** The first index whose heading is `heading`, or the number of sections. */
  function HeadingIndex(sections: seq<Section>, heading: string): (i: nat)
    ensures i <= |sections|
    ensures i < |sections| ==> sections[i].heading == heading
    ensures forall k :: 0 <= k < i ==> sections[k].heading != heading
  {
    if sections == [] || sections[0].heading == heading then 0 else 1 + HeadingIndex(sections[1..], heading)
  }

  function Spliced(sections: seq<Section>, sec: Section): (r: seq<Section>)
    ensures |r| == |sections|
  {
    var i := HeadingIndex(sections, sec.heading);
    if i < |sections| then sections[i := sec] else sections
  }

  /** The passes over all sections. */
  function PassAll(f: SectionPass, sections: seq<Section>): (r: seq<Section>)
    ensures |r| == |sections|
    ensures forall i :: 0 <= i < |r| ==> r[i] == f(sections[i], i)
  {
    seq(|sections|, i requires 0 <= i < |sections| => f(sections[i], i))
  }

  /* ----- a run as a function of the sections it is given ----- */

  datatype Revision = Revision(sections: seq<Section>, any: bool)

  /** The collaborators and budget of one run. */
  datatype Setting = Setting(page: DocPage, review: Reviewer, revise: Reviser, passes: Passes, maxIters: int) {
    /** The `n`-th verdict on sections that have been through the passes; `None` when a pass or the review fails. */
    function Judge(n: nat, applied: seq<Section>): Option<Report> {
      if passes.accepts(applied) then review(n, applied) else None
    }
  }

  /** The sections once the verdicts from number `k` on have been acted on in this round. */
  function ReviseFrom(s: Setting, r: Revision, verdicts: seq<Verdict>, k: nat, round: nat): (out: Option<Revision>)
    requires k <= |verdicts|
    ensures out.Some? ==> |out.value.sections| == |r.sections|
    ensures out.Some? && !out.value.any ==> out.value == r
    decreases |verdicts| - k
  {
    if k == |verdicts| then Some(r)
    else
      var v := verdicts[k];
      if Clean(v) then ReviseFrom(s, r, verdicts, k + 1, round)
      else
        match ProseSection(s.page.sections, v.section)
        case None => ReviseFrom(s, r, verdicts, k + 1, round)
        case Some(sec) =>
          var newSec :- s.revise(round, k, sec, Feedback(v.reason, v.ungroundedClaims));
          var found := HeadingIndex(r.sections, newSec.heading) < |r.sections|;
          ReviseFrom(s, if found then Revision(Spliced(r.sections, newSec), true) else r, verdicts, k + 1, round)
  }

  /** What a run leaves behind: the sections, and the reports of all its reviews in order. */
  datatype Outcome = Outcome(sections: seq<Section>, reports: seq<Report>)

  predicate Continues(s: Setting, reports: seq<Report>)
    requires reports != []
  {
    |reports| - 1 < s.maxIters && !AllPass(reports[|reports| - 1])
  }

  /**
   The loop as the code runs it: the revisions go into the sections that the
   passes have already been over, because document and base share them.
   */
  function SharedFrom(s: Setting, sections: seq<Section>, reports: seq<Report>): Option<Outcome>
    requires reports != []
    decreases s.maxIters - |reports|
  {
    if !Continues(s, reports) then Some(Outcome(sections, reports))
    else
      var rep := reports[|reports| - 1];
      var r :- ReviseFrom(s, Revision(sections, false), rep.verdicts, 0, |reports| - 1);
      if !r.any then Some(Outcome(sections, reports))
      else
        var applied := PassAll(s.passes.f, r.sections);
        var rep' :- s.Judge(|reports|, applied);
        if FailingCount(rep') >= FailingCount(rep) then Some(Outcome(applied, reports + [rep']))
        else SharedFrom(s, applied, reports + [rep'])
  }

  function SharedRun(s: Setting, sections: seq<Section>): Option<Outcome> {
    var applied := PassAll(s.passes.f, sections);
    var rep :- s.Judge(0, applied);
    if s.maxIters <= 0 then Some(Outcome(applied, [rep])) else SharedFrom(s, applied, [rep])
  }

  /**
   The loop as its comment describes it: revisions are spliced into a clean base
   that no pass has touched, and every round runs the passes once, on a copy.
   */
  function CleanFrom(s: Setting, base: seq<Section>, reports: seq<Report>): Option<Outcome>
    requires reports != []
    decreases s.maxIters - |reports|
  {
    if !Continues(s, reports) then Some(Outcome(base, reports))
    else
      var rep := reports[|reports| - 1];
      var r :- ReviseFrom(s, Revision(base, false), rep.verdicts, 0, |reports| - 1);
      if !r.any then Some(Outcome(base, reports))
      else
        var rep' :- s.Judge(|reports|, PassAll(s.passes.f, r.sections));
        if FailingCount(rep') >= FailingCount(rep) then Some(Outcome(r.sections, reports + [rep']))
        else CleanFrom(s, r.sections, reports + [rep'])
  }

  /** The published sections are the passes, once, over the clean base with all revisions. */
  function CleanRun(s: Setting, sections: seq<Section>): Option<Outcome> {
    var rep :- s.Judge(0, PassAll(s.passes.f, sections));
    var out :- if s.maxIters <= 0 then Some(Outcome(sections, [rep])) else CleanFrom(s, sections, [rep]);
    Some(Outcome(PassAll(s.passes.f, out.sections), out.reports))
  }

  /* ----- the loop ----- */

  datatype Result = Result(doc: Document, report: Report, iterations: nat)

  class Loop {
    const reviser: Reviser
    const reviewer: Reviewer
    const maxIters: int

    constructor (r: Reviser, j: Reviewer, maxIters: int)
      ensures reviser == r && reviewer == j && this.maxIters == maxIters
    {
      reviser := r;
      reviewer := j;
      this.maxIters := maxIters;
    }

    /** The passes, in place: the result shares its sections with `doc`. */
    method ApplyPasses(p: Option<Passes>, doc: Document) returns (r: Option<Document>)
      modifies doc.sections
      ensures doc.sections[..] == PassAll(PassesOf(p).f, old(doc.sections[..]))
      ensures r == if PassesOf(p).accepts(doc.sections[..]) then Some(doc) else None
    {
      if p.None? {
        assert doc.sections[..] == PassAll(PassesOf(p).f, doc.sections[..]);
        return Some(doc);
      }
      for i := 0 to doc.sections.Length
        invariant forall k :: 0 <= k < i ==> doc.sections[k] == p.value.f(old(doc.sections[k]), k)
        invariant forall k :: i <= k < doc.sections.Length ==> doc.sections[k] == old(doc.sections[k])
      {
        doc.sections[i] := p.value.f(doc.sections[i], i);
      }
      assert doc.sections[..] == PassAll(p.value.f, old(doc.sections[..]));
      return if p.value.accepts(doc.sections[..]) then Some(doc) else None;
    }

    method SpliceSection(doc: Document, sec: Section) returns (found: bool)
      modifies doc.sections
      ensures found == (HeadingIndex(old(doc.sections[..]), sec.heading) < doc.sections.Length)
      ensures doc.sections[..] == Spliced(old(doc.sections[..]), sec)
    {
      ghost var before := doc.sections[..];
      for i := 0 to doc.sections.Length
        invariant doc.sections[..] == before
        invariant forall k :: 0 <= k < i ==> before[k].heading != sec.heading
      {
        if doc.sections[i].heading == sec.heading {
          doc.sections[i] := sec;
          assert HeadingIndex(before, sec.heading) == i;
          return true;
        }
      }
      return false;
    }

    /** One round of revisions, spliced into the sections of `work`. */
    method ReviseFailing(
        page: DocPage, work: Document, rep: Report, round: nat, ghost s: Setting) returns (any: Option<bool>)
      requires s.page == page && s.revise == reviser
      modifies work.sections
      ensures var r := ReviseFrom(s, Revision(old(work.sections[..]), false), rep.verdicts, 0, round);
        match r
        case None => any.None?
        case Some(out) => any == Some(out.any) && work.sections[..] == out.sections
    {
      var revisedAny := false;
      ghost var start := Revision(work.sections[..], false);
      for k := 0 to |rep.verdicts|
        invariant ReviseFrom(s, start, rep.verdicts, 0, round)
               == ReviseFrom(s, Revision(work.sections[..], revisedAny), rep.verdicts, k, round)
      {
        var v := rep.verdicts[k];
        if v.pass && !v.inconclusive {
          continue;
        }
        var sec := ProseSection(page.sections, v.section);
        if sec.None? {
          continue;
        }
        var newSec := reviser(round, k, sec.value, Feedback(v.reason, v.ungroundedClaims));
        if newSec.None? {
          return None;
        }
        var found := SpliceSection(work, newSec.value);
        if found {
          revisedAny := true;
        }
      }
      return Some(revisedAny);
    }

    method Run(page: DocPage, preDoc: Document, p: Option<Passes>) returns (res: Option<Result>)
      modifies preDoc.sections
      ensures
        match SharedRun(Setting(page, reviewer, reviser, PassesOf(p), maxIters), old(preDoc.sections[..]))
        case None => res.None?
        case Some(out) =>
          && out.reports != []
          && res == Some(Result(preDoc, out.reports[|out.reports| - 1], |out.reports| - 1))
          && preDoc.sections[..] == out.sections
    {
      hide PassAll, ReviseFrom, AllPass, CountFailing;
      ghost var s := Setting(page, reviewer, reviser, PassesOf(p), maxIters);
      var work := preDoc;
      var first := ApplyPasses(p, work);
      if first.None? {
        return None;
      }
      var applied := first.value;
      var rep := reviewer(0, applied.sections[..]);
      if rep.None? {
        return None;
      }
      if maxIters <= 0 {
        return Some(Result(applied, rep.value, 0));
      }
      var iters := 0;
      var prevFail := FailingCount(rep.value);
      ghost var reports := [rep.value];
      while iters < maxIters && !AllPass(rep.value)
        invariant rep.Some? && reports != [] && reports[|reports| - 1] == rep.value && iters == |reports| - 1
        invariant prevFail == FailingCount(rep.value) && applied == preDoc
        invariant SharedRun(s, old(preDoc.sections[..])) == SharedFrom(s, preDoc.sections[..], reports)
        decreases maxIters - iters
      {
        assert Continues(s, reports);
        var revisedAny := ReviseFailing(page, work, rep.value, iters, s);
        if revisedAny.None? {
          return None;
        }
        if !revisedAny.value {
          return Some(Result(applied, rep.value, iters));
        }
        var next := ApplyPasses(p, work);
        if next.None? {
          return None;
        }
        applied := next.value;
        rep := reviewer(iters + 1, applied.sections[..]);
        if rep.None? {
          return None;
        }
        reports := reports + [rep.value];
        iters := iters + 1;
        var nowFail := FailingCount(rep.value);
        if nowFail >= prevFail {
          return Some(Result(applied, rep.value, iters));
        }
        prevFail := nowFail;
      }
      return Some(Result(applied, rep.value, iters));
    }
  }

  /** Without passes every section stays as it is and nothing is rejected. */
  function PassesOf(p: Option<Passes>): Passes {
    match p
    case None => Passes((sec, _) => sec, _ => true)
    case Some(passes) => passes
  }
}
