/** When sharing the sections between base and output is harmless, and when it is not. */
module RefineLaws {
  import opened Wrappers
  import opened IR
  import opened Refine
  import ZoneMarkers

  /* ----- shared sections against a clean base ----- */

  /** Going over a section a second time changes nothing. */
  ghost predicate Idempotent(f: SectionPass) {
    forall sec: Section, i: nat :: f(f(sec, i), i) == f(sec, i)
  }

  ghost predicate KeepsHeadings(f: SectionPass) {
    forall sec: Section, i: nat :: f(sec, i).heading == sec.heading
  }

  /** Every run on shared sections is the run on a clean base. */
  ghost predicate SharingIsHarmless(f: SectionPass) {
    forall s: Setting, sections: seq<Section> :: s.passes.f == f ==> SharedRun(s, sections) == CleanRun(s, sections)
  }

  /** Two section lists that no reviewer and no splice can tell apart. */
  ghost predicate Alike(f: SectionPass, a: seq<Section>, b: seq<Section>) {
    && |a| == |b|
    && (forall i :: 0 <= i < |a| ==> a[i].heading == b[i].heading)
    && (forall i :: 0 <= i < |a| ==> f(a[i], i) == f(b[i], i))
  }

  lemma AlikePassesEqual(f: SectionPass, a: seq<Section>, b: seq<Section>)
    requires Alike(f, a, b)
    ensures PassAll(f, a) == PassAll(f, b)
  {}

  lemma {:induction false} SameHeadingIndex(a: seq<Section>, b: seq<Section>, heading: string)
    requires |a| == |b| && forall i :: 0 <= i < |a| ==> a[i].heading == b[i].heading
    ensures HeadingIndex(a, heading) == HeadingIndex(b, heading)
  {
    if a != [] {
      SameHeadingIndex(a[1..], b[1..], heading);
    }
  }

  lemma {:induction false} ReviseAlike(s: Setting, a: Revision, b: Revision, verdicts: seq<Verdict>, k: nat, round: nat)
    requires k <= |verdicts| && Alike(s.passes.f, a.sections, b.sections) && a.any == b.any
    ensures
      var x, y := ReviseFrom(s, a, verdicts, k, round), ReviseFrom(s, b, verdicts, k, round);
      && (x.None? <==> y.None?)
      && (x.Some? ==> Alike(s.passes.f, x.value.sections, y.value.sections) && x.value.any == y.value.any)
    decreases |verdicts| - k
  {
    if k < |verdicts| {
      var v := verdicts[k];
      var sec := ProseSection(s.page.sections, v.section);
      if Clean(v) || sec.None? {
        ReviseAlike(s, a, b, verdicts, k + 1, round);
      } else {
        var newSec := s.revise(round, k, sec.value, Feedback(v.reason, v.ungroundedClaims));
        if newSec.Some? {
          SameHeadingIndex(a.sections, b.sections, newSec.value.heading);
          var i := HeadingIndex(a.sections, newSec.value.heading);
          if i < |a.sections| {
            var a', b' := Revision(Spliced(a.sections, newSec.value), true),
              Revision(Spliced(b.sections, newSec.value), true);
            assert Alike(s.passes.f, a'.sections, b'.sections);
            ReviseAlike(s, a', b', verdicts, k + 1, round);
          } else {
            ReviseAlike(s, a, b, verdicts, k + 1, round);
          }
        }
      }
    }
  }

  lemma {:induction false} SharedFromIsCleanFrom(s: Setting, base: seq<Section>, reports: seq<Report>)
    requires Idempotent(s.passes.f) && KeepsHeadings(s.passes.f) && reports != []
    ensures SharedFrom(s, PassAll(s.passes.f, base), reports) ==
      match CleanFrom(s, base, reports)
      case None => None
      case Some(out) => Some(Outcome(PassAll(s.passes.f, out.sections), out.reports))
    decreases s.maxIters - |reports|
  {
    hide ReviseFrom, AllPass, CountFailing, Setting.Judge;
    if Continues(s, reports) {
      var rep := reports[|reports| - 1];
      var shared := Revision(PassAll(s.passes.f, base), false);
      var clean := Revision(base, false);
      ReviseAlike(s, shared, clean, rep.verdicts, 0, |reports| - 1);
      var x, y := ReviseFrom(s, shared, rep.verdicts, 0, |reports| - 1),
        ReviseFrom(s, clean, rep.verdicts, 0, |reports| - 1);
      if y.Some? && y.value.any {
        AlikePassesEqual(s.passes.f, x.value.sections, y.value.sections);
        var rep' := s.Judge(|reports|, PassAll(s.passes.f, y.value.sections));
        if rep'.Some? {
          SharedFromIsCleanFrom(s, y.value.sections, reports + [rep'.value]);
        }
      }
    }
  }

  /**
   With passes that are idempotent and keep headings, every run on shared sections
   reviews, revises and publishes exactly what a run on a clean base would.
   */
  lemma {:induction false} SharedRunIsCleanRun(s: Setting, sections: seq<Section>)
    requires Idempotent(s.passes.f) && KeepsHeadings(s.passes.f)
    ensures SharedRun(s, sections) == CleanRun(s, sections)
  {
    hide ReviseFrom, AllPass, CountFailing, Setting.Judge;
    var rep := s.Judge(0, PassAll(s.passes.f, sections));
    if rep.Some? && s.maxIters > 0 {
      SharedFromIsCleanFrom(s, sections, [rep.value]);
    }
  }

  /* ----- both conditions are needed ----- */

  const FAILING := Report("P", [Verdict("x", false, false, "", [])])
  const PASSED := Report("P", [])

  /** A setting in which the first review asks for one revision, which puts `sec` in, and the second is content. */
  function OneRevision(f: SectionPass, sec: Section): Setting {
    Setting(DocPage("P", [DocSection("x", "intent", "")]), (k, _) => Some(if k == 0 then FAILING else PASSED),
            (_, _, _, _) => Some(sec), Passes(f, _ => true), 1)
  }

  /** `n` sections with another heading, so that the next ones stand at `n` and behind. */
  function Padding(n: nat, heading: string): (r: seq<Section>)
    ensures |r| == n && forall k :: 0 <= k < n ==> r[k] == Section(heading + "-", [])
  {
    seq(n, _ => Section(heading + "-", []))
  }

  lemma HeadingAt(sections: seq<Section>, heading: string, n: nat)
    requires n <= |sections| && (n < |sections| ==> sections[n].heading == heading)
    requires forall k :: 0 <= k < n ==> sections[k].heading != heading
    ensures HeadingIndex(sections, heading) == n
  {}

  /** What the one round does, when `sec` belongs at `n`, or nowhere. */
  lemma OneRoundRevises(f: SectionPass, base: seq<Section>, n: nat, sec: Section)
    requires n <= |base| && HeadingIndex(base, sec.heading) == n
    ensures ReviseFrom(OneRevision(f, sec), Revision(base, false), FAILING.verdicts, 0, 0)
         == Some(if n < |base| then Revision(base[n := sec], true) else Revision(base, false))
  {
    var s, v := OneRevision(f, sec), FAILING.verdicts;
    var r := if n < |base| then Revision(base[n := sec], true) else Revision(base, false);
    assert ReviseFrom(s, r, v, 1, 0) == Some(r);
    assert ProseSection(s.page.sections, "x") == Some(DocSection("x", "intent", ""));
  }

  lemma OneReviewContinues(f: SectionPass, sec: Section)
    ensures Continues(OneRevision(f, sec), [FAILING]) && !Continues(OneRevision(f, sec), [FAILING, PASSED])
    ensures FailingCount(FAILING) == 1 && FailingCount(PASSED) == 0
    ensures forall applied :: OneRevision(f, sec).Judge(0, applied) == Some(FAILING)
    ensures forall applied :: OneRevision(f, sec).Judge(1, applied) == Some(PASSED)
  {
    assert !AllPass(FAILING) by {
      assert FAILING.verdicts[0] in FAILING.verdicts;
    }
  }

  /** The run with one revision, on shared sections and on a clean base. */
  lemma OneRevisionRuns(f: SectionPass, sections: seq<Section>, n: nat, m: nat, sec: Section)
    requires n <= |sections| && m <= |sections|
    requires HeadingIndex(PassAll(f, sections), sec.heading) == n && HeadingIndex(sections, sec.heading) == m
    ensures SharedRun(OneRevision(f, sec), sections) == Some(
      if n < |sections| then Outcome(PassAll(f, PassAll(f, sections)[n := sec]), [FAILING, PASSED])
      else Outcome(PassAll(f, sections), [FAILING]))
    ensures CleanRun(OneRevision(f, sec), sections) == Some(
      if m < |sections| then Outcome(PassAll(f, sections[m := sec]), [FAILING, PASSED])
      else Outcome(PassAll(f, sections), [FAILING]))
  {
    hide ReviseFrom, Continues, FailingCount, Setting.Judge, HeadingIndex;
    var s := OneRevision(f, sec);
    OneReviewContinues(f, sec);
    OneRoundRevises(f, PassAll(f, sections), n, sec);
    OneRoundRevises(f, sections, m, sec);
    assert [FAILING] + [PASSED] == [FAILING, PASSED];
    var start := [FAILING];
    if n < |sections| {
      var shared := PassAll(f, PassAll(f, sections)[n := sec]);
      assert SharedFrom(s, shared, start + [PASSED]) == Some(Outcome(shared, [FAILING, PASSED]));
    }
    if m < |sections| {
      var clean := sections[m := sec];
      assert CleanFrom(s, clean, start + [PASSED]) == Some(Outcome(clean, [FAILING, PASSED]));
    }
  }

  /**
   A pass that recases or otherwise changes a heading hides the section from the
   splice: the loop gives up where the run on a clean base revises.
   */
  lemma {:induction false} RenamedSectionIsNotRevised(f: SectionPass, sec: Section, n: nat, blocks: seq<Block>)
    requires f(sec, n).heading != sec.heading
    requires forall z: Section, k: nat :: k < n ==> f(z, k).heading == z.heading
    ensures
      var doc, s := Padding(n, sec.heading) + [sec], OneRevision(f, Section(sec.heading, blocks));
      && SharedRun(s, doc) == Some(Outcome(PassAll(f, doc), [FAILING]))
      && CleanRun(s, doc) == Some(Outcome(PassAll(f, doc[n := Section(sec.heading, blocks)]), [FAILING, PASSED]))
  {
    var doc := Padding(n, sec.heading) + [sec];
    HeadingAt(doc, sec.heading, n);
    HeadingAt(PassAll(f, doc), sec.heading, n + 1);
    OneRevisionRuns(f, doc, n + 1, n, Section(sec.heading, blocks));
  }

  /** A pass that is not idempotent is applied twice to the sections that are not revised. */
  lemma {:induction false} OtherPassesAreAppliedTwice(f: SectionPass, sec: Section, n: nat)
    requires KeepsHeadings(f) && f(f(sec, n), n) != f(sec, n)
    ensures
      var added := Section(sec.heading + "+", []);
      var doc, s := Padding(n, sec.heading) + [sec, added], OneRevision(f, added);
      && SharedRun(s, doc).Some? && |SharedRun(s, doc).value.sections| == n + 2
      && CleanRun(s, doc).Some? && |CleanRun(s, doc).value.sections| == n + 2
      && SharedRun(s, doc).value.sections[n] == f(f(sec, n), n)
      && CleanRun(s, doc).value.sections[n] == f(sec, n)
  {
    var added := Section(sec.heading + "+", []);
    var doc := Padding(n, sec.heading) + [sec, added];
    assert (sec.heading + "+")[|sec.heading|] != (sec.heading + "-")[|sec.heading|];
    HeadingAt(doc, added.heading, n + 1);
    HeadingAt(PassAll(f, doc), added.heading, n + 1);
    OneRevisionRuns(f, doc, n + 1, n + 1, added);
  }

  lemma {:induction false} FirstRenamed(f: SectionPass, n: nat) returns (m: nat, sec: Section)
    requires exists k: nat, z: Section :: k <= n && f(z, k).heading != z.heading
    ensures m <= n && f(sec, m).heading != sec.heading
    ensures forall z: Section, k: nat :: k < m ==> f(z, k).heading == z.heading
  {
    m, sec :| m <= n && f(sec, m).heading != sec.heading;
    if k: nat, z: Section :| k < m && f(z, k).heading != z.heading {
      m, sec := FirstRenamed(f, m - 1);
    }
  }

  /** Sharing is harmless, in every run, for exactly the passes that are idempotent and keep headings. */
  lemma {:induction false} SharingIsHarmlessIff(f: SectionPass)
    ensures SharingIsHarmless(f) <==> Idempotent(f) && KeepsHeadings(f)
  {
    hide SharedRun, CleanRun, OneRevision;
    if Idempotent(f) && KeepsHeadings(f) {
      forall s: Setting, sections: seq<Section> | s.passes.f == f
        ensures SharedRun(s, sections) == CleanRun(s, sections)
      {
        SharedRunIsCleanRun(s, sections);
      }
    } else if !KeepsHeadings(f) {
      var z: Section, k: nat :| f(z, k).heading != z.heading;
      var n, sec := FirstRenamed(f, k);
      OneRevisionPasses(f, Section(sec.heading, []));
      RenamedSectionIsNotRevised(f, sec, n, []);
    } else {
      var sec: Section, n: nat :| f(f(sec, n), n) != f(sec, n);
      OneRevisionPasses(f, Section(sec.heading + "+", []));
      OtherPassesAreAppliedTwice(f, sec, n);
    }
  }

  lemma OneRevisionPasses(f: SectionPass, sec: Section)
    ensures OneRevision(f, sec).passes.f == f
  {}

  /* ----- two of the passes ----- */

  /** The zone-marker pass is harmless: every run publishes it applied once. */
  lemma {:induction false} ZoneMarkersAreAppliedOnce(s: Setting, sections: seq<Section>)
    requires forall sec: Section, i: nat :: s.passes.f(sec, i) == ZoneMarkers.WrappedSection(sec, i)
    ensures SharedRun(s, sections) == CleanRun(s, sections)
  {
    hide SharedRun, CleanRun;
    forall sec: Section, i: nat ensures s.passes.f(s.passes.f(sec, i), i) == s.passes.f(sec, i) {
      ZoneMarkers.WrapIsIdempotent(sec.blocks, i);
    }
    SharedRunIsCleanRun(s, sections);
  }

  function Lower(c: char): char {
    if 'A' <= c <= 'Z' then c + 32 as char else c
  }

  function Upper(c: char): char {
    if 'a' <= c <= 'z' then c - 32 as char else c
  }

  function LowerAll(s: string): (r: string)
    ensures |r| == |s| && forall i :: 0 <= i < |s| ==> r[i] == Lower(s[i])
  {
    seq(|s|, i requires 0 <= i < |s| => Lower(s[i]))
  }

  /** `toSentenceCase`, for letters in the ASCII range. */
  function SentenceCase(s: string): string {
    if s == "" then "" else [Upper(LowerAll(s)[0])] + LowerAll(s)[1..]
  }

  const HEADING_CASE: SectionPass := (sec: Section, i: nat) => sec.(heading := SentenceCase(sec.heading))

  lemma SentenceCaseIsIdempotent(s: string)
    ensures SentenceCase(SentenceCase(s)) == SentenceCase(s)
  {}

  /**
   The heading-case rule is idempotent, and harmed by the sharing: a section that
   the page calls "Fleet Overview" is revised on a clean base, and never by the loop.
   */
  lemma {:induction false} HeadingCaseHidesSections(blocks: seq<Block>, revised: seq<Block>)
    ensures Idempotent(HEADING_CASE) && !SharingIsHarmless(HEADING_CASE)
    ensures
      var doc, s := [Section("Fleet Overview", blocks)], OneRevision(HEADING_CASE, Section("Fleet Overview", revised));
      && SharedRun(s, doc) == Some(Outcome([Section("Fleet overview", blocks)], [FAILING]))
      && CleanRun(s, doc) == Some(Outcome([Section("Fleet overview", revised)], [FAILING, PASSED]))
  {
    hide SharedRun, CleanRun, OneRevision;
    forall sec: Section, i: nat ensures HEADING_CASE(HEADING_CASE(sec, i), i) == HEADING_CASE(sec, i) {
      SentenceCaseIsIdempotent(sec.heading);
    }
    var sec := Section("Fleet Overview", blocks);
    var doc := [sec];
    assert SentenceCase("Fleet Overview") == "Fleet overview";
    assert Padding(0, sec.heading) + [sec] == doc;
    RenamedSectionIsNotRevised(HEADING_CASE, sec, 0, revised);
    assert PassAll(HEADING_CASE, doc) == [Section("Fleet overview", blocks)];
    assert PassAll(HEADING_CASE, doc[0 := Section("Fleet Overview", revised)]) == [Section("Fleet overview", revised)];
    SharingIsHarmlessIff(HEADING_CASE);
    assert HEADING_CASE(sec, 0).heading != sec.heading;
  }

  /* ----- how long a run goes on, and what it reports ----- */

  /** Every report but the last has fewer failures than the one before it. */
  predicate Improves(reports: seq<Report>) {
    forall k :: 0 <= k < |reports| - 2 ==> FailingCount(reports[k + 1]) < FailingCount(reports[k])
  }

  predicate StrictlyImproves(reports: seq<Report>) {
    forall k :: 0 <= k < |reports| - 1 ==> FailingCount(reports[k + 1]) < FailingCount(reports[k])
  }

  lemma {:induction false} ImprovementBounds(reports: seq<Report>)
    requires reports != [] && StrictlyImproves(reports)
    ensures FailingCount(reports[|reports| - 1]) + |reports| - 1 <= FailingCount(reports[0])
  {
    hide FailingCount;
    if |reports| > 1 {
      var front := reports[..|reports| - 1];
      ImprovementBounds(front);
      assert front[0] == reports[0] && front[|front| - 1] == reports[|reports| - 2];
      assert FailingCount(reports[|reports| - 2 + 1]) < FailingCount(reports[|reports| - 2]);
    }
  }

  ghost predicate IsReviewOf(s: Setting, out: Outcome) {
    && out.reports != [] && s.passes.accepts(out.sections)
    && s.review(|out.reports| - 1, out.sections) == Some(out.reports[|out.reports| - 1])
  }

  lemma FailingMeansNotAllPass(rep: Report)
    ensures AllPass(rep) <==> FailingCount(rep) == 0
  {
    FailingVerdicts(rep.verdicts);
  }

  lemma {:induction false} RoundsAreBounded(s: Setting, sections: seq<Section>, reports: seq<Report>)
    requires reports != [] && |reports| <= s.maxIters + 1 && StrictlyImproves(reports) &&
      IsReviewOf(s, Outcome(sections, reports))
    ensures var out := SharedFrom(s, sections, reports);
      out.Some? ==>
        && IsReviewOf(s, out.value) && Improves(out.value.reports)
        && reports <= out.value.reports
        && |out.value.reports| - 1 <= s.maxIters
        && |out.value.reports| - 1 <= FailingCount(reports[0])
    decreases s.maxIters - |reports|
  {
    hide ReviseFrom, AllPass, FailingCount, PassAll;
    ImprovementBounds(reports);
    var rep := reports[|reports| - 1];
    FailingMeansNotAllPass(rep);
    if Continues(s, reports) {
      var r := ReviseFrom(s, Revision(sections, false), rep.verdicts, 0, |reports| - 1);
      if r.Some? && r.value.any {
        var applied := PassAll(s.passes.f, r.value.sections);
        var rep' := s.Judge(|reports|, applied);
        if rep'.Some? {
          var more := reports + [rep'.value];
          assert more[|more| - 1] == rep'.value;
          assert more[0] == reports[0];
          assert forall k :: 0 <= k < |reports| ==> more[k] == reports[k];
          if FailingCount(rep'.value) < FailingCount(rep) {
            RoundsAreBounded(s, applied, more);
          }
        }
      }
    }
  }

  /**
   For any reviewer and reviser: at most `maxIters` rounds and at most as many as
   sections failed at first; each round but the last leaves fewer failures; and
   the report returned is the review of the very sections published.
   */
  lemma {:induction false} RunIsBoundedAndHonest(s: Setting, sections: seq<Section>)
    requires SharedRun(s, sections).Some?
    ensures
      var out := SharedRun(s, sections).value;
      && IsReviewOf(s, out) && Improves(out.reports)
      && |out.reports| - 1 <= FailingCount(out.reports[0])
      && |out.reports| - 1 <= (if s.maxIters <= 0 then 0 else s.maxIters)
      && s.Judge(0, PassAll(s.passes.f, sections)) == Some(out.reports[0])
  {
    hide SharedFrom, FailingCount, PassAll;
    var rep := s.Judge(0, PassAll(s.passes.f, sections)).value;
    if s.maxIters > 0 {
      RoundsAreBounded(s, PassAll(s.passes.f, sections), [rep]);
    }
  }

  /* ----- why a run stops, and what it revises ----- */

  /** The verdict calls for a revision: it failed, or could not be decided. */
  predicate Fails(v: Verdict) {
    !v.pass || v.inconclusive
  }

  /** The first section of the page with this title that is judged as prose. */
  lemma {:induction false} ProseSectionMeaning(sections: seq<DocSection>, title: string)
    ensures var r := ProseSection(sections, title);
      && (r.None? <==>
            forall i :: 0 <= i < |sections| ==>
              sections[i].title != title || sections[i].render != "" || sections[i].intent == "")
      && (r.Some? ==>
            exists i :: 0 <= i < |sections| && r.value == sections[i] && FirstProseOf(sections, title, i))
  {
    if sections != [] && !IsProseOf(sections[0], title) {
      ProseSectionMeaning(sections[1..], title);
      assert forall i :: 1 <= i < |sections| ==> sections[i] == sections[1..][i - 1];
    }
  }

  predicate FirstProseOf(sections: seq<DocSection>, title: string, i: nat)
    requires i < |sections|
  {
    IsProseOf(sections[i], title) && forall j :: 0 <= j < i ==> !IsProseOf(sections[j], title)
  }

  predicate IsProseOf(sec: DocSection, title: string) {
    sec.title == title && sec.render == "" && sec.intent != ""
  }

  /** The reviser's answer to verdict `k` of this round, if it is asked: it gets the verdict's reason and claims. */
  function Answer(s: Setting, verdicts: seq<Verdict>, k: nat, round: nat): Option<Section>
    requires k < |verdicts|
  {
    var v := verdicts[k];
    if !Fails(v) then None
    else
      match ProseSection(s.page.sections, v.section)
      case None => None
      case Some(sec) => s.revise(round, k, sec, Feedback(v.reason, v.ungroundedClaims))
  }

  /** Some section has this heading. */
  predicate HasHeading(sections: seq<Section>, heading: string) {
    exists i :: 0 <= i < |sections| && sections[i].heading == heading
  }

  lemma HeadingIndexFinds(sections: seq<Section>, heading: string)
    ensures HeadingIndex(sections, heading) < |sections| <==> HasHeading(sections, heading)
  {}

  /** Verdict `k` is answered by a section that has its place. */
  predicate Applies(s: Setting, sections: seq<Section>, verdicts: seq<Verdict>, k: nat, round: nat)
    requires k < |verdicts|
  {
    Answer(s, verdicts, k, round).Some? && HasHeading(sections, Answer(s, verdicts, k, round).value.heading)
  }

  lemma SplicedKeepsHeadings(sections: seq<Section>, sec: Section)
    ensures forall i :: 0 <= i < |sections| ==> Spliced(sections, sec)[i].heading == sections[i].heading
    ensures forall heading :: HasHeading(Spliced(sections, sec), heading) <==> HasHeading(sections, heading)
  {
    var t := Spliced(sections, sec);
    forall heading ensures HasHeading(t, heading) <==> HasHeading(sections, heading) {
      if i :| 0 <= i < |sections| && sections[i].heading == heading {
        assert t[i].heading == heading;
      }
      if i :| 0 <= i < |t| && t[i].heading == heading {
        assert sections[i].heading == heading;
      }
    }
  }

  /** What one verdict does. */
  lemma ReviseStep(s: Setting, r: Revision, verdicts: seq<Verdict>, k: nat, round: nat)
    requires k < |verdicts| && ReviseFrom(s, r, verdicts, k, round).Some?
    ensures var next := if Applies(s, r.sections, verdicts, k, round)
                        then Revision(Spliced(r.sections, Answer(s, verdicts, k, round).value), true) else r;
      ReviseFrom(s, r, verdicts, k, round) == ReviseFrom(s, next, verdicts, k + 1, round)
  {
    hide HeadingIndex, HasHeading;
    var a := Answer(s, verdicts, k, round);
    if a.Some? {
      HeadingIndexFinds(r.sections, a.value.heading);
    }
  }

  /**
   One round of revisions changes something exactly when some verdict that does not pass
   cleanly is answered by a section whose heading the document has; every heading stays,
   and every section is as it was or is such an answer.
   */
  lemma {:induction false} RevisionMeaning(s: Setting, r: Revision, verdicts: seq<Verdict>, k: nat, round: nat)
    requires k <= |verdicts| && ReviseFrom(s, r, verdicts, k, round).Some?
    ensures var out := ReviseFrom(s, r, verdicts, k, round).value;
      && |out.sections| == |r.sections|
      && (out.any <==> r.any || exists j :: k <= j < |verdicts| && Applies(s, r.sections, verdicts, j, round))
      && (forall i :: 0 <= i < |r.sections| ==> out.sections[i].heading == r.sections[i].heading)
      && (forall i :: 0 <= i < |r.sections| ==>
            out.sections[i] == r.sections[i] ||
            exists j :: k <= j < |verdicts| && Answer(s, verdicts, j, round) == Some(out.sections[i]))
    decreases |verdicts| - k
  {
    hide ReviseFrom, HasHeading, HeadingIndex, Answer, Spliced;
    if k == |verdicts| {
      NothingLeft(s, r, verdicts, round);
    } else {
      ReviseStep(s, r, verdicts, k, round);
      if Applies(s, r.sections, verdicts, k, round) {
        var a := Answer(s, verdicts, k, round).value;
        var next := Revision(Spliced(r.sections, a), true);
        SplicedKeepsHeadings(r.sections, a);
        SplicedSections(r.sections, a);
        RevisionMeaning(s, next, verdicts, k + 1, round);
      } else {
        RevisionMeaning(s, r, verdicts, k + 1, round);
      }
    }
  }

  lemma NothingLeft(s: Setting, r: Revision, verdicts: seq<Verdict>, round: nat)
    ensures ReviseFrom(s, r, verdicts, |verdicts|, round) == Some(r)
  {}

  lemma SplicedSections(sections: seq<Section>, sec: Section)
    ensures forall i :: 0 <= i < |sections| ==>
      Spliced(sections, sec)[i] == sections[i] || Spliced(sections, sec)[i] == sec
    ensures HasHeading(sections, sec.heading) ==>
      exists i :: 0 <= i < |sections| && Spliced(sections, sec)[i] == sec
           && forall j :: 0 <= j < i ==> sections[j].heading != sec.heading
  {
    HeadingIndexFinds(sections, sec.heading);
    var i := HeadingIndex(sections, sec.heading);
    assert i < |sections| ==> Spliced(sections, sec)[i] == sec;
  }

  /** No verdict of the report leads to a revision of these sections. */
  predicate NothingToRevise(s: Setting, sections: seq<Section>, rep: Report, round: nat) {
    forall k :: 0 <= k < |rep.verdicts| ==> !Applies(s, sections, rep.verdicts, k, round)
  }

  /** Why the run stopped. */
  predicate MayStop(s: Setting, out: Outcome)
    requires out.reports != []
  {
    var n := |out.reports|;
    var last := out.reports[n - 1];
    || n - 1 >= s.maxIters
    || (forall k :: 0 <= k < |last.verdicts| ==> !Fails(last.verdicts[k]))
    || NothingToRevise(s, out.sections, last, n - 1)
    || (n > 1 && FailingCount(last) >= FailingCount(out.reports[n - 2]))
  }

  lemma {:induction false} StopsForAReason(s: Setting, sections: seq<Section>, reports: seq<Report>)
    requires reports != [] && SharedFrom(s, sections, reports).Some?
    ensures SharedFrom(s, sections, reports).value.reports != [] && MayStop(s, SharedFrom(s, sections, reports).value)
    decreases s.maxIters - |reports|
  {
    hide ReviseFrom, FailingCount, PassAll, Setting.Judge, Applies, CountFailing;
    var rep := reports[|reports| - 1];
    if !Continues(s, reports) {
      CleanVerdicts(rep);
    } else {
      var r := ReviseFrom(s, Revision(sections, false), rep.verdicts, 0, |reports| - 1);
      RevisionMeaning(s, Revision(sections, false), rep.verdicts, 0, |reports| - 1);
      if r.value.any {
        var applied := PassAll(s.passes.f, r.value.sections);
        var rep' := s.Judge(|reports|, applied).value;
        if FailingCount(rep') < FailingCount(rep) {
          StopsForAReason(s, applied, reports + [rep']);
        }
      }
    }
  }

  lemma CleanVerdicts(rep: Report)
    ensures AllPass(rep) <==> forall k :: 0 <= k < |rep.verdicts| ==> !Fails(rep.verdicts[k])
  {
    forall k | 0 <= k < |rep.verdicts| ensures rep.verdicts[k] in rep.verdicts {}
  }

  /**
   A run goes on until its budget is spent, every verdict passes cleanly, no verdict leads
   to a revision, or a round brought no fewer failures.
   */
  lemma {:induction false} RunStopsForAReason(s: Setting, sections: seq<Section>)
    requires SharedRun(s, sections).Some?
    ensures SharedRun(s, sections).value.reports != [] && MayStop(s, SharedRun(s, sections).value)
  {
    hide SharedFrom, PassAll, Setting.Judge, MayStop;
    var rep := s.Judge(0, PassAll(s.passes.f, sections)).value;
    if s.maxIters > 0 {
      StopsForAReason(s, PassAll(s.passes.f, sections), [rep]);
    } else {
      NoBudget(s, Outcome(PassAll(s.passes.f, sections), [rep]));
    }
  }

  lemma NoBudget(s: Setting, out: Outcome)
    requires s.maxIters <= 0 && out.reports != []
    ensures MayStop(s, out)
  {}
}
