/** Skipping specs whose included areas did not change: `git.go` and `diffDrivenSkip`. */
module DiffSkip {
  import opened Wrappers
  import opened Wiki
  import opened Reconciler
  import opened Orchestrator

  /* ----- which areas a patch touches (git.go) ----- */

  /** The files of a commit: path to content. */
  type Tree = map<string, string>

  /** The paths on both sides of one file patch; `None` when the file is new or gone. */
  datatype FilePatch = FilePatch(from: Option<string>, to: Option<string>)

  function SlashIndex(s: string): (n: nat)
    ensures n <= |s|
    ensures forall i :: 0 <= i < n ==> s[i] != '/'
    ensures n < |s| ==> s[n] == '/'
  {
    if s == "" || s[0] == '/' then 0 else 1 + SlashIndex(s[1..])
  }

  /** The directory below `areas/`, or `""`. */
  function AreaIDForPath(p: string): string {
    if !("areas/" <= p) then ""
    else
      var rest := p[6..];
      var slash := SlashIndex(rest);
      if slash == |rest| || slash == 0 then "" else rest[..slash]
  }

  lemma SlashIndexIs(id: string, rest: string)
    requires '/' !in id
    ensures SlashIndex(id + ("/" + rest)) == |id|
  {
    var s := id + ("/" + rest);
    var n := SlashIndex(s);
    assert s[|id|] == '/';
    assert forall i :: 0 <= i < |id| ==> s[i] == id[i] && id[i] in id;
  }

  /** The path is that of a file or directory below the directory of the area. */
  ghost predicate LiesBelow(p: string, area: string) {
    area != "" && '/' !in area && exists rest :: p == "areas/" + (area + ("/" + rest))
  }

  /** A path belongs to an area exactly when it lies below that area's directory; any other path belongs to none. */
  lemma {:induction false} AreaOfPathIff(p: string, area: string)
    ensures LiesBelow(p, area) <==> area != "" && AreaIDForPath(p) == area
  {
    if area != "" && AreaIDForPath(p) == area {
      var rest := p[6..];
      var n := SlashIndex(rest);
      assert p == "areas/" + rest;
      assert rest == area + ("/" + rest[n + 1..]);
    }
    if LiesBelow(p, area) {
      var rest :| p == "areas/" + (area + ("/" + rest));
      SlashIndexIs(area, rest);
      assert p[6..] == area + ("/" + rest);
      assert (area + ("/" + rest))[..|area|] == area;
    }
  }

  /** One side of a patch is a path below the area's directory. */
  ghost predicate Names(side: Option<string>, area: string) {
    side.Some? && LiesBelow(side.value, area)
  }

  /** The old or the new path of some patch lies below the area's directory. */
  ghost predicate Touches(patches: seq<FilePatch>, area: string) {
    exists i :: 0 <= i < |patches| && (Names(patches[i].from, area) || Names(patches[i].to, area))
  }

  /** An area is collected exactly when some patch touches it. */
  method ChangedAreas(patches: seq<FilePatch>) returns (seen: set<string>)
    ensures forall area :: area in seen <==> Touches(patches, area)
  {
    hide AreaIDForPath, LiesBelow;
    seen := {};
    for i := 0 to |patches|
      invariant forall area :: area in seen <==> Touches(patches[..i], area)
    {
      var from, to := patches[i].from, patches[i].to;
      var paths: seq<string> := [];
      if from.Some? {
        paths := paths + [from.value];
      }
      if to.Some? {
        paths := paths + [to.value];
      }
      ghost var before := seen;
      for j := 0 to |paths|
        invariant forall area :: area in seen <==> area in before || SomeBelow(paths[..j], area)
      {
        OneMorePath(paths, j);
        var a := AreaIDForPath(paths[j]);
        if a != "" {
          seen := seen + {a};
        }
      }
      assert paths[..|paths|] == paths;
      forall area ensures Touches(patches[..i + 1], area) <==> Touches(patches[..i], area) || SomeBelow(paths, area) {
        TouchesOneMore(patches, i, area);
        SidesAsPaths(from, to, paths, area);
      }
    }
    assert patches[..|patches|] == patches;
  }

  ghost predicate SomeBelow(paths: seq<string>, area: string) {
    exists l :: 0 <= l < |paths| && LiesBelow(paths[l], area)
  }

  lemma OneMorePath(paths: seq<string>, j: nat)
    requires j < |paths|
    ensures forall area :: SomeBelow(paths[..j + 1], area) <==>
      SomeBelow(paths[..j], area) || (area != "" && AreaIDForPath(paths[j]) == area)
  {
    hide AreaIDForPath, LiesBelow;
    assert paths[..j + 1] == paths[..j] + [paths[j]];
    forall area
      ensures SomeBelow(paths[..j + 1], area) <==>
        SomeBelow(paths[..j], area) || (area != "" && AreaIDForPath(paths[j]) == area)
    {
      AreaOfPathIff(paths[j], area);
      if l :| 0 <= l < j && LiesBelow(paths[..j][l], area) {
        assert paths[..j + 1][l] == paths[..j][l];
      }
      assert paths[..j + 1][j] == paths[j];
    }
  }

  lemma SidesAsPaths(from: Option<string>, to: Option<string>, paths: seq<string>, area: string)
    requires paths == (if from.Some? then [from.value] else []) + (if to.Some? then [to.value] else [])
    ensures SomeBelow(paths, area) <==> Names(from, area) || Names(to, area)
  {
    hide LiesBelow;
    if Names(from, area) {
      assert paths[0] == from.value;
    }
    if Names(to, area) {
      assert paths[|paths| - 1] == to.value;
    }
  }

  lemma TouchesOneMore(patches: seq<FilePatch>, i: nat, area: string)
    requires i < |patches|
    ensures Touches(patches[..i + 1], area) <==>
      Touches(patches[..i], area) || Names(patches[i].from, area) || Names(patches[i].to, area)
  {
    hide Names;
    var a, b := patches[..i + 1], patches[..i];
    assert forall k :: 0 <= k < i ==> a[k] == b[k];
    assert a[i] == patches[i];
  }

  /** The files of an area. */
  function AreaFiles(tree: Tree, area: string): Tree {
    map p | p in tree && area != "" && AreaIDForPath(p) == area :: tree[p]
  }

  function FileAt(tree: Tree, p: string): Option<string> {
    if p in tree then Some(tree[p]) else None
  }

  /** The files of an area are those below its directory. */
  lemma {:induction false} AreaFilesMeaning(tree: Tree, area: string, p: string)
    ensures FileAt(AreaFiles(tree, area), p) == if LiesBelow(p, area) then FileAt(tree, p) else None
  {
    hide AreaIDForPath, LiesBelow;
    AreaOfPathIff(p, area);
  }

  /** Every file that differs is the old or the new file of some patch. */
  ghost predicate CompletePatch(patches: seq<FilePatch>, old': Tree, new': Tree) {
    forall p :: FileAt(old', p) != FileAt(new', p) ==>
      exists i :: 0 <= i < |patches| && (patches[i].from == Some(p) || patches[i].to == Some(p))
  }

  /** The patch of a changed, an added or a deleted file. */
  function PatchOf(old': Tree, new': Tree, p: string): FilePatch {
    FilePatch(if p in old' then Some(p) else None, if p in new' then Some(p) else None)
  }

  /** One patch for every file that differs makes a complete patch. */
  lemma {:induction false} OnePatchPerFileIsComplete(patches: seq<FilePatch>, old': Tree, new': Tree)
    requires forall p :: FileAt(old', p) != FileAt(new', p) ==> PatchOf(old', new', p) in patches
    ensures CompletePatch(patches, old', new')
  {
    forall p | FileAt(old', p) != FileAt(new', p)
      ensures exists i :: 0 <= i < |patches| && (patches[i].from == Some(p) || patches[i].to == Some(p))
    {
      var i :| 0 <= i < |patches| && patches[i] == PatchOf(old', new', p);
    }
  }

  /** With a complete patch, an area that is not reported has the same files in both commits. */
  lemma {:induction false} UnreportedAreasAreEqual(patches: seq<FilePatch>, old': Tree, new': Tree, area: string)
    requires CompletePatch(patches, old', new') && !Touches(patches, area)
    ensures AreaFiles(old', area) == AreaFiles(new', area)
  {
    hide AreaIDForPath, LiesBelow;
    forall p | area != "" && AreaIDForPath(p) == area
      ensures FileAt(old', p) == FileAt(new', p)
    {
      AreaOfPathIff(p, area);
      if FileAt(old', p) != FileAt(new', p) {
        assert false;
      }
    }
    var a, b := AreaFiles(old', area), AreaFiles(new', area);
    assert forall p :: p in a ==> FileAt(old', p) == FileAt(new', p);
    assert forall p :: p in b ==> FileAt(old', p) == FileAt(new', p);
    assert a.Keys == b.Keys;
  }

  /* ----- the decision (orchestrator.go) ----- */

  /** What `DiffSince` answers. */
  datatype Diff = Changed(areas: seq<string>) | NotSupported | Failed

  predicate Meets(a: seq<string>, b: seq<string>) {
    exists x <- a :: x in b
  }

  method Intersects(a: seq<string>, b: seq<string>) returns (r: bool)
    ensures r == Meets(a, b)
  {
    if |a| == 0 || |b| == 0 {
      return false;
    }
    var members: set<string> := {};
    for i := 0 to |a|
      invariant forall x :: x in members <==> x in a[..i]
    {
      members := members + {a[i]};
      assert a[..i + 1] == a[..i] + [a[i]];
    }
    assert a[..|a|] == a;
    for j := 0 to |b|
      invariant forall k :: 0 <= k < j ==> b[k] !in a
    {
      if b[j] in members {
        return true;
      }
    }
    return false;
  }

  /** Whether the spec is skipped; `diff` is the answer for the commit of its last render. */
  predicate Skips(runState: RunState, specID: string, includeAreas: seq<string>, snapCommit: string, diff: Diff) {
    && specID in runState
    && runState[specID].lastKBCommit != ""
    && (runState[specID].lastKBCommit == snapCommit || (diff.Changed? && !Meets(includeAreas, diff.areas)))
  }

  /** The patches name the files that differ, and no others. */
  ghost predicate ExactPatch(patches: seq<FilePatch>, old': Tree, new': Tree) {
    && CompletePatch(patches, old', new')
    && forall i, p :: 0 <= i < |patches| && (patches[i].from == Some(p) || patches[i].to == Some(p)) ==>
         FileAt(old', p) != FileAt(new', p)
  }

  /** One patch for every file that differs, and no other, is exact. */
  lemma {:induction false} OnePatchPerFileIsExact(patches: seq<FilePatch>, old': Tree, new': Tree)
    requires forall p :: FileAt(old', p) != FileAt(new', p) ==> PatchOf(old', new', p) in patches
    requires forall i :: 0 <= i < |patches| ==>
      exists p :: FileAt(old', p) != FileAt(new', p) && patches[i] == PatchOf(old', new', p)
    ensures ExactPatch(patches, old', new')
  {
    OnePatchPerFileIsComplete(patches, old', new');
  }

  /**
   A spec that has been rendered is skipped exactly when the recorded commit is current,
   or no file below the directory of an included area has been changed, added or deleted.
   */
  lemma {:induction false} SkipsIff(
      runState: RunState, specID: string, includeAreas: seq<string>, snapCommit: string, areas: seq<string>,
      patches: seq<FilePatch>, old': Tree, new': Tree)
    requires specID in runState && runState[specID].lastKBCommit != ""
    requires ExactPatch(patches, old', new') && forall area :: area in areas <==> Touches(patches, area)
    ensures Skips(runState, specID, includeAreas, snapCommit, Changed(areas)) <==>
      || runState[specID].lastKBCommit == snapCommit
      || forall area, p :: area in includeAreas && LiesBelow(p, area) ==> FileAt(old', p) == FileAt(new', p)
  {
    hide LiesBelow, FileAt;
    forall area ensures Touches(patches, area) <==>
      exists p :: LiesBelow(p, area) && FileAt(old', p) != FileAt(new', p)
    {
      TouchedIff(patches, old', new', area);
    }
    if x :| x in includeAreas && x in areas {
      assert Touches(patches, x);
    }
  }

  lemma TouchedIff(patches: seq<FilePatch>, old': Tree, new': Tree, area: string)
    requires ExactPatch(patches, old', new')
    ensures Touches(patches, area) <==> exists p :: LiesBelow(p, area) && FileAt(old', p) != FileAt(new', p)
  {
    hide LiesBelow, FileAt;
    if Touches(patches, area) {
      var i :| 0 <= i < |patches| && (Names(patches[i].from, area) || Names(patches[i].to, area));
      var p := if Names(patches[i].from, area) then patches[i].from.value else patches[i].to.value;
      assert LiesBelow(p, area) && FileAt(old', p) != FileAt(new', p);
    }
    if p :| LiesBelow(p, area) && FileAt(old', p) != FileAt(new', p) {
      var i :| 0 <= i < |patches| && (patches[i].from == Some(p) || patches[i].to == Some(p));
      assert Names(patches[i].from, area) || Names(patches[i].to, area);
    }
  }

  method DiffDrivenSkip(runState: RunState, specID: string, includeAreas: seq<string>, snapCommit: string, diff: Diff)
    returns (skip: bool)
    ensures skip == Skips(runState, specID, includeAreas, snapCommit, diff)
  {
    if specID !in runState || runState[specID].lastKBCommit == "" {
      return false;
    }
    if runState[specID].lastKBCommit == snapCommit {
      return true;
    }
    match diff {
      case NotSupported => return false;
      case Failed => return false;
      case Changed(changed) =>
        var touched := Intersects(includeAreas, changed);
        return !touched;
    }
  }

  /* ----- incremental runs agree with full ones ----- */

  /** One version of a spec: where it goes, which areas its renderer may read, and all else the renderer is told. */
  datatype Spec = Spec(page: string, includeAreas: seq<string>, text: string)

  /**
   The files of every commit, and the renderer: it takes a version of a spec, the commit
   stamp and the files of the included areas, in order, and nothing else.
   */
  datatype Engine = Engine(identity: string, files: string -> Tree, render: (Spec, string, seq<Tree>) -> string)

  function Included(tree: Tree, includeAreas: seq<string>): (r: seq<Tree>)
    ensures |r| == |includeAreas|
    ensures forall k :: 0 <= k < |r| ==> r[k] == AreaFiles(tree, includeAreas[k])
  {
    seq(|includeAreas|, k requires 0 <= k < |includeAreas| => AreaFiles(tree, includeAreas[k]))
  }

  /** What a full run at `commit` would render, stamped with `stamp`. */
  function FullRender(e: Engine, spec: Spec, commit: string, stamp: string): string {
    e.render(spec, stamp, Included(e.files(commit), spec.includeAreas))
  }

  /**
   One spec's turn in a run at `commit`, with the version of the spec at that time.
   `unread` says that the skip cannot read the run state, `fails` that the rendering
   fails, `wiki` and `store` which calls of the push do.
   */
  datatype Turn = Turn(
    specID: string, spec: Spec, commit: string, diff: Diff, unread: bool, fails: bool, id: string,
    wiki: WikiFaults, store: StoreFaults)

  /** A reconciled page, and what it was rendered from. */
  datatype Made = Made(spec: Spec, commit: string, text: string)

  /** The world, and for each spec the last page that was reconciled for it. */
  datatype History = History(world: World, reconciled: map<string, Made>)

  predicate SkipsTurn(h: History, t: Turn) {
    !t.unread && Skips(h.world.runState, t.specID, t.spec.includeAreas, t.commit, t.diff)
  }

  /** The turn is not skipped, and ends with an error. */
  predicate FailsTurn(e: Engine, h: History, t: Turn)
    requires Aligned(h.world.pages)
  {
    && !SkipsTurn(h, t)
    && (t.fails ||
        Aborts(Seen(h.world, t.specID, t.store), t.specID, t.spec.page, FullRender(e, t.spec, t.commit, t.commit),
          t.wiki))
  }

  function TakeTurn(e: Engine, h: History, t: Turn): (r: History)
    requires Aligned(h.world.pages)
    ensures Aligned(r.world.pages)
  {
    if SkipsTurn(h, t) || FailsTurn(e, h, t) then h
    else
      var rendered := FullRender(e, t.spec, t.commit, t.commit);
      History(
        PushedUnder(h.world, e.identity, t.specID, t.spec.page, rendered, t.commit, t.id, t.wiki, t.store),
        h.reconciled[t.specID := Made(t.spec, t.commit, rendered)])
  }

  /** The diff for the commit of the last render names every area whose files differ. */
  ghost predicate CompleteDiff(e: Engine, h: History, t: Turn) {
    t.diff.Changed? && t.specID in h.world.runState ==>
      var last := h.world.runState[t.specID].lastKBCommit;
      forall area :: AreaFiles(e.files(last), area) != AreaFiles(e.files(t.commit), area) ==> area in t.diff.areas
  }

  /** What `DiffSince` collects from a complete patch is a complete diff. */
  lemma {:induction false} CollectedDiffIsComplete(e: Engine, h: History, t: Turn, patches: seq<FilePatch>)
    requires t.diff.Changed? && forall area :: Touches(patches, area) ==> area in t.diff.areas
    requires t.specID in h.world.runState ==>
      CompletePatch(patches, e.files(h.world.runState[t.specID].lastKBCommit), e.files(t.commit))
    ensures CompleteDiff(e, h, t)
  {
    hide AreaFiles, Touches, CompletePatch;
    if t.specID in h.world.runState {
      var old', new' := e.files(h.world.runState[t.specID].lastKBCommit), e.files(t.commit);
      forall area | AreaFiles(old', area) != AreaFiles(new', area) ensures area in t.diff.areas {
        if !Touches(patches, area) {
          UnreportedAreasAreEqual(patches, old', new', area);
        }
      }
    }
  }

  function AfterTurns(e: Engine, h: History, turns: seq<Turn>): (r: History)
    requires Aligned(h.world.pages)
    ensures Aligned(r.world.pages)
  {
    if turns == [] then h
    else TakeTurn(e, AfterTurns(e, h, turns[..|turns| - 1]), turns[|turns| - 1])
  }

  ghost predicate CompleteDiffs(e: Engine, h: History, turns: seq<Turn>)
    requires Aligned(h.world.pages)
  {
    turns == [] ||
    var front, t := turns[..|turns| - 1], turns[|turns| - 1];
    CompleteDiffs(e, h, front) && CompleteDiff(e, AfterTurns(e, h, front), t)
  }

  /* ----- what a run leaves behind ----- */

  /** Every page was rendered in full from what it is said to be rendered from; only rendered specs have a run state. */
  ghost predicate Honest(e: Engine, h: History) {
    && (forall s <- h.reconciled ::
          h.reconciled[s].text == FullRender(e, h.reconciled[s].spec, h.reconciled[s].commit, h.reconciled[s].commit))
    && (forall s <- h.world.runState :: s in h.reconciled)
  }

  /** A push sets the commit of its spec, unless the write is lost, and no other. */
  lemma PushedCommit(
      w: World, identity: string, specID: string, page: string, rendered: string, commit: string, id: string,
      wiki: WikiFaults, store: StoreFaults)
    requires Aligned(w.pages) && !Aborts(Seen(w, specID, store), specID, page, rendered, wiki)
    ensures var rs := PushedUnder(w, identity, specID, page, rendered, commit, id, wiki, store).runState;
      && (!store.write ==> specID in rs && rs[specID].lastKBCommit == commit)
      && (store.write ==> rs == w.runState)
      && forall s :: s != specID ==> (s in rs <==> s in w.runState) && (s in rs ==> rs[s] == w.runState[s])
  {
    hide DecisionOf, Aborts;
  }

  /** What a turn that is neither skipped nor fails does to the run state and to the reconciled pages. */
  lemma TurnRenders(e: Engine, h: History, t: Turn)
    requires Aligned(h.world.pages) && !SkipsTurn(h, t) && !FailsTurn(e, h, t)
    ensures var h', rs := TakeTurn(e, h, t), h.world.runState;
      && h'.reconciled == h.reconciled[t.specID := Made(t.spec, t.commit, FullRender(e, t.spec, t.commit, t.commit))]
      && (t.store.write ==> h'.world.runState == rs)
      && (!t.store.write ==>
            t.specID in h'.world.runState && h'.world.runState[t.specID].lastKBCommit == t.commit)
      && forall s :: s != t.specID ==>
           (s in h'.world.runState <==> s in rs) && (s in rs ==> h'.world.runState[s] == rs[s])
  {
    hide FullRender, SkipsTurn, PushedUnder, Aborts;
    PushedCommit(h.world, e.identity, t.specID, t.spec.page, FullRender(e, t.spec, t.commit, t.commit),
                 t.commit, t.id, t.wiki, t.store);
  }

  lemma TurnIsHonest(e: Engine, h: History, t: Turn)
    requires Aligned(h.world.pages) && Honest(e, h)
    ensures Honest(e, TakeTurn(e, h, t))
  {
    hide FullRender, SkipsTurn, FailsTurn;
    if !SkipsTurn(h, t) && !FailsTurn(e, h, t) {
      TurnRenders(e, h, t);
      hide TakeTurn;
    }
  }

  lemma {:induction false} AlwaysHonest(e: Engine, h: History, turns: seq<Turn>)
    requires Aligned(h.world.pages) && Honest(e, h)
    ensures Honest(e, AfterTurns(e, h, turns))
  {
    hide Honest, TakeTurn;
    if turns != [] {
      AlwaysHonest(e, h, turns[..|turns| - 1]);
      TurnIsHonest(e, AfterTurns(e, h, turns[..|turns| - 1]), turns[|turns| - 1]);
    }
  }

  /** An empty run state is honest. */
  lemma {:induction false} FreshRunStateIsHonest(e: Engine, pages: Pages)
    ensures Honest(e, History(World(pages, map[]), map[]))
  {}

  /** A spec is only skipped when its areas have the same files at the recorded commit and now. */
  lemma SkippedSeesNoChange(e: Engine, h: History, t: Turn)
    requires SkipsTurn(h, t) && CompleteDiff(e, h, t)
    ensures t.specID in h.world.runState
    ensures var last := h.world.runState[t.specID].lastKBCommit;
      Included(e.files(last), t.spec.includeAreas) == Included(e.files(t.commit), t.spec.includeAreas)
  {
    hide AreaFiles;
    var includeAreas := t.spec.includeAreas;
    var last := h.world.runState[t.specID].lastKBCommit;
    var a, b := Included(e.files(last), includeAreas), Included(e.files(t.commit), includeAreas);
    if last != t.commit {
      forall k | 0 <= k < |includeAreas| ensures a[k] == b[k] {
        assert includeAreas[k] in includeAreas;
      }
    }
    assert a == b;
  }

  /** The last page reconciled for the spec is the full render of this version at `commit`, but for its stamp. */
  predicate UpToDate(e: Engine, h: History, specID: string, spec: Spec, commit: string) {
    specID in h.reconciled && h.reconciled[specID].text == FullRender(e, spec, commit, h.reconciled[specID].commit)
  }

  /** The version of the turn renders, at the commit that the run state records, what was reconciled last. */
  predicate StillFits(e: Engine, h: History, t: Turn) {
    t.specID in h.world.runState && UpToDate(e, h, t.specID, t.spec, h.world.runState[t.specID].lastKBCommit)
  }

  /**
   After a turn that does not fail, the page reconciled last is what a full run would
   render, if and only if the turn was not skipped or its version of the spec still
   fits the recorded commit.
   */
  lemma {:induction false} TurnAgreesWithFullIff(e: Engine, h: History, t: Turn)
    requires Aligned(h.world.pages) && Honest(e, h) && CompleteDiff(e, h, t) && !FailsTurn(e, h, t)
    ensures UpToDate(e, TakeTurn(e, h, t), t.specID, t.spec, t.commit) <==> !SkipsTurn(h, t) || StillFits(e, h, t)
  {
    hide AreaFiles, CompleteDiff, Skips, Aborts, PushedUnder;
    if SkipsTurn(h, t) {
      SkippedSeesNoChange(e, h, t);
    } else {
      TurnRenders(e, h, t);
    }
  }

  lemma {:induction false} CompletePrefix(e: Engine, h: History, turns: seq<Turn>, i: nat)
    requires Aligned(h.world.pages) && CompleteDiffs(e, h, turns) && i <= |turns|
    ensures CompleteDiffs(e, h, turns[..i])
    decreases |turns|
  {
    hide CompleteDiff;
    if i < |turns| {
      var front := turns[..|turns| - 1];
      CompletePrefix(e, h, front, i);
      assert front[..i] == turns[..i];
    } else {
      assert turns[..i] == turns;
    }
  }

  /** What the history holds of one spec. */
  ghost predicate SameFor(a: History, b: History, s: string) {
    && (s in a.reconciled <==> s in b.reconciled) && (s in a.reconciled ==> a.reconciled[s] == b.reconciled[s])
    && (s in a.world.runState <==> s in b.world.runState)
    && (s in a.world.runState ==> a.world.runState[s] == b.world.runState[s])
  }

  /** The turn of one spec leaves every other alone. */
  lemma TurnOfAnother(e: Engine, h: History, t: Turn, s: string)
    requires Aligned(h.world.pages) && t.specID != s
    ensures SameFor(TakeTurn(e, h, t), h, s)
  {
    hide FullRender, SkipsTurn, FailsTurn;
    if !SkipsTurn(h, t) && !FailsTurn(e, h, t) {
      TurnRenders(e, h, t);
      hide TakeTurn;
    }
  }

  lemma {:induction false} TurnsOfOthers(e: Engine, h: History, turns: seq<Turn>, i: nat, s: string)
    requires Aligned(h.world.pages) && i <= |turns|
    requires forall j :: i <= j < |turns| ==> turns[j].specID != s
    ensures SameFor(AfterTurns(e, h, turns), AfterTurns(e, h, turns[..i]), s)
    decreases |turns|
  {
    hide TakeTurn;
    if i < |turns| {
      var front := turns[..|turns| - 1];
      TurnsOfOthers(e, h, front, i, s);
      assert front[..i] == turns[..i];
      TurnOfAnother(e, AfterTurns(e, h, front), turns[|turns| - 1], s);
    } else {
      assert turns[..i] == turns;
    }
  }

  /** The turns from `n` on are one run at `commit`: no spec has two of them. */
  ghost predicate IsRun(turns: seq<Turn>, n: nat, commit: string) {
    && n <= |turns|
    && (forall k :: n <= k < |turns| ==> turns[k].commit == commit)
    && (forall i, j :: n <= i < j < |turns| ==> turns[i].specID != turns[j].specID)
  }

  /**
   After every run, whatever happened before it (other commits, reverts, edits of
   specs, failures, lost state writes, repeated skips): for each spec that did not
   fail, the page reconciled last is what a full run at the run's commit renders from
   the spec as it then was, but for the commit it is stamped with, if and only if the
   spec was not skipped or its version still fitted the recorded commit.
   */
  lemma {:induction false} IncrementalAgreesWithFullIff(
      e: Engine, h: History, turns: seq<Turn>, n: nat, commit: string, k: nat)
    requires Aligned(h.world.pages) && Honest(e, h) && CompleteDiffs(e, h, turns)
    requires IsRun(turns, n, commit) && n <= k < |turns|
    requires !FailsTurn(e, AfterTurns(e, h, turns[..k]), turns[k])
    ensures var t, before := turns[k], AfterTurns(e, h, turns[..k]);
      UpToDate(e, AfterTurns(e, h, turns), t.specID, t.spec, commit) <==>
        !SkipsTurn(before, t) || StillFits(e, before, t)
  {
    hide Honest, SkipsTurn, FailsTurn, FullRender, CompleteDiff, TakeTurn;
    var front := turns[..k + 1];
    CompletePrefix(e, h, turns, k + 1);
    assert front[..k] == turns[..k] && front[k] == turns[k];
    AlwaysHonest(e, h, turns[..k]);
    TurnAgreesWithFullIff(e, AfterTurns(e, h, turns[..k]), turns[k]);
    TurnsOfOthers(e, h, turns, k + 1, turns[k].specID);
  }

  /* ----- unchanged specs ----- */

  /** Every turn of `s` is for this version of it, and loses no state write. */
  predicate Steady(turns: seq<Turn>, s: string, spec: Spec) {
    forall k :: 0 <= k < |turns| && turns[k].specID == s ==> turns[k].spec == spec && !turns[k].store.write
  }

  /** What is reconciled for `s` comes from this version of it, at the recorded commit. */
  predicate Synced(h: History, s: string, spec: Spec) {
    s in h.world.runState ==>
      && s in h.reconciled
      && h.reconciled[s].spec == spec && h.reconciled[s].commit == h.world.runState[s].lastKBCommit
  }

  lemma {:induction false} StaysSynced(e: Engine, h: History, turns: seq<Turn>, s: string, spec: Spec)
    requires Aligned(h.world.pages) && Steady(turns, s, spec) && Synced(h, s, spec)
    ensures Synced(AfterTurns(e, h, turns), s, spec)
    decreases |turns|
  {
    hide TakeTurn, SkipsTurn, FailsTurn;
    if turns != [] {
      var front, t := turns[..|turns| - 1], turns[|turns| - 1];
      StaysSynced(e, h, front, s, spec);
      var v := AfterTurns(e, h, front);
      if t.specID != s {
        TurnOfAnother(e, v, t, s);
      } else if SkipsTurn(v, t) || FailsTurn(e, v, t) {
        IdleTurn(e, v, t);
      } else {
        TurnRenders(e, v, t);
      }
    }
  }

  lemma IdleTurn(e: Engine, h: History, t: Turn)
    requires Aligned(h.world.pages) && (SkipsTurn(h, t) || FailsTurn(e, h, t))
    ensures TakeTurn(e, h, t) == h
  {}

  /**
   A spec that is never edited, and whose state writes are kept, is up to date after every run in
   which it does not fail.
   */
  lemma {:induction false} IncrementalAgreesWithFull(
      e: Engine, h: History, turns: seq<Turn>, n: nat, commit: string, k: nat)
    requires Aligned(h.world.pages) && Honest(e, h) && CompleteDiffs(e, h, turns)
    requires IsRun(turns, n, commit) && n <= k < |turns|
    requires !FailsTurn(e, AfterTurns(e, h, turns[..k]), turns[k])
    requires Steady(turns, turns[k].specID, turns[k].spec) && Synced(h, turns[k].specID, turns[k].spec)
    ensures UpToDate(e, AfterTurns(e, h, turns), turns[k].specID, turns[k].spec, commit)
  {
    hide AfterTurns, CompleteDiffs, FailsTurn, SkipsTurn, FullRender, IsRun, Honest, StillFits, Synced;
    IncrementalAgreesWithFullIff(e, h, turns, n, commit, k);
    StaysSynced(e, h, turns[..k], turns[k].specID, turns[k].spec);
    AlwaysHonest(e, h, turns[..k]);
    if SkipsTurn(AfterTurns(e, h, turns[..k]), turns[k]) {
      SyncedFits(e, AfterTurns(e, h, turns[..k]), turns[k]);
    }
  }

  lemma SyncedFits(e: Engine, h: History, t: Turn)
    requires Honest(e, h) && Synced(h, t.specID, t.spec) && SkipsTurn(h, t)
    ensures StillFits(e, h, t)
  {
    hide FullRender;
  }

  /**
   Without that it may not be: when the state write of a render at another commit is
   lost and the knowledge base then goes back to the recorded commit, the turn is
   skipped, and the page stays with the render of the other commit.
   */
  lemma {:induction false} LostWriteHidesRevert(e: Engine, h: History, there: Turn, back: Turn)
    requires Aligned(h.world.pages) && there.specID == back.specID && there.spec == back.spec
    requires there.specID in h.world.runState && h.world.runState[there.specID].lastKBCommit == back.commit != ""
    requires !SkipsTurn(h, there) && !FailsTurn(e, h, there) && there.store.write && !back.unread
    ensures var v := TakeTurn(e, h, there);
      && SkipsTurn(v, back)
      && (UpToDate(e, TakeTurn(e, v, back), back.specID, back.spec, back.commit) <==>
            FullRender(e, back.spec, there.commit, there.commit) == FullRender(e, back.spec, back.commit, there.commit))
  {
    hide FailsTurn, FullRender;
    TurnRenders(e, h, there);
    IdleTurn(e, TakeTurn(e, h, there), back);
  }
}
