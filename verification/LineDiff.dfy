/** `unifiedish` of `curatorapi.go`: a line diff by longest common subsequence. */
module LineDiff {
  import Text


  /* ----- lines ----- */

  /** The lines of a text; a final newline ends a line and starts no other. */
  function Lines(s: string): seq<string> {
    if s == "" then []
    else
      var n := LineEnd(s);
      if n == |s| then [s] else [s[..n]] + Lines(s[n + 1..])
  }

  /** The position of the first newline, or the length of the text. */
  function LineEnd(s: string): (n: nat)
    ensures n <= |s|
    ensures '\n' !in s[..n]
    ensures n < |s| ==> s[n] == '\n'
  {
    if s == "" || s[0] == '\n' then 0 else 1 + LineEnd(s[1..])
  }

  lemma LineEndIs(s: string, n: nat)
    requires n <= |s| && '\n' !in s[..n] && (n < |s| ==> s[n] == '\n')
    ensures LineEnd(s) == n
  {
    if n > 0 {
      assert s[0] == s[..n][0] && s[1..][..n - 1] == s[..n][1..];
      LineEndIs(s[1..], n - 1);
    }
  }

  method SplitLines(s: string) returns (out: seq<string>)
    ensures out == Lines(s)
  {
    hide Lines;
    out := [];
    if s == "" {
      NoLines();
      return;
    }
    var start := 0;
    assert s[0..] == s;
    for i := 0 to |s|
      invariant 0 <= start <= i
      invariant '\n' !in s[start..i]
      invariant Lines(s) == out + Lines(s[start..])
    {
      if s[i] == '\n' {
        LineSplitOff(s, start, i, out);
        out := out + [s[start..i]];
        start := i + 1;
      }
    }
    LastLine(s[start..]);
    if start < |s| {
      out := out + [s[start..]];
    }
  }

  lemma NoLines()
    ensures Lines("") == []
  {}

  lemma LineSplitOff(s: string, start: nat, i: nat, out: seq<string>)
    requires start <= i < |s| && '\n' !in s[start..i] && s[i] == '\n'
    ensures out + Lines(s[start..]) == out + [s[start..i]] + Lines(s[i + 1..])
  {
    var t := s[start..];
    assert t[..i - start] == s[start..i] && t[i - start + 1..] == s[i + 1..];
    LineEndIs(t, i - start);
    assert out + ([s[start..i]] + Lines(s[i + 1..])) == out + [s[start..i]] + Lines(s[i + 1..]);
  }

  lemma LastLine(s: string)
    requires '\n' !in s
    ensures Lines(s) == if s == "" then [] else [s]
  {
    assert s[..|s|] == s;
    LineEndIs(s, |s|);
  }

  predicate NoNewlines(lines: seq<string>) {
    forall l <- lines :: '\n' !in l
  }

  lemma {:induction false} LinesHaveNoNewline(s: string)
    ensures NoNewlines(Lines(s))
    decreases |s|
  {
    if s != "" && LineEnd(s) < |s| {
      LinesHaveNoNewline(s[LineEnd(s) + 1..]);
    } else if s != "" {
      assert s[..LineEnd(s)] == s;
    }
  }

  /* ----- longest common subsequences ----- */

  predicate Subsequence(c: seq<string>, a: seq<string>) {
    c == [] ||
    (a != [] && ((c[0] == a[0] && Subsequence(c[1..], a[1..])) || Subsequence(c, a[1..])))
  }

  function Lcs(a: seq<string>, b: seq<string>): nat
    decreases |a| + |b|
  {
    if a == [] || b == [] then 0
    else if a[0] == b[0] then Lcs(a[1..], b[1..]) + 1
    else if Lcs(a[1..], b) >= Lcs(a, b[1..]) then Lcs(a[1..], b)
    else Lcs(a, b[1..])
  }

  lemma {:induction false} SubsequenceTails(c: seq<string>, a: seq<string>)
    requires c != [] && Subsequence(c, a)
    ensures a != [] && Subsequence(c[1..], a[1..])
    decreases |a|
  {
    if !(c[0] == a[0] && Subsequence(c[1..], a[1..])) {
      SubsequenceTails(c, a[1..]);
      if c[1..] != [] {
        assert Subsequence(c[1..], a[1..]);
      }
    }
  }

  lemma {:induction false} NoLongerCommonSubsequence(c: seq<string>, a: seq<string>, b: seq<string>)
    requires Subsequence(c, a) && Subsequence(c, b)
    ensures |c| <= Lcs(a, b)
    decreases |a| + |b|
  {
    if c != [] {
      if a[0] == b[0] {
        SubsequenceTails(c, a);
        SubsequenceTails(c, b);
        NoLongerCommonSubsequence(c[1..], a[1..], b[1..]);
      } else if c[0] != a[0] {
        NoLongerCommonSubsequence(c, a[1..], b);
      } else {
        NoLongerCommonSubsequence(c, a, b[1..]);
      }
    }
  }

  /* ----- edit scripts ----- */

  datatype Edit = Keep(line: string) | Del(line: string) | Add(line: string) {
    function Prefix(): string {
      match this
      case Keep(_) => "  "
      case Del(_) => "- "
      case Add(_) => "+ "
    }

    function Text(): string {
      Prefix() + line + "\n"
    }
  }

  function Print(script: seq<Edit>): string {
    if script == [] then "" else script[0].Text() + Print(script[1..])
  }

  /** The lines a script starts from. */
  function OldLines(script: seq<Edit>): seq<string> {
    if script == [] then []
    else (if script[0].Add? then [] else [script[0].line]) + OldLines(script[1..])
  }

  /** The lines a script leads to. */
  function NewLines(script: seq<Edit>): seq<string> {
    if script == [] then []
    else (if script[0].Del? then [] else [script[0].line]) + NewLines(script[1..])
  }

  function KeptLines(script: seq<Edit>): seq<string> {
    if script == [] then []
    else (if script[0].Keep? then [script[0].line] else []) + KeptLines(script[1..])
  }

  /** The number of `-` and `+` lines. */
  function Changes(script: seq<Edit>): nat {
    if script == [] then 0
    else (if script[0].Keep? then 0 else 1) + Changes(script[1..])
  }

  /** The script the greedy walk over the table produces. */
  function Walk(a: seq<string>, b: seq<string>): seq<Edit>
    decreases |a| + |b|
  {
    if a != [] && b != [] then
      if a[0] == b[0] then [Keep(a[0])] + Walk(a[1..], b[1..])
      else if Lcs(a[1..], b) >= Lcs(a, b[1..]) then [Del(a[0])] + Walk(a[1..], b)
      else [Add(b[0])] + Walk(a, b[1..])
    else if a != [] then [Del(a[0])] + Walk(a[1..], b)
    else if b != [] then [Add(b[0])] + Walk(a, b[1..])
    else []
  }

  /* ----- the algorithm ----- */

  ghost predicate TableOf(lcs: array2<nat>, al: seq<string>, bl: seq<string>)
    reads lcs
  {
    && lcs.Length0 == |al| + 1 && lcs.Length1 == |bl| + 1
    && forall i, j :: 0 <= i <= |al| && 0 <= j <= |bl| ==> lcs[i, j] == Lcs(al[i..], bl[j..])
  }

  lemma LcsAt(al: seq<string>, bl: seq<string>, i: nat, j: nat)
    requires i <= |al| && j <= |bl|
    ensures Lcs(al[i..], bl[j..]) ==
      if i == |al| || j == |bl| then 0
      else if al[i] == bl[j] then Lcs(al[i + 1..], bl[j + 1..]) + 1
      else if Lcs(al[i + 1..], bl[j..]) >= Lcs(al[i..], bl[j + 1..]) then Lcs(al[i + 1..], bl[j..])
      else Lcs(al[i..], bl[j + 1..])
  {
    assert i < |al| ==> al[i..][1..] == al[i + 1..];
    assert j < |bl| ==> bl[j..][1..] == bl[j + 1..];
  }

  method FillTable(al: seq<string>, bl: seq<string>) returns (lcs: array2<nat>)
    ensures TableOf(lcs, al, bl)
  {
    hide Lcs;
    var n, m := |al|, |bl|;
    lcs := new nat[n + 1, m + 1]((i, j) => 0);
    forall j | 0 <= j <= m ensures Lcs(al[n..], bl[j..]) == 0 { LcsAt(al, bl, n, j); }
    forall k | 0 <= k <= n ensures Lcs(al[k..], bl[m..]) == 0 { LcsAt(al, bl, k, m); }
    var i := n;
    while i > 0
      invariant 0 <= i <= n
      invariant forall k :: 0 <= k <= n ==> lcs[k, m] == 0
      invariant forall k, l :: i <= k <= n && 0 <= l <= m ==> lcs[k, l] == Lcs(al[k..], bl[l..])
    {
      i := i - 1;
      var j := m;
      while j > 0
        invariant 0 <= j <= m
        invariant forall k :: 0 <= k <= n ==> lcs[k, m] == 0
        invariant forall k, l :: i < k <= n && 0 <= l <= m ==> lcs[k, l] == Lcs(al[k..], bl[l..])
        invariant forall l :: j <= l <= m ==> lcs[i, l] == Lcs(al[i..], bl[l..])
      {
        j := j - 1;
        LcsAt(al, bl, i, j);
        if al[i] == bl[j] {
          lcs[i, j] := lcs[i + 1, j + 1] + 1;
        } else if lcs[i + 1, j] >= lcs[i, j + 1] {
          lcs[i, j] := lcs[i + 1, j];
        } else {
          lcs[i, j] := lcs[i, j + 1];
        }
      }
    }
  }

  lemma TableAt(lcs: array2<nat>, al: seq<string>, bl: seq<string>, i: nat, j: nat)
    requires TableOf(lcs, al, bl) && i < |al| && j < |bl|
    ensures i + 1 < lcs.Length0 && j + 1 < lcs.Length1
    ensures lcs[i + 1, j] == Lcs(al[i + 1..], bl[j..]) && lcs[i, j + 1] == Lcs(al[i..], bl[j + 1..])
  {}

  method Unifiedish(a: string, b: string) returns (r: string)
    ensures r == Print(Walk(Lines(a), Lines(b)))
  {
    hide Lines, Walk, Print, Lcs, TableOf, Written;
    var al := SplitLines(a);
    var bl := SplitLines(b);
    var n, m := |al|, |bl|;
    var lcs := FillTable(al, bl);
    var sb := "";
    var i, j := 0, 0;
    NothingWritten(al, bl);
    while i < n && j < m
      invariant 0 <= i <= n && 0 <= j <= m
      invariant TableOf(lcs, al, bl)
      invariant Written(al, bl, i, j, sb)
      decreases n - i + m - j
    {
      WalkStep(al, bl, i, j, sb);
      TableAt(lcs, al, bl, i, j);
      if al[i] == bl[j] {
        sb := sb + "  " + al[i] + "\n";
        i, j := i + 1, j + 1;
      } else if lcs[i + 1, j] >= lcs[i, j + 1] {
        sb := sb + "- " + al[i] + "\n";
        i := i + 1;
      } else {
        sb := sb + "+ " + bl[j] + "\n";
        j := j + 1;
      }
    }
    while i < n
      invariant 0 <= i <= n && 0 <= j <= m
      invariant i < n ==> j == m
      invariant Written(al, bl, i, j, sb)
    {
      WalkStep(al, bl, i, j, sb);
      sb := sb + "- " + al[i] + "\n";
      i := i + 1;
    }
    while j < m
      invariant 0 <= i <= n && 0 <= j <= m && i == n
      invariant Written(al, bl, i, j, sb)
    {
      WalkStep(al, bl, i, j, sb);
      sb := sb + "+ " + bl[j] + "\n";
      j := j + 1;
    }
    AllWritten(al, bl, sb);
    return sb;
  }

  /** `sb` is what the walk prints before it reaches `(i, j)`. */
  predicate Written(al: seq<string>, bl: seq<string>, i: nat, j: nat, sb: string)
    requires i <= |al| && j <= |bl|
  {
    Print(Walk(al, bl)) == sb + Print(Walk(al[i..], bl[j..]))
  }

  /** One step of the walk from `(i, j)`. */
  lemma WalkStep(al: seq<string>, bl: seq<string>, i: nat, j: nat, sb: string)
    requires i <= |al| && j <= |bl| && (i < |al| || j < |bl|) && Written(al, bl, i, j, sb)
    ensures
      if i < |al| && j < |bl| && al[i] == bl[j] then
        Written(al, bl, i + 1, j + 1, sb + "  " + al[i] + "\n")
      else if i < |al| && (j == |bl| || Lcs(al[i + 1..], bl[j..]) >= Lcs(al[i..], bl[j + 1..])) then
        Written(al, bl, i + 1, j, sb + "- " + al[i] + "\n")
      else
        Written(al, bl, i, j + 1, sb + "+ " + bl[j] + "\n")
  {
    hide Print, Lcs, Edit.Text;
    assert i < |al| ==> al[i..][1..] == al[i + 1..];
    assert j < |bl| ==> bl[j..][1..] == bl[j + 1..];
    if i < |al| && j < |bl| && al[i] == bl[j] {
      PrintBehind(sb, Keep(al[i]), Walk(al[i + 1..], bl[j + 1..]));
    } else if i < |al| && (j == |bl| || Lcs(al[i + 1..], bl[j..]) >= Lcs(al[i..], bl[j + 1..])) {
      PrintBehind(sb, Del(al[i]), Walk(al[i + 1..], bl[j..]));
    } else {
      PrintBehind(sb, Add(bl[j]), Walk(al[i..], bl[j + 1..]));
    }
  }

  lemma NothingWritten(al: seq<string>, bl: seq<string>)
    ensures Written(al, bl, 0, 0, "")
  {
    hide Print, Walk;
    assert al[0..] == al && bl[0..] == bl;
  }

  lemma AllWritten(al: seq<string>, bl: seq<string>, sb: string)
    requires Written(al, bl, |al|, |bl|, sb)
    ensures sb == Print(Walk(al, bl))
  {
    assert al[|al|..] == [] && bl[|bl|..] == [];
  }

  lemma PrintBehind(sb: string, e: Edit, rest: seq<Edit>)
    ensures sb + Print([e] + rest) == (sb + e.Prefix() + e.line + "\n") + Print(rest)
  {
    assert ([e] + rest)[1..] == rest;
    hide Edit.Prefix;
    var p := e.Prefix();
    assert sb + (p + e.line + "\n" + Print(rest)) == (sb + p + e.line + "\n") + Print(rest);
  }

  /* ----- what the script means ----- */

  lemma OneMoreEdit(e: Edit, rest: seq<Edit>)
    ensures OldLines([e] + rest) == (if e.Add? then [] else [e.line]) + OldLines(rest)
    ensures NewLines([e] + rest) == (if e.Del? then [] else [e.line]) + NewLines(rest)
  {
    assert ([e] + rest)[1..] == rest;
  }

  lemma {:induction false} WalkReplays(a: seq<string>, b: seq<string>)
    ensures OldLines(Walk(a, b)) == a && NewLines(Walk(a, b)) == b
    decreases |a| + |b|
  {
    hide Lcs, OldLines, NewLines, Walk;
    WalkFirst(a, b);
    if a != [] && b != [] && a[0] == b[0] {
      WalkReplays(a[1..], b[1..]);
      OneMoreEdit(Keep(a[0]), Walk(a[1..], b[1..]));
      assert [a[0]] + a[1..] == a && [b[0]] + b[1..] == b;
    } else if a != [] && (b == [] || Lcs(a[1..], b) >= Lcs(a, b[1..])) {
      WalkReplays(a[1..], b);
      OneMoreEdit(Del(a[0]), Walk(a[1..], b));
      assert [a[0]] + a[1..] == a && [] + b == b;
    } else if b != [] {
      WalkReplays(a, b[1..]);
      OneMoreEdit(Add(b[0]), Walk(a, b[1..]));
      assert [] + a == a && [b[0]] + b[1..] == b;
    } else {
      EmptyScript();
    }
  }

  lemma WalkFirst(a: seq<string>, b: seq<string>)
    ensures Walk(a, b) ==
      if a != [] && b != [] && a[0] == b[0] then [Keep(a[0])] + Walk(a[1..], b[1..])
      else if a != [] && (b == [] || Lcs(a[1..], b) >= Lcs(a, b[1..])) then [Del(a[0])] + Walk(a[1..], b)
      else if b != [] then [Add(b[0])] + Walk(a, b[1..])
      else []
  {
    hide Lcs;
  }

  lemma EmptyScript()
    ensures OldLines([]) == [] && NewLines([]) == []
  {}

  lemma {:induction false} WalkKeepsLcs(a: seq<string>, b: seq<string>)
    ensures |KeptLines(Walk(a, b))| == Lcs(a, b)
    decreases |a| + |b|
  {
    if a != [] && b != [] && a[0] == b[0] {
      WalkKeepsLcs(a[1..], b[1..]);
    } else if a != [] && (b == [] || Lcs(a[1..], b) >= Lcs(a, b[1..])) {
      WalkKeepsLcs(a[1..], b);
    } else if b != [] {
      WalkKeepsLcs(a, b[1..]);
    }
  }

  lemma {:induction false} KeptIsCommon(script: seq<Edit>)
    ensures Subsequence(KeptLines(script), OldLines(script))
    ensures Subsequence(KeptLines(script), NewLines(script))
  {
    if script != [] {
      KeptIsCommon(script[1..]);
      var k, o, n := KeptLines(script[1..]), OldLines(script[1..]), NewLines(script[1..]);
      var line := script[0].line;
      assert ([line] + o)[1..] == o && ([line] + n)[1..] == n && ([line] + k)[1..] == k;
      assert [] + k == k && [] + o == o && [] + n == n;
    }
  }

  lemma {:induction false} ChangesCount(script: seq<Edit>)
    ensures Changes(script) == |OldLines(script)| + |NewLines(script)| - 2 * |KeptLines(script)|
  {
    if script != [] {
      ChangesCount(script[1..]);
    }
  }

  /** The unchanged lines are a longest common subsequence of the two texts' lines. */
  lemma {:induction false} KeptIsLongest(a: seq<string>, b: seq<string>, c: seq<string>)
    ensures var kept := KeptLines(Walk(a, b));
      Subsequence(kept, a) && Subsequence(kept, b)
      && (Subsequence(c, a) && Subsequence(c, b) ==> |c| <= |kept|)
  {
    WalkReplays(a, b);
    KeptIsCommon(Walk(a, b));
    WalkKeepsLcs(a, b);
    if Subsequence(c, a) && Subsequence(c, b) {
      NoLongerCommonSubsequence(c, a, b);
    }
  }

  /** No script that leads from `a` to `b` has fewer `-` and `+` lines than the one emitted. */
  lemma {:induction false} WalkIsShortest(a: seq<string>, b: seq<string>, other: seq<Edit>)
    requires OldLines(other) == a && NewLines(other) == b
    ensures Changes(Walk(a, b)) <= Changes(other)
  {
    WalkReplays(a, b);
    ChangesCount(Walk(a, b));
    ChangesCount(other);
    KeptIsCommon(other);
    KeptIsLongest(a, b, KeptLines(other));
  }

  /* ----- replaying the printed text ----- */

  /** Drop the lines that open with `dropped`, and the two-character prefix of the others. */
  function Replay(lines: seq<string>, dropped: char): seq<string> {
    if lines == [] then []
    else
      (if |lines[0]| >= 2 && lines[0][0] != dropped then [lines[0][2..]] else [])
      + Replay(lines[1..], dropped)
  }

  predicate CleanScript(script: seq<Edit>) {
    forall e <- script :: '\n' !in e.line
  }

  lemma {:induction false} WalkIsClean(a: seq<string>, b: seq<string>)
    requires NoNewlines(a) && NoNewlines(b)
    ensures CleanScript(Walk(a, b))
    decreases |a| + |b|
  {
    if a != [] && b != [] && a[0] == b[0] {
      WalkIsClean(a[1..], b[1..]);
    } else if a != [] && (b == [] || Lcs(a[1..], b) >= Lcs(a, b[1..])) {
      WalkIsClean(a[1..], b);
    } else if b != [] {
      WalkIsClean(a, b[1..]);
    }
  }

  lemma FirstPrintedLine(e: Edit, rest: string)
    requires '\n' !in e.line
    ensures Lines(e.Text() + rest) == [e.Text()[..|e.line| + 2]] + Lines(rest)
  {
    var n := |e.line| + 2;
    var s := e.Text() + rest;
    assert s[..n] == e.Text()[..n] == e.Prefix() + e.line;
    LineEndIs(s, n);
    assert s[n + 1..] == rest;
  }

  lemma {:induction false} ReplayLines(script: seq<Edit>)
    requires CleanScript(script)
    ensures Replay(Lines(Print(script)), '+') == OldLines(script)
    ensures Replay(Lines(Print(script)), '-') == NewLines(script)
  {
    if script != [] {
      var e := script[0];
      var line := e.Text()[..|e.line| + 2];
      FirstPrintedLine(e, Print(script[1..]));
      ReplayLines(script[1..]);
      assert line[2..] == e.line;
      var lines := Lines(Print(script));
      assert lines[1..] == Lines(Print(script[1..]));
    }
  }

  /**
   The printed diff replays both ways, whatever the two texts hold: without its
   `+` lines it is the old text, without its `-` lines the new one.
   */
  lemma {:induction false} DiffReplays(a: string, b: string)
    ensures
      var diff := Lines(Print(Walk(Lines(a), Lines(b))));
      Replay(diff, '+') == Lines(a) && Replay(diff, '-') == Lines(b)
  {
    LinesHaveNoNewline(a);
    LinesHaveNoNewline(b);
    WalkIsClean(Lines(a), Lines(b));
    ReplayLines(Walk(Lines(a), Lines(b)));
    WalkReplays(Lines(a), Lines(b));
  }

  /** Nothing is marked as changed exactly when both texts have the same lines. */
  lemma {:induction false} NoChangesIff(a: seq<string>, b: seq<string>)
    ensures Changes(Walk(a, b)) == 0 <==> a == b
  {
    WalkReplays(a, b);
    ChangesCount(Walk(a, b));
    if a == b {
      SelfCommon(a);
      KeptIsLongest(a, b, a);
    } else if Changes(Walk(a, b)) == 0 {
      UnchangedScript(Walk(a, b));
    }
  }

  lemma {:induction false} SelfCommon(a: seq<string>)
    ensures Subsequence(a, a)
  {
    if a != [] {
      SelfCommon(a[1..]);
    }
  }

  lemma {:induction false} UnchangedScript(script: seq<Edit>)
    requires Changes(script) == 0
    ensures OldLines(script) == NewLines(script)
  {
    if script != [] {
      UnchangedScript(script[1..]);
    }
  }

  /* ----- what the lines are, and in which order the changes come ----- */

  /** Put together again, the lines are the text, up to a newline missing at its end. */
  lemma {:induction false} LinesReassemble(s: string)
    ensures Text.Unlines(Lines(s)) == if s == "" || s[|s| - 1] == '\n' then s else s + "\n"
    decreases |s|
  {
    hide LineEnd, Text.Unlines;
    if s == "" {
      UnlinesNothing();
    } else {
      var n := LineEnd(s);
      if n == |s| {
        assert s[..n] == s && s[|s| - 1] in s;
        assert [s] + [] == [s];
        UnlinesMore(s, []);
        UnlinesNothing();
        assert s + "\n" + "" == s + "\n";
      } else {
        var rest := s[n + 1..];
        LinesReassemble(rest);
        UnlinesMore(s[..n], Lines(rest));
        assert s == s[..n] + "\n" + rest;
        assert rest == "" ==> s[|s| - 1] == '\n';
        assert rest != "" ==> s[|s| - 1] == rest[|rest| - 1];
      }
    }
  }

  lemma UnlinesNothing()
    ensures Text.Unlines([]) == ""
  {}

  lemma UnlinesMore(line: string, rest: seq<string>)
    ensures Text.Unlines([line] + rest) == line + "\n" + Text.Unlines(rest)
  {
    assert ([line] + rest)[1..] == rest;
  }

  /** Where lines are replaced, the old ones come before the new ones. */
  lemma {:induction false} DeletionsComeFirst(a: seq<string>, b: seq<string>, k: nat)
    requires k + 1 < |Walk(a, b)| && Walk(a, b)[k].Add?
    ensures !Walk(a, b)[k + 1].Del?
    decreases |a| + |b|
  {
    hide Walk, Lcs;
    WalkFirst(a, b);
    if k == 0 {
      WalkFirst(a, b[1..]);
      NothingInCommon(a);
      if a != [] && |b| > 1 && a[0] != b[1] {
        AddedBeforeDeleted(a, b);
        assert b[1..][1..] == b[2..];
      }
    } else if a != [] && b != [] && a[0] == b[0] {
      DeletionsComeFirst(a[1..], b[1..], k - 1);
    } else if a != [] && (b == [] || Lcs(a[1..], b) >= Lcs(a, b[1..])) {
      DeletionsComeFirst(a[1..], b, k - 1);
    } else {
      DeletionsComeFirst(a, b[1..], k - 1);
    }
  }

  lemma NothingInCommon(a: seq<string>)
    ensures Lcs(a, []) == 0
  {}

  /** A line is added only when deleting one would cost more; then it still would. */
  lemma AddedBeforeDeleted(a: seq<string>, b: seq<string>)
    requires a != [] && |b| > 1 && a[0] != b[0] && Lcs(a[1..], b) < Lcs(a, b[1..]) && a[0] != b[1]
    ensures Lcs(a[1..], b[1..]) < Lcs(a, b[2..])
  {
    LcsGrows(a[1..], b);
    assert b[1..][1..] == b[2..];
  }

  lemma {:induction false} LcsGrows(a: seq<string>, b: seq<string>)
    requires b != []
    ensures Lcs(a, b) >= Lcs(a, b[1..])
    decreases |a| + |b|
  {
    if a != [] && a[0] == b[0] {
      AtMostOneMore(a, b[1..]);
    }
  }

  /** Without its first line a text shares at most one line less. */
  lemma {:induction false} AtMostOneMore(a: seq<string>, b: seq<string>)
    requires a != []
    ensures Lcs(a, b) <= Lcs(a[1..], b) + 1
    decreases |a| + |b|
  {
    if b != [] {
      if a[0] == b[0] {
        LcsGrows(a[1..], b);
      } else {
        AtMostOneMore(a, b[1..]);
        LcsGrows(a[1..], b);
      }
    }
  }

  /** How each kind of line is printed. */
  lemma {:induction false} EditTextMeaning(line: string)
    ensures Keep(line).Text() == "  " + line + "\n"
    ensures Del(line).Text() == "- " + line + "\n"
    ensures Add(line).Text() == "+ " + line + "\n"
  {}
}
