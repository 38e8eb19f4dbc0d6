/** `wrapWords` of `docedit.go`: greedy wrapping of a text to a width in bytes. */
module WordWrap {
  import Text

  /* ----- words (`strings.Fields`) and lengths ----- */

  predicate IsWord(w: string) {
    w != "" && forall c <- w :: !Text.IsSpace(c)
  }

  /** Words joined by single spaces. */
  function Joined(words: seq<string>): string {
    Text.Join(words, " ")
  }

  function Utf8Len(c: char): nat {
    if c as int < 0x80 then 1 else if c as int < 0x800 then 2 else if c as int < 0x1_0000 then 3 else 4
  }

  /** `len` of a Go string. */
  function ByteLen(s: string): nat {
    if s == "" then 0 else Utf8Len(s[0]) + ByteLen(s[1..])
  }

  lemma {:induction false} ByteLenAppend(a: string, b: string)
    ensures ByteLen(a + b) == ByteLen(a) + ByteLen(b)
  {
    hide Utf8Len;
    if a == "" {
      assert a + b == b;
    } else {
      assert (a + b)[1..] == a[1..] + b;
      ByteLenAppend(a[1..], b);
    }
  }

  /** The length of a line that holds these words. */
  function Width(line: seq<string>): nat {
    ByteLen(Joined(line))
  }

  /* ----- wrappings ----- */

  /** A way to put words on lines: each line a group of words. */
  type Wrapping = seq<seq<string>>

  function Flatten(w: Wrapping): seq<string> {
    if w == [] then [] else w[0] + Flatten(w[1..])
  }

  /** A line may be over-long only when it is a single word. */
  predicate LineFits(line: seq<string>, width: int) {
    line != [] && (|line| == 1 || Width(line) <= width)
  }

  predicate Fits(w: Wrapping, width: int) {
    forall line <- w :: LineFits(line, width)
  }

  /** The greedy wrapping of `words` behind the line `cur`. */
  function Greedy(cur: seq<string>, words: seq<string>, width: int): (r: Wrapping)
    requires cur != []
    ensures r != []
    decreases |words|
  {
    if words == [] then [cur]
    else if Width(cur) + 1 + ByteLen(words[0]) > width then [cur] + Greedy([words[0]], words[1..], width)
    else Greedy(cur + [words[0]], words[1..], width)
  }

  function Wrap(words: seq<string>, width: int): Wrapping {
    if words == [] then [] else Greedy([words[0]], words[1..], width)
  }

  function Lines(w: Wrapping): (r: seq<string>)
    ensures |r| == |w| && forall i :: 0 <= i < |r| ==> r[i] == Joined(w[i])
  {
    seq(|w|, i requires 0 <= i < |w| => Joined(w[i]))
  }

  function WrappedLines(s: string, width: int): seq<string> {
    if Text.Fields(s) == [] then [""] else Lines(Wrap(Text.Fields(s), width))
  }

  /* ----- the algorithm ----- */

  lemma {:induction false} JoinedMore(line: seq<string>, w: string)
    requires line != []
    ensures Joined(line + [w]) == Joined(line) + (" " + w)
    ensures Width(line + [w]) == Width(line) + 1 + ByteLen(w)
  {
    var more := line + [w];
    if |line| == 1 {
      assert more[1..] == [w] && Text.Join([w], " ") == w;
      assert line[0] + " " + w == line[0] + (" " + w);
    } else {
      assert more[1..] == line[1..] + [w];
      JoinedMore(line[1..], w);
      assert line[0] + " " + (Joined(line[1..]) + (" " + w)) == line[0] + " " + Joined(line[1..]) + (" " + w);
    }
    ByteLenAppend(Joined(line), " " + w);
    ByteLenAppend(" ", w);
    SpaceIsOneByte();
  }

  lemma SpaceIsOneByte()
    ensures ByteLen(" ") == 1
  {
    assert " "[1..] == "";
  }

  /** `out` and the line in progress are what greedy writes before it reaches word `i`. */
  predicate Written(words: seq<string>, width: int, i: nat, out: seq<string>, line: seq<string>)
    requires words != [] && i <= |words|
  {
    line != [] && Lines(Wrap(words, width)) == out + Lines(Greedy(line, words[i..], width))
  }

  lemma WriteStep(words: seq<string>, width: int, i: nat, out: seq<string>, line: seq<string>)
    requires words != [] && i < |words| && Written(words, width, i, out, line)
    ensures
      if Width(line) + 1 + ByteLen(words[i]) > width then Written(words, width, i + 1, out + [Joined(line)], [words[i]])
      else Written(words, width, i + 1, out, line + [words[i]])
  {
    hide Joined, Width, ByteLen, Wrap;
    assert words[i..][0] == words[i] && words[i..][1..] == words[i + 1..];
    if Width(line) + 1 + ByteLen(words[i]) > width {
      var rest := Greedy([words[i]], words[i + 1..], width);
      assert Lines([line] + rest) == [Joined(line)] + Lines(rest);
      assert out + ([Joined(line)] + Lines(rest)) == out + [Joined(line)] + Lines(rest);
    }
  }

  lemma WriteStart(words: seq<string>, width: int)
    requires words != []
    ensures Written(words, width, 1, [], [words[0]]) && Joined([words[0]]) == words[0]
  {
    hide Greedy;
    var g := Greedy([words[0]], words[1..], width);
    assert [] + Lines(g) == Lines(g);
  }

  lemma WriteEnd(words: seq<string>, width: int, out: seq<string>, line: seq<string>)
    requires words != [] && Written(words, width, |words|, out, line)
    ensures Lines(Wrap(words, width)) == out + [Joined(line)]
  {
    hide Joined;
    assert words[|words|..] == [];
    assert Lines([line]) == [Joined(line)];
  }

  method WrapWords(s: string, width: int) returns (out: seq<string>)
    ensures out == WrappedLines(s, width)
  {
    hide Text.Fields, Written, Wrap, Joined, ByteLen;
    var words := Text.Fields(s);
    if |words| == 0 {
      return [""];
    }
    out := [];
    var cur := words[0];
    ghost var line := [words[0]];
    WriteStart(words, width);
    for i := 1 to |words|
      invariant cur == Joined(line) && line != []
      invariant Written(words, width, i, out, line)
    {
      var w := words[i];
      WriteStep(words, width, i, out, line);
      if ByteLen(cur) + 1 + ByteLen(w) > width {
        out := out + [cur];
        cur := w;
        line := [w];
        WriteStart([w], width);
        continue;
      }
      JoinedMore(line, w);
      cur := cur + (" " + w);
      line := line + [w];
    }
    WriteEnd(words, width, out, line);
    return out + [cur];
  }

  /* ----- the words are kept, and every line fits ----- */

  lemma {:induction false} GreedyKeepsWords(cur: seq<string>, words: seq<string>, width: int)
    requires cur != []
    ensures Flatten(Greedy(cur, words, width)) == cur + words
    decreases |words|
  {
    hide Width, ByteLen;
    if words == [] {
      assert [cur][1..] == [] && cur + [] == cur;
    } else if Width(cur) + 1 + ByteLen(words[0]) > width {
      var rest := Greedy([words[0]], words[1..], width);
      GreedyKeepsWords([words[0]], words[1..], width);
      assert ([cur] + rest)[1..] == rest;
      assert [words[0]] + words[1..] == words;
    } else {
      GreedyKeepsWords(cur + [words[0]], words[1..], width);
      assert cur + [words[0]] + words[1..] == cur + words;
    }
  }

  lemma {:induction false} GreedyFits(cur: seq<string>, words: seq<string>, width: int)
    requires LineFits(cur, width)
    ensures Fits(Greedy(cur, words, width), width)
    decreases |words|
  {
    hide Width, ByteLen;
    if words != [] {
      if Width(cur) + 1 + ByteLen(words[0]) > width {
        GreedyFits([words[0]], words[1..], width);
      } else {
        JoinedMore(cur, words[0]);
        GreedyFits(cur + [words[0]], words[1..], width);
      }
    }
  }

  /** Greedy keeps the words in order and puts too much on a line only for an over-long word. */
  lemma {:induction false} WrapIsAWrapping(words: seq<string>, width: int)
    ensures Flatten(Wrap(words, width)) == words && Fits(Wrap(words, width), width)
  {
    hide Width, ByteLen;
    if words != [] {
      GreedyKeepsWords([words[0]], words[1..], width);
      GreedyFits([words[0]], words[1..], width);
      assert [words[0]] + words[1..] == words;
    }
  }

  /* ----- no wrapping has fewer lines ----- */

  lemma {:induction false} WidthGrows(words: seq<string>, n: nat, m: nat)
    requires 1 <= n <= m <= |words|
    ensures Width(words[..n]) <= Width(words[..m])
  {
    hide Width;
    if n < m {
      WidthGrows(words, n, m - 1);
      assert words[..m] == words[..m - 1] + [words[m - 1]];
      JoinedMore(words[..m - 1], words[m - 1]);
    }
  }

  lemma {:induction false} WidthOfSuffix(front: seq<string>, line: seq<string>)
    requires line != []
    ensures Width(line) <= Width(front + line)
  {
    hide ByteLen;
    if front == [] {
      assert front + line == line;
    } else {
      WidthOfSuffix(front[1..], line);
      var all := front + line;
      assert all[1..] == front[1..] + line;
      assert Joined(all) == all[0] + " " + Joined(all[1..]);
      ByteLenAppend(all[0] + " ", Joined(all[1..]));
    }
  }

  /** Greedy's first line: all the words that fit, and at least the first `j`. */
  lemma {:induction false} FirstLine(words: seq<string>, j: nat, width: int) returns (q: nat)
    requires 1 <= j <= |words|
    ensures j <= q <= |words|
    ensures Greedy(words[..j], words[j..], width) == [words[..q]] + Wrap(words[q..], width)
    ensures forall m :: q < m <= |words| ==> Width(words[..m]) > width
    decreases |words| - j
  {
    hide Width, ByteLen;
    if j == |words| {
      q := j;
      assert words[j..] == [] && [words[..j]] + [] == [words[..j]];
    } else {
      assert words[j..][0] == words[j] && words[j..][1..] == words[j + 1..];
      assert words[..j + 1] == words[..j] + [words[j]];
      JoinedMore(words[..j], words[j]);
      if Width(words[..j]) + 1 + ByteLen(words[j]) > width {
        q := j;
        forall m | q < m <= |words| ensures Width(words[..m]) > width {
          WidthGrows(words, j + 1, m);
        }
      } else {
        q := FirstLine(words, j + 1, width);
      }
    }
  }

  /**
   Greedy stays ahead: for the words `rest` it needs no more lines than any
   fitting wrapping of a text that still has `done` before them.
   */
  lemma {:induction false} GreedyStaysAhead(done: seq<string>, rest: seq<string>, other: Wrapping, width: int)
    requires Fits(other, width) && Flatten(other) == done + rest
    ensures |Wrap(rest, width)| <= |other|
    decreases |other|
  {
    hide Width, ByteLen, Greedy;
    if rest != [] {
      assert other != [];
      var line := other[0];
      assert line in other && other[1..] == other[1..];
      assert rest[..1] == [rest[0]];
      var q := FirstLine(rest, 1, width);
      var all := done + rest;
      assert all == line + Flatten(other[1..]);
      assert Fits(other[1..], width);
      if |line| <= |done| {
        assert Flatten(other[1..]) == all[|line|..] == (done[|line|..] + rest[..q]) + rest[q..];
        GreedyStaysAhead(done[|line|..] + rest[..q], rest[q..], other[1..], width);
      } else {
        var m := |line| - |done|;
        assert line == all[..|line|] == done + rest[..m];
        assert m <= q by {
          if m > q {
            WidthOfSuffix(done, rest[..m]);
            LongLineFits(line, width);
            assert false;
          }
        }
        assert Flatten(other[1..]) == all[|line|..] == rest[m..q] + rest[q..];
        GreedyStaysAhead(rest[m..q], rest[q..], other[1..], width);
      }
    }
  }

  lemma LongLineFits(line: seq<string>, width: int)
    requires LineFits(line, width) && |line| > 1
    ensures Width(line) <= width
  {}

  /** No fitting way to put the words on lines has fewer of them. */
  lemma {:induction false} WrapIsShortest(words: seq<string>, other: Wrapping, width: int)
    requires Fits(other, width) && Flatten(other) == words
    ensures |Wrap(words, width)| <= |other|
  {
    assert [] + words == words;
    GreedyStaysAhead([], words, other, width);
  }

  /* ----- folding the lines gives the text back ----- */

  lemma {:induction false} JoinedGroups(a: seq<string>, b: seq<string>)
    requires a != [] && b != []
    ensures Joined(a + b) == Joined(a) + (" " + Joined(b))
  {
    var all := a + b;
    if |a| == 1 {
      assert all[1..] == b;
      assert a[0] + " " + Joined(b) == a[0] + (" " + Joined(b));
    } else {
      JoinedGroups(a[1..], b);
      assert all[1..] == a[1..] + b;
      assert a[0] + " " + (Joined(a[1..]) + (" " + Joined(b))) == a[0] + " " + Joined(a[1..]) + (" " + Joined(b));
    }
  }

  lemma {:induction false} FoldingLines(w: Wrapping)
    requires forall i :: 0 <= i < |w| ==> w[i] != []
    ensures Joined(Lines(w)) == Joined(Flatten(w))
    ensures w != [] ==> Flatten(w) != []
  {
    hide Joined;
    if w == [] {
    } else if |w| == 1 {
      assert w[1..] == [] && w[0] + [] == w[0];
      assert Lines(w) == [Joined(w[0])];
      JoinedOne(Joined(w[0]));
    } else {
      FoldingLines(w[1..]);
      JoinedGroups(w[0], Flatten(w[1..]));
      assert Lines(w) == [Joined(w[0])] + Lines(w[1..]);
      JoinedGroups([Joined(w[0])], Lines(w[1..]));
      JoinedOne(Joined(w[0]));
    }
  }

  lemma JoinedOne(a: string)
    ensures Joined([a]) == a
  {}

  /** Joining the lines with spaces gives the words of the text, single-spaced. */
  lemma {:induction false} FoldingGivesWords(s: string, width: int)
    ensures Joined(WrappedLines(s, width)) == Joined(Text.Fields(s))
  {
    hide Text.Fields, Joined, Wrap;
    JoinedOne("");
    JoinedNone();
    if Text.Fields(s) != [] {
      var w := Wrap(Text.Fields(s), width);
      WrapIsAWrapping(Text.Fields(s), width);
      assert forall i :: 0 <= i < |w| ==> LineFits(w[i], width);
      FoldingLines(w);
    }
  }

  lemma JoinedNone()
    ensures Joined([]) == ""
  {}

  lemma {:induction false} FieldsOfWord(w: string, cur: string, rest: string)
    requires forall c <- w :: !Text.IsSpace(c)
    ensures Text.FieldsFrom(w + rest, cur) == Text.FieldsFrom(rest, cur + w)
  {
    hide Text.IsSpace;
    if w == "" {
      assert w + rest == rest && cur + w == cur;
    } else {
      assert w[0] in w;
      assert (w + rest)[1..] == w[1..] + rest;
      FieldsOfWord(w[1..], cur + [w[0]], rest);
      assert cur + [w[0]] + w[1..] == cur + w;
    }
  }

  lemma SpaceIsSpace()
    ensures Text.IsSpace(' ')
  {}

  /** Single-spaced words are read back as these words. */
  lemma {:induction false} FieldsOfJoined(words: seq<string>)
    requires forall w <- words :: IsWord(w)
    ensures Text.Fields(Joined(words)) == words
  {
    hide Text.IsSpace;
    SpaceIsSpace();
    if words == [] {
    } else {
      assert words[0] in words;
      assert "" + words[0] == words[0];
      if |words| == 1 {
        assert words[0] + "" == words[0];
        FieldsOfWord(words[0], "", "");
      } else {
        var rest := Joined(words[1..]);
        FieldsOfWord(words[0], "", " " + rest);
        assert words[0] + " " + rest == words[0] + (" " + rest);
        assert (" " + rest)[1..] == rest;
        FieldsOfJoined(words[1..]);
        assert [words[0]] + words[1..] == words;
      }
    }
  }

  lemma {:induction false} FieldsAreWords(s: string, cur: string)
    requires forall c <- cur :: !Text.IsSpace(c)
    ensures forall w <- Text.FieldsFrom(s, cur) :: IsWord(w)
  {
    hide Text.IsSpace;
    if s != "" {
      if Text.IsSpace(s[0]) {
        FieldsAreWords(s[1..], "");
      } else {
        FieldsAreWords(s[1..], cur + [s[0]]);
      }
    }
  }

  /** Reading the folded lines and wrapping again changes nothing. */
  lemma {:induction false} WrappingIsStable(s: string, width: int)
    ensures Text.Fields(Joined(WrappedLines(s, width))) == Text.Fields(s)
    ensures WrappedLines(Joined(WrappedLines(s, width)), width) == WrappedLines(s, width)
  {
    hide Wrap, Joined, Lines, Text.FieldsFrom;
    FoldingGivesWords(s, width);
    FieldsAreWords(s, "");
    FieldsOfJoined(Text.Fields(s));
  }

  /* ----- greed ----- */

  /** No line could have taken the first word of the next one. */
  lemma {:induction false} LinesAreFull(words: seq<string>, width: int, i: nat)
    requires i + 1 < |Wrap(words, width)|
    ensures Wrap(words, width)[i + 1] != []
    ensures Width(Wrap(words, width)[i] + [Wrap(words, width)[i + 1][0]]) > width
  {
    hide Greedy, Width;
    GreedyIsFull([words[0]], words[1..], width, i);
  }

  /** The first line of a greedy wrapping begins with the line in progress. */
  lemma {:induction false} GreedyStarts(cur: seq<string>, words: seq<string>, width: int)
    requires cur != []
    ensures Greedy(cur, words, width)[0] != [] && Greedy(cur, words, width)[0][0] == cur[0]
    decreases |words|
  {
    hide Width, ByteLen;
    if words != [] {
      GreedyStarts(cur + [words[0]], words[1..], width);
    }
  }

  lemma {:induction false} GreedyIsFull(cur: seq<string>, words: seq<string>, width: int, i: nat)
    requires cur != [] && i + 1 < |Greedy(cur, words, width)|
    ensures Greedy(cur, words, width)[i + 1] != []
    ensures Width(Greedy(cur, words, width)[i] + [Greedy(cur, words, width)[i + 1][0]]) > width
    decreases |words|
  {
    hide Width, ByteLen, Joined;
    if words != [] {
      JoinedMore(cur, words[0]);
      if Width(cur) + 1 + ByteLen(words[0]) > width {
        GreedyStarts([words[0]], words[1..], width);
        if i > 0 {
          GreedyIsFull([words[0]], words[1..], width, i - 1);
        }
      } else {
        GreedyIsFull(cur + [words[0]], words[1..], width, i);
      }
    }
  }

  /** The bytes of a character in UTF-8, section 3 of RFC 3629. */
  function Utf8(c: char): seq<bv8> {
    var n := c as int;
    if n < 0x80 then [n as bv8]
    else if n < 0x800 then [(0xC0 + n / 0x40) as bv8, (0x80 + n % 0x40) as bv8]
    else if n < 0x1_0000 then
      [(0xE0 + n / 0x1000) as bv8, (0x80 + n / 0x40 % 0x40) as bv8, (0x80 + n % 0x40) as bv8]
    else
      [(0xF0 + n / 0x4_0000) as bv8, (0x80 + n / 0x1000 % 0x40) as bv8, (0x80 + n / 0x40 % 0x40) as bv8,
       (0x80 + n % 0x40) as bv8]
  }

  function Utf8Text(s: string): seq<bv8> {
    if s == "" then [] else Utf8(s[0]) + Utf8Text(s[1..])
  }

  /** The length of a text is the number of its bytes in UTF-8. */
  lemma {:induction false} ByteLenIsUtf8(s: string)
    ensures ByteLen(s) == |Utf8Text(s)|
  {
    hide Utf8;
    if s != "" {
      ByteLenIsUtf8(s[1..]);
      Utf8Length(s[0]);
    }
  }

  lemma Utf8Length(c: char)
    ensures |Utf8(c)| == Utf8Len(c)
  {}

  /** A text without words is one empty line; any other text has a line for each line of the wrapping. */
  lemma {:induction false} LinesOfText(s: string, width: int)
    ensures var words, lines := Text.Fields(s), WrappedLines(s, width);
      if words == [] then lines == [""]
      else |lines| == |Wrap(words, width)| && forall i :: 0 <= i < |lines| ==> lines[i] == Joined(Wrap(words, width)[i])
  {}
}
