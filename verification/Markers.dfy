/**
 The two marker patterns of `wikiparse.go`, with the leftmost-first semantics
 of Go's `regexp`.  A matcher returns what is left of the text after the match.

   BEGIN   `<!--\s*CURATOR:BEGIN\s+block=([^\s]+)((?:\s+\w+=[^\s]+)*)\s*-->`
   END     `<!--\s*CURATOR:END\s+block=ID\s*-->`

 The only real backtracking is in `[^\s]+`: it first takes a whole token, and
 when the rest of the pattern then fails, the longest shorter prefix that can
 still succeed is one directly followed by `-->`.
 */
module Markers {
  import opened Wrappers

  /* ----- characters and runs ----- */

  /** `\s` of RE2. */
  predicate IsSpace(c: char) {
    c == ' ' || c == '\t' || c == '\n' || c == '\r' || c == '\U{0C}'
  }

  /** `\w` of RE2. */
  predicate IsWord(c: char) {
    '0' <= c <= '9' || 'A' <= c <= 'Z' || 'a' <= c <= 'z' || c == '_'
  }

  /** `[^\s]` of RE2. */
  predicate NonSpace(c: char) {
    !IsSpace(c)
  }

  /** A value that `[^\s]+` can match as a whole. */
  predicate IsToken(s: string) {
    s != "" && forall c <- s :: NonSpace(c)
  }

  predicate IsName(s: string) {
    s != "" && forall c <- s :: IsWord(c)
  }

  /** The length of the longest prefix of `s` whose characters satisfy `p`. */
  function RunLen(s: string, p: char -> bool): (n: nat)
    ensures n <= |s|
  {
    if s == "" || !p(s[0]) then 0 else 1 + RunLen(s[1..], p)
  }

  lemma {:induction false} RunFacts(s: string, p: char -> bool)
    ensures var n := RunLen(s, p);
      && (forall i :: 0 <= i < n ==> p(s[i]))
      && (n < |s| ==> !p(s[n]))
  {
    if s != "" && p(s[0]) {
      RunFacts(s[1..], p);
    }
  }

  lemma RunLenIs(s: string, p: char -> bool, n: nat)
    requires n <= |s|
    requires forall i :: 0 <= i < n ==> p(s[i])
    requires n < |s| ==> !p(s[n])
    ensures RunLen(s, p) == n
  {
    if n > 0 {
      RunLenIs(s[1..], p, n - 1);
    }
  }

  /** `r` is what is left of `s` once a prefix has been consumed. */
  predicate IsSuffix(r: string, s: string) {
    |r| <= |s| && s[|s| - |r|..] == r
  }

  lemma SuffixTransitive(a: string, b: string, c: string)
    requires IsSuffix(a, b) && IsSuffix(b, c)
    ensures IsSuffix(a, c)
  {
    assert c[|c| - |a|..] == c[|c| - |b|..][|b| - |a|..];
  }

  function DropSpaces(s: string): (r: string)
    ensures IsSuffix(r, s)
    ensures r != "" ==> !IsSpace(r[0])
  {
    RunFacts(s, IsSpace);
    s[RunLen(s, IsSpace)..]
  }

  function Drop(lit: string, s: string): (r: Option<string>)
    ensures r.Some? <==> lit <= s
    ensures r.Some? ==> s == lit + r.value && IsSuffix(r.value, s)
  {
    if lit <= s then Some(s[|lit|..]) else None
  }

  /** `\s*LIT` */
  function DropPadded(lit: string, s: string): (r: Option<string>)
    ensures r.Some? ==> IsSuffix(r.value, s) && |r.value| + |lit| <= |s|
  {
    var rest :- Drop(lit, DropSpaces(s));
    SuffixTransitive(rest, DropSpaces(s), s);
    Some(rest)
  }

  /** `\s+LIT` */
  function DropSpaced(lit: string, s: string): (r: Option<string>)
    ensures r.Some? ==> IsSuffix(r.value, s) && |r.value| + |lit| <= |s|
  {
    if RunLen(s, IsSpace) == 0 then None else DropPadded(lit, s)
  }

  const ARROW := "-->"

  /** The longest non-empty prefix of `tok` that is directly followed by `-->`. */
  function LastArrow(tok: string): (r: Option<nat>)
    ensures r.Some? ==> 1 <= r.value && r.value + 3 <= |tok| && ARROW <= tok[r.value..]
    ensures r.None? ==> forall k :: 1 <= k <= |tok| ==> !(ARROW <= tok[k..])
    ensures r.Some? ==> forall k :: r.value < k <= |tok| ==> !(ARROW <= tok[k..])
  {
    LastArrowUpTo(tok, |tok|)
  }

  function LastArrowUpTo(tok: string, n: nat): (r: Option<nat>)
    requires n <= |tok|
    ensures r.Some? ==> 1 <= r.value <= n && r.value + 3 <= |tok| && ARROW <= tok[r.value..]
    ensures r.None? ==> forall k :: 1 <= k <= n ==> !(ARROW <= tok[k..])
    ensures r.Some? ==> forall k :: r.value < k <= n ==> !(ARROW <= tok[k..])
  {
    if n == 0 then None
    else if ARROW <= tok[n..] then Some(n)
    else LastArrowUpTo(tok, n - 1)
  }

  /* ----- the patterns ----- */

  datatype Attr = Attr(key: string, value: string)
  datatype Tail = Tail(attrs: seq<Attr>, rest: string)
  datatype Begin = Begin(id: string, attrs: seq<Attr>, rest: string)

  /** `<!--\s*WORD\s+block=` */
  function MatchHead(s: string, word: string): (r: Option<string>)
    ensures r.Some? ==> |r.value| < |s| && IsSuffix(r.value, s)
  {
    var s1 :- Drop("<!--", s);
    var s2 :- DropPadded(word, s1);
    SuffixTransitive(s2, s1, s);
    var s3 :- DropSpaced("block=", s2);
    SuffixTransitive(s3, s2, s);
    Some(s3)
  }

  datatype Name = Name(name: string, rest: string)

  /** `\s+(\w+)=` */
  function MatchName(s: string): (r: Option<Name>)
    ensures r.Some? ==> |r.value.rest| < |s| && IsSuffix(r.value.rest, s)
  {
    var q := RunLen(s, IsSpace);
    var w := RunLen(s[q..], IsWord);
    if 0 < q && 0 < w && q + w < |s| && s[q + w] == '=' then
      Some(Name(s[q..q + w], s[q + w + 1..]))
    else
      None
  }

  /** `([^\s]+)((?:\s+\w+=[^\s]+)*)\s*-->` */
  function MatchValue(s: string): (r: Option<Begin>)
    ensures r.Some? ==> |r.value.rest| < |s| && IsSuffix(r.value.rest, s)
    ensures r.Some? ==> IsToken(r.value.id)
    ensures r.Some? ==> forall a <- r.value.attrs :: IsToken(a.value)
    decreases |s|
  {
    RunFacts(s, NonSpace);
    var v := RunLen(s, NonSpace);
    if v == 0 then None
    else
      match MatchTail(s[v..])
      case Some(t) =>
        SuffixTransitive(t.rest, s[v..], s);
        Some(Begin(s[..v], t.attrs, t.rest))
      case None =>
        var k :- LastArrow(s[..v]);
        Some(Begin(s[..k], [], s[k + 3..]))
  }

  /** `((?:\s+\w+=[^\s]+)*)\s*-->` */
  function MatchTail(s: string): (r: Option<Tail>)
    ensures r.Some? ==> |r.value.rest| < |s| && IsSuffix(r.value.rest, s)
    ensures r.Some? ==> forall a <- r.value.attrs :: IsToken(a.value)
    decreases |s|
  {
    match MatchName(s)
    case Some(n) =>
      var m :- MatchValue(n.rest);
      SuffixTransitive(m.rest, n.rest, s);
      Some(Tail([Attr(n.name, m.id)] + m.attrs, m.rest))
    case None =>
      var rest :- DropPadded(ARROW, s);
      Some(Tail([], rest))
  }

  const BEGIN := "CURATOR:BEGIN"
  const END := "CURATOR:END"

  /** The BEGIN pattern anchored at the start of `s`. */
  function MatchBegin(s: string): (r: Option<Begin>)
    ensures r.Some? ==> |r.value.rest| < |s| && IsSuffix(r.value.rest, s)
    ensures r.Some? ==> IsToken(r.value.id)
    ensures r.Some? ==> forall a <- r.value.attrs :: IsToken(a.value)
  {
    var s1 :- MatchHead(s, BEGIN);
    var m :- MatchValue(s1);
    SuffixTransitive(m.rest, s1, s);
    Some(m)
  }

  /** The END pattern for `id` anchored at the start of `s`. */
  function MatchEnd(s: string, id: string): (r: Option<string>)
    ensures r.Some? ==> |r.value| < |s| && IsSuffix(r.value, s)
  {
    var s1 :- MatchHead(s, END);
    var s2 :- Drop(id, s1);
    SuffixTransitive(s2, s1, s);
    var s3 :- DropPadded(ARROW, s2);
    SuffixTransitive(s3, s2, s);
    Some(s3)
  }

  /* ----- leftmost occurrences ----- */

  /** `p` holds of no suffix of `s` that starts in `[from, to)`. */
  ghost predicate Nowhere(s: string, p: string -> bool, from: nat, to: nat)
    requires to <= |s| + 1
  {
    forall i :: from <= i < to ==> !p(s[i..])
  }

  /** The leftmost start, at `from` or later, of a suffix of `s` that satisfies `p`. */
  function FindFirst(s: string, p: string -> bool, from: nat): (r: Option<nat>)
    requires from <= |s|
    ensures r.None? ==> Nowhere(s, p, from, |s| + 1)
    ensures r.Some? ==> from <= r.value <= |s| && p(s[r.value..]) && Nowhere(s, p, from, r.value)
    decreases |s| - from
  {
    if p(s[from..]) then Some(from)
    else if from == |s| then None
    else FindFirst(s, p, from + 1)
  }

  const Begins: string -> bool := s => MatchBegin(s).Some?

  function Ends(id: string): string -> bool {
    s => MatchEnd(s, id).Some?
  }

  /** No BEGIN marker starts anywhere in `s`. */
  ghost predicate BeginFree(s: string) {
    Nowhere(s, Begins, 0, |s| + 1)
  }

  /** No END marker for `id` starts anywhere in `s`. */
  ghost predicate EndFree(s: string, id: string) {
    Nowhere(s, Ends(id), 0, |s| + 1)
  }

  /* ----- the canonical spelling ----- */

  function PrintAttr(key: string, value: string): string {
    if value == "" then "" else " " + key + "=" + value
  }

  function PrintBegin(id: string, zone: string, provenance: string): string {
    "<!-- CURATOR:BEGIN block=" + id
    + PrintAttr("zone", zone) + PrintAttr("provenance", provenance) + " -->"
  }

  function PrintEnd(id: string): string {
    "<!-- CURATOR:END block=" + id + " -->"
  }

  /** The value of the last attribute named `key`, or `""`. */
  function AttrValue(attrs: seq<Attr>, key: string): (r: string)
    ensures r == "" || exists a <- attrs :: a.key == key && a.value == r
  {
    if attrs == [] then ""
    else
      var last := attrs[|attrs| - 1];
      if last.key == key then last.value else AttrValue(attrs[..|attrs| - 1], key)
  }
}
