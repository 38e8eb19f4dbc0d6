/** `extractJSONObject` of `judge.go`: the first balanced `{...}` of a text. */
module JsonExtract {
  import opened Wrappers

  /* ----- the scanner ----- */

  function More(n: nat, r: Option<nat>): Option<nat> {
    match r
    case None => None
    case Some(m) => Some(n + m)
  }

  /** How many characters the loop consumes from `s` until the depth is back at 0. */
  function Scan(s: string, depth: nat, inStr: bool, esc: bool): (r: Option<nat>)
    ensures r.Some? ==> 1 <= r.value <= |s|
  {
    if s == "" then None
    else
      var c := s[0];
      if esc then More(1, Scan(s[1..], depth, inStr, false))
      else if c == '\\' && inStr then More(1, Scan(s[1..], depth, inStr, true))
      else if c == '"' then More(1, Scan(s[1..], depth, !inStr, false))
      else if inStr then More(1, Scan(s[1..], depth, inStr, false))
      else if c == '{' then More(1, Scan(s[1..], depth + 1, inStr, false))
      else if c == '}' then (if depth <= 1 then Some(1) else More(1, Scan(s[1..], depth - 1, inStr, false)))
      else More(1, Scan(s[1..], depth, inStr, false))
  }

  function BraceIndex(s: string): (n: nat)
    ensures n <= |s|
    ensures '{' !in s[..n]
    ensures n < |s| ==> s[n] == '{'
  {
    if s == "" || s[0] == '{' then 0 else 1 + BraceIndex(s[1..])
  }

  function Extracted(s: string): Option<string> {
    var start := BraceIndex(s);
    if start == |s| then None
    else
      match Scan(s[start..], 0, false, false)
      case None => None
      case Some(n) => Some(s[start..start + n])
  }

  lemma ScanStep(s: string, start: nat, i: nat, depth: nat, inStr: bool, esc: bool)
    requires start <= i < |s|
    ensures More(i - start, Scan(s[i..], depth, inStr, esc)) ==
      var c := s[i];
      if esc then More(i + 1 - start, Scan(s[i + 1..], depth, inStr, false))
      else if c == '\\' && inStr then More(i + 1 - start, Scan(s[i + 1..], depth, inStr, true))
      else if c == '"' then More(i + 1 - start, Scan(s[i + 1..], depth, !inStr, false))
      else if inStr then More(i + 1 - start, Scan(s[i + 1..], depth, inStr, false))
      else if c == '{' then More(i + 1 - start, Scan(s[i + 1..], depth + 1, inStr, false))
      else if c == '}' then (if depth <= 1 then Some(i + 1 - start)
        else More(i + 1 - start, Scan(s[i + 1..], depth - 1, inStr, false)))
      else More(i + 1 - start, Scan(s[i + 1..], depth, inStr, false))
  {
    assert s[i..][0] == s[i] && s[i..][1..] == s[i + 1..];
  }

  method ExtractJSONObject(s: string) returns (r: Option<string>)
    ensures r == Extracted(s)
  {
    hide Scan;
    var start := BraceIndex(s);
    if start == |s| {
      return None;
    }
    var depth, inStr, esc := 0, false, false;
    for i := start to |s|
      invariant 0 <= depth && (depth == 0 ==> i == start && !inStr && !esc)
      invariant Scan(s[start..], 0, false, false) == More(i - start, Scan(s[i..], depth, inStr, esc))
    {
      ScanStep(s, start, i, depth, inStr, esc);
      var c := s[i];
      if esc {
        esc := false;
      } else if c == '\\' && inStr {
        esc := true;
      } else if c == '"' {
        inStr := !inStr;
      } else if inStr {
      } else if c == '{' {
        depth := depth + 1;
      } else if c == '}' {
        depth := depth - 1;
        if depth == 0 {
          return Some(s[start..i + 1]);
        }
      }
    }
    assert s[|s|..] == "";
    NothingScanned(depth, inStr, esc);
    return None;
  }

  lemma NothingScanned(depth: nat, inStr: bool, esc: bool)
    ensures Scan("", depth, inStr, esc).None?
  {}

  /* ----- balanced texts ----- */

  /** A character of a string literal: itself, or escaped by a backslash. */
  datatype StrChar = Raw(c: char) | Esc(c: char)

  /** A text in which braces outside string literals come in pairs. */
  datatype Piece = Plain(c: char) | Str(chars: seq<StrChar>) | Braces(inner: seq<Piece>)

  predicate StrCharOk(c: StrChar) {
    c.Raw? ==> c.c != '"' && c.c != '\\'
  }

  predicate PieceOk(p: Piece) {
    match p
    case Plain(c) => c != '"' && c != '{' && c != '}'
    case Str(chars) => forall c <- chars :: StrCharOk(c)
    case Braces(inner) => PiecesOk(inner)
  }

  predicate PiecesOk(ps: seq<Piece>) {
    ps != [] ==> PieceOk(ps[0]) && PiecesOk(ps[1..])
  }

  function StrText(chars: seq<StrChar>): string {
    if chars == [] then "" else StrCharText(chars[0]) + StrText(chars[1..])
  }

  function StrCharText(c: StrChar): string {
    match c
    case Raw(c) => [c]
    case Esc(c) => ['\\', c]
  }

  function PieceText(p: Piece): string {
    match p
    case Plain(c) => [c]
    case Str(chars) => "\"" + StrText(chars) + "\""
    case Braces(inner) => "{" + PiecesText(inner) + "}"
  }

  function PiecesText(ps: seq<Piece>): string {
    if ps == [] then "" else PieceText(ps[0]) + PiecesText(ps[1..])
  }

  lemma Consume(c: char, s: string, depth: nat, inStr: bool, esc: bool)
    ensures Scan([c] + s, depth, inStr, esc) ==
      if esc then More(1, Scan(s, depth, inStr, false))
      else if c == '\\' && inStr then More(1, Scan(s, depth, inStr, true))
      else if c == '"' then More(1, Scan(s, depth, !inStr, false))
      else if inStr then More(1, Scan(s, depth, inStr, false))
      else if c == '{' then More(1, Scan(s, depth + 1, inStr, false))
      else if c == '}' then (if depth <= 1 then Some(1) else More(1, Scan(s, depth - 1, inStr, false)))
      else More(1, Scan(s, depth, inStr, false))
  {
    assert ([c] + s)[1..] == s;
  }

  lemma {:induction false} ScanString(chars: seq<StrChar>, rest: string, depth: nat)
    requires forall k :: 0 <= k < |chars| ==> StrCharOk(chars[k])
    ensures Scan(StrText(chars) + rest, depth, true, false) == More(|StrText(chars)|, Scan(rest, depth, true, false))
  {
    hide Scan;
    if chars == [] {
      assert "" + rest == rest;
    } else {
      var more := StrText(chars[1..]);
      ScanString(chars[1..], rest, depth);
      match chars[0] {
        case Raw(c) =>
          assert StrText(chars) + rest == [c] + (more + rest);
          Consume(c, more + rest, depth, true, false);
        case Esc(c) =>
          assert StrText(chars) + rest == ['\\'] + ([c] + (more + rest));
          Consume('\\', [c] + (more + rest), depth, true, false);
          Consume(c, more + rest, depth, true, true);
      }
    }
  }

  lemma {:induction false} ScanPieces(ps: seq<Piece>, rest: string, depth: nat)
    requires PiecesOk(ps) && depth >= 1
    ensures Scan(PiecesText(ps) + rest, depth, false, false) == More(|PiecesText(ps)|, Scan(rest, depth, false, false))
    decreases ps, 1
  {
    hide Scan;
    if ps == [] {
      assert "" + rest == rest;
    } else {
      var more := PiecesText(ps[1..]) + rest;
      ScanPiece(ps[0], more, depth);
      ScanPieces(ps[1..], rest, depth);
      assert PiecesText(ps) + rest == PieceText(ps[0]) + more;
    }
  }

  lemma {:induction false} ScanPiece(p: Piece, rest: string, depth: nat)
    requires PieceOk(p) && (depth >= 1 || p.Braces?)
    ensures Scan(PieceText(p) + rest, depth, false, false) ==
      if depth == 0 then Some(|PieceText(p)|) else More(|PieceText(p)|, Scan(rest, depth, false, false))
    decreases p, 0
  {
    hide Scan;
    match p {
      case Plain(c) =>
        Consume(c, rest, depth, false, false);
      case Str(chars) =>
        var tail := "\"" + rest;
        assert PieceText(p) + rest == ['"'] + (StrText(chars) + tail);
        Consume('"', StrText(chars) + tail, depth, false, false);
        ScanString(chars, tail, depth);
        Consume('"', rest, depth, true, false);
        assert ['"'] + rest == tail;
      case Braces(inner) =>
        var tail := "}" + rest;
        assert PieceText(p) + rest == ['{'] + (PiecesText(inner) + tail);
        Consume('{', PiecesText(inner) + tail, depth, false, false);
        ScanPieces(inner, tail, depth + 1);
        Consume('}', rest, depth + 1, false, false);
        assert ['}'] + rest == tail;
    }
  }

  /* ----- everything the scanner accepts is balanced ----- */

  /** Texts that each end in a closing brace: one for every open one. */
  function Closing(levels: seq<seq<Piece>>): string {
    if levels == [] then "" else PiecesText(levels[0]) + "}" + Closing(levels[1..])
  }

  predicate LevelsOk(levels: seq<seq<Piece>>) {
    forall k :: 0 <= k < |levels| ==> PiecesOk(levels[k])
  }

  function Pushed(p: Piece, levels: seq<seq<Piece>>): seq<seq<Piece>>
    requires levels != []
    ensures |Pushed(p, levels)| == |levels|
  {
    [[p] + levels[0]] + levels[1..]
  }

  lemma PushedText(p: Piece, levels: seq<seq<Piece>>)
    requires levels != []
    ensures Closing(Pushed(p, levels)) == PieceText(p) + Closing(levels)
    ensures PieceOk(p) && LevelsOk(levels) ==> LevelsOk(Pushed(p, levels))
  {
    hide PieceText, PieceOk;
    var l := [p] + levels[0];
    assert l[1..] == levels[0];
    assert PieceText(p) + PiecesText(levels[0]) + "}" + Closing(levels[1..]) ==
      PieceText(p) + (PiecesText(levels[0]) + "}" + Closing(levels[1..]));
    assert Pushed(p, levels)[1..] == levels[1..];
  }

  lemma {:induction false} AcceptedIsBalanced(s: string, depth: nat) returns (levels: seq<seq<Piece>>)
    requires depth >= 1 && Scan(s, depth, false, false).Some?
    ensures |levels| == depth && LevelsOk(levels) && s[..Scan(s, depth, false, false).value] == Closing(levels)
    decreases |s|
  {
    hide PieceText, Closing, Pushed, PieceOk;
    var c, rest := s[0], s[1..];
    var n := Scan(s, depth, false, false).value;
    assert s == [c] + rest && s[..n] == [c] + rest[..n - 1];
    if c == '"' {
      var chars;
      chars, levels := AcceptedInString(rest, depth, false);
      StringPiece(c, chars, levels);
      levels := Pushed(Str(chars), levels);
    } else if c == '{' {
      var inner := AcceptedIsBalanced(rest, depth + 1);
      levels := BracePiece(inner);
    } else if c == '}' {
      if depth == 1 {
        levels := [[]] + [];
        CloseOne([]);
      } else {
        var more := AcceptedIsBalanced(rest, depth - 1);
        levels := [[]] + more;
        CloseOne(more);
      }
    } else {
      var more := AcceptedIsBalanced(rest, depth);
      PlainText(c);
      PushedText(Plain(c), more);
      levels := Pushed(Plain(c), more);
    }
  }

  lemma PlainText(c: char)
    ensures PieceText(Plain(c)) == [c]
    ensures c != '"' && c != '{' && c != '}' ==> PieceOk(Plain(c))
  {}

  lemma CloseOne(more: seq<seq<Piece>>)
    ensures Closing([[]] + more) == "}" + Closing(more)
    ensures Closing([]) == ""
  {
    assert ([[]] + more)[1..] == more;
    assert "" + "}" + Closing(more) == "}" + Closing(more);
  }

  lemma StringPiece(c: char, chars: seq<StrChar>, levels: seq<seq<Piece>>)
    requires c == '"' && levels != [] && LevelsOk(levels) && forall k :: 0 <= k < |chars| ==> StrCharOk(chars[k])
    ensures [c] + (StrText(chars) + "\"" + Closing(levels)) == Closing(Pushed(Str(chars), levels))
    ensures LevelsOk(Pushed(Str(chars), levels))
  {
    PushedText(Str(chars), levels);
    assert "\"" + StrText(chars) + "\"" + Closing(levels) == [c] + (StrText(chars) + "\"" + Closing(levels));
  }

  lemma BracePiece(inner: seq<seq<Piece>>) returns (levels: seq<seq<Piece>>)
    requires |inner| >= 2 && LevelsOk(inner)
    ensures |levels| == |inner| - 1 && LevelsOk(levels)
    ensures "{" + Closing(inner) == Closing(levels)
  {
    hide PieceText;
    var p, more := Braces(inner[0]), inner[1..];
    PushedText(p, more);
    levels := Pushed(p, more);
    BracesText(inner[0]);
    assert "{" + (PiecesText(inner[0]) + "}" + Closing(more)) == "{" + PiecesText(inner[0]) + "}" + Closing(more);
  }

  lemma BracesText(inner: seq<Piece>)
    ensures PieceText(Braces(inner)) == "{" + PiecesText(inner) + "}"
  {}

  lemma {:induction false} AcceptedInString(
      s: string, depth: nat, esc: bool) returns (chars: seq<StrChar>, levels: seq<seq<Piece>>)
    requires depth >= 1 && Scan(s, depth, true, esc).Some?
    ensures |levels| == depth && LevelsOk(levels) && forall k :: 0 <= k < |chars| ==> StrCharOk(chars[k])
    ensures esc ==> chars != [] && chars[0].Esc?
    ensures
      var text := s[..Scan(s, depth, true, esc).value];
      (if esc then "\\" + text else text) == StrText(chars) + "\"" + Closing(levels)
    decreases |s|
  {
    hide Closing, StrText;
    var c, rest := s[0], s[1..];
    var n := Scan(s, depth, true, esc).value;
    assert s[..n] == [c] + rest[..n - 1];
    if esc {
      var more;
      more, levels := AcceptedInString(rest, depth, false);
      chars := [Esc(c)] + more;
      StringGrows(Esc(c), more, Closing(levels));
      assert "\\" + ([c] + rest[..n - 1]) == ['\\', c] + rest[..n - 1];
    } else if c == '\\' {
      chars, levels := AcceptedInString(rest, depth, true);
    } else if c == '"' {
      chars := [];
      EmptyString();
      levels := AcceptedIsBalanced(rest, depth);
      assert "" + "\"" + Closing(levels) == [c] + Closing(levels);
    } else {
      var more;
      more, levels := AcceptedInString(rest, depth, false);
      chars := [Raw(c)] + more;
      StringGrows(Raw(c), more, Closing(levels));
    }
  }

  lemma EmptyString()
    ensures StrText([]) == ""
  {}

  lemma StringGrows(c: StrChar, more: seq<StrChar>, tail: string)
    ensures StrText([c] + more) + "\"" + tail == StrCharText(c) + (StrText(more) + "\"" + tail)
  {
    hide StrCharText;
    assert ([c] + more)[1..] == more;
    var one := StrCharText(c);
    assert one + StrText(more) + "\"" + tail == one + (StrText(more) + "\"" + tail);
  }

  /* ----- main results ----- */

  /** The text holds a balanced object behind a prefix without an opening brace. */
  ghost predicate HoldsObject(s: string, prefix: string, inner: seq<Piece>, suffix: string) {
    '{' !in prefix && PiecesOk(inner) && s == prefix + (PieceText(Braces(inner)) + suffix)
  }

  lemma {:induction false} BraceIndexIs(prefix: string, rest: string)
    requires '{' !in prefix && rest != "" && rest[0] == '{'
    ensures BraceIndex(prefix + rest) == |prefix|
  {
    if prefix == "" {
      assert prefix + rest == rest;
    } else {
      assert prefix[0] in prefix && (prefix + rest)[1..] == prefix[1..] + rest;
      BraceIndexIs(prefix[1..], rest);
    }
  }

  /** A balanced object is extracted, whatever stands in its strings and behind it. */
  lemma {:induction false} BalancedIsExtracted(s: string, prefix: string, inner: seq<Piece>, suffix: string)
    requires HoldsObject(s, prefix, inner, suffix)
    ensures Extracted(s) == Some(PieceText(Braces(inner)))
  {
    hide Scan;
    var whole := PieceText(Braces(inner));
    BraceIndexIs(prefix, whole + suffix);
    assert s[|prefix|..] == whole + suffix;
    ScanPiece(Braces(inner), suffix, 0);
    assert s[|prefix|..|prefix| + |whole|] == whole;
  }

  /** And nothing else ever is. */
  lemma {:induction false} ExtractedIsBalanced(s: string) returns (prefix: string, inner: seq<Piece>, suffix: string)
    requires Extracted(s).Some?
    ensures HoldsObject(s, prefix, inner, suffix) && Extracted(s).value == PieceText(Braces(inner))
  {
    hide Scan, Closing, LevelsOk;
    var start := BraceIndex(s);
    var rest := s[start + 1..];
    assert s[start..] == ['{'] + rest;
    Consume('{', rest, 0, false, false);
    var levels := AcceptedIsBalanced(rest, 1);
    OneLevel(levels);
    inner := levels[0];
    var n := Scan(rest, 1, false, false).value;
    prefix, suffix := s[..start], rest[n..];
    TakeApart(s, start, n, PiecesText(inner));
  }

  lemma OneLevel(levels: seq<seq<Piece>>)
    requires |levels| == 1 && LevelsOk(levels)
    ensures Closing(levels) == PiecesText(levels[0]) + "}" && PiecesOk(levels[0])
  {
    assert levels[1..] == [];
    assert PiecesText(levels[0]) + "}" + "" == PiecesText(levels[0]) + "}";
  }

  lemma TakeApart(s: string, start: nat, n: nat, body: string)
    requires start < |s| && s[start] == '{' && n <= |s| - start - 1 && s[start + 1..][..n] == body + "}"
    ensures s == s[..start] + ("{" + body + "}" + s[start + 1..][n..])
    ensures s[start..start + (1 + n)] == "{" + body + "}"
  {
    var rest := s[start + 1..];
    assert "{" + body + "}" == ['{'] + rest[..n];
    assert ['{'] + rest[..n] + rest[n..] == ['{'] + rest == s[start..];
  }

  /** The function succeeds exactly on texts whose first brace opens a balanced object. */
  lemma {:induction false} ExtractsIff(s: string)
    ensures Extracted(s).Some? <==> exists prefix, inner, suffix :: HoldsObject(s, prefix, inner, suffix)
  {
    hide HoldsObject, Extracted;
    if Extracted(s).Some? {
      var prefix, inner, suffix := ExtractedIsBalanced(s);
    }
    if exists prefix, inner, suffix :: HoldsObject(s, prefix, inner, suffix) {
      var prefix, inner, suffix :| HoldsObject(s, prefix, inner, suffix);
      BalancedIsExtracted(s, prefix, inner, suffix);
    }
  }

  /* ----- JSON as it may be spelled ----- */

  /** One character of a string, section 7 of RFC 8259: itself, a two-character escape, or four hex digits. */
  datatype JsonChar = Unescaped(c: char) | Short(c: char) | Hex(digits: string)

  /** A value together with its spelling: `blank` and the like are the white space between the tokens. */
  datatype Json =
    | JNull
    | JBool(b: bool)
    | JNumber(text: string)
    | JString(chars: seq<JsonChar>)
    | JArray(items: seq<Item>, blank: string)
    | JObject(members: seq<Member>, blank: string)

  datatype Item = Item(before: string, value: Json, after: string)

  datatype Member = Member(before: string, key: seq<JsonChar>, afterKey: string, beforeValue: string, value: Json,
    after: string)

  /** White space, section 2 of RFC 8259. */
  predicate IsBlank(s: string) {
    forall i :: 0 <= i < |s| ==> s[i] == ' ' || s[i] == '\t' || s[i] == '\n' || s[i] == '\r'
  }

  /** The characters of numbers, section 6 of RFC 8259. */
  predicate IsNumberChar(c: char) {
    '0' <= c <= '9' || c == '-' || c == '+' || c == '.' || c == 'e' || c == 'E'
  }

  predicate IsHexDigit(c: char) {
    '0' <= c <= '9' || 'a' <= c <= 'f' || 'A' <= c <= 'F'
  }

  predicate JsonCharOk(c: JsonChar) {
    match c
    case Unescaped(c) => c >= ' ' && c != '"' && c != '\\'
    case Short(c) => c in "\"\\/bfnrt"
    case Hex(digits) => |digits| == 4 && forall i :: 0 <= i < 4 ==> IsHexDigit(digits[i])
  }

  predicate StringOk(chars: seq<JsonChar>) {
    forall i :: 0 <= i < |chars| ==> JsonCharOk(chars[i])
  }

  predicate JsonOk(v: Json) {
    match v
    case JNumber(text) => text != "" && forall i :: 0 <= i < |text| ==> IsNumberChar(text[i])
    case JString(chars) => StringOk(chars)
    case JArray(items, blank) =>
      IsBlank(blank) && forall i <- items :: IsBlank(i.before) && IsBlank(i.after) && JsonOk(i.value)
    case JObject(members, blank) =>
      IsBlank(blank) && forall m <- members ::
        && IsBlank(m.before) && StringOk(m.key) && IsBlank(m.afterKey) && IsBlank(m.beforeValue) && IsBlank(m.after)
        && JsonOk(m.value)
    case _ => true
  }

  function CharText(c: JsonChar): string {
    match c
    case Unescaped(c) => [c]
    case Short(c) => ['\\', c]
    case Hex(digits) => "\\u" + digits
  }

  function CharsText(chars: seq<JsonChar>): string {
    if chars == [] then "" else CharText(chars[0]) + CharsText(chars[1..])
  }

  function Quoted(chars: seq<JsonChar>): string {
    "\"" + CharsText(chars) + "\""
  }

  function JsonText(v: Json): string {
    match v
    case JNull => "null"
    case JBool(b) => if b then "true" else "false"
    case JNumber(text) => text
    case JString(chars) => Quoted(chars)
    case JArray(items, blank) => "[" + (if items == [] then blank else ItemsText(items)) + "]"
    case JObject(members, blank) => "{" + (if members == [] then blank else MembersText(members)) + "}"
  }

  function ItemsText(items: seq<Item>): string {
    if items == [] then ""
    else
      var i := items[0];
      i.before + JsonText(i.value) + i.after + Comma(|items|) + ItemsText(items[1..])
  }

  function MembersText(members: seq<Member>): string {
    if members == [] then ""
    else
      var m := members[0];
      m.before + Quoted(m.key) + m.afterKey + ":" + m.beforeValue + JsonText(m.value) + m.after
      + Comma(|members|) + MembersText(members[1..])
  }

  function Comma(left: nat): string {
    if left > 1 then "," else ""
  }

  /** A text that is balanced as it stands. */
  ghost predicate Balanced(s: string) {
    exists ps :: PiecesOk(ps) && PiecesText(ps) == s
  }

  lemma {:induction false} PiecesJoin(a: seq<Piece>, b: seq<Piece>)
    requires PiecesOk(a) && PiecesOk(b)
    ensures PiecesOk(a + b) && PiecesText(a + b) == PiecesText(a) + PiecesText(b)
  {
    hide PieceText, PieceOk;
    if a == [] {
      assert a + b == b;
    } else {
      PiecesJoin(a[1..], b);
      assert (a + b)[1..] == a[1..] + b;
      Associates(PieceText(a[0]), PiecesText(a[1..]), PiecesText(b));
    }
  }

  lemma BalancedJoin(a: string, b: string)
    requires Balanced(a) && Balanced(b)
    ensures Balanced(a + b)
  {
    var p :| PiecesOk(p) && PiecesText(p) == a;
    var q :| PiecesOk(q) && PiecesText(q) == b;
    PiecesJoin(p, q);
  }

  lemma OnePiece(p: Piece)
    requires PieceOk(p)
    ensures Balanced(PieceText(p))
  {
    hide PieceText, PieceOk;
    assert [p][1..] == [];
    assert PiecesText([p]) == PieceText(p) + "" == PieceText(p);
    assert PiecesOk([p]);
  }

  lemma {:induction false} PlainIsBalanced(s: string)
    requires '"' !in s && '{' !in s && '}' !in s
    ensures Balanced(s)
  {
    if s == "" {
      assert PiecesOk([]) && PiecesText([]) == "";
    } else {
      assert s[0] in s;
      PlainIsBalanced(s[1..]);
      OnePiece(Plain(s[0]));
      BalancedJoin([s[0]], s[1..]);
      assert [s[0]] + s[1..] == s;
    }
  }

  lemma BlankIsBalanced(s: string)
    requires IsBlank(s)
    ensures Balanced(s)
  {
    PlainIsBalanced(s);
  }

  /* ----- strings ----- */

  function StrCharsOf(c: JsonChar): seq<StrChar> {
    match c
    case Unescaped(c) => [Raw(c)]
    case Short(c) => [Esc(c)]
    case Hex(digits) => [Esc('u')] + seq(|digits|, i requires 0 <= i < |digits| => Raw(digits[i]))
  }

  lemma {:induction false} RawText(s: string)
    ensures StrText(seq(|s|, i requires 0 <= i < |s| => Raw(s[i]))) == s
  {
    if s != "" {
      RawText(s[1..]);
      var t := seq(|s|, i requires 0 <= i < |s| => Raw(s[i]));
      assert t[1..] == seq(|s[1..]|, i requires 0 <= i < |s[1..]| => Raw(s[1..][i]));
    }
  }

  lemma CharIsString(c: JsonChar)
    requires JsonCharOk(c)
    ensures StrText(StrCharsOf(c)) == CharText(c)
    ensures forall k :: 0 <= k < |StrCharsOf(c)| ==> StrCharOk(StrCharsOf(c)[k])
  {
    match c
    case Unescaped(x) => assert [Raw(x)][1..] == [];
    case Short(x) => assert [Esc(x)][1..] == [];
    case Hex(digits) =>
      RawText(digits);
      assert StrCharsOf(c)[1..] == seq(|digits|, i requires 0 <= i < |digits| => Raw(digits[i]));
      assert "\\u" == ['\\', 'u'];
  }

  lemma {:induction false} StringIsBalanced(chars: seq<JsonChar>) returns (r: seq<StrChar>)
    requires StringOk(chars)
    ensures StrText(r) == CharsText(chars) && forall k :: 0 <= k < |r| ==> StrCharOk(r[k])
  {
    hide StrText, StrCharOk, JsonCharOk, StrCharsOf, CharText;
    r := [];
    if chars == [] {
      EmptyString();
    } else {
      var rest := StringIsBalanced(chars[1..]);
      CharIsString(chars[0]);
      StrTextAppend(StrCharsOf(chars[0]), rest);
      r := StrCharsOf(chars[0]) + rest;
    }
  }

  lemma {:induction false} StrTextAppend(a: seq<StrChar>, b: seq<StrChar>)
    ensures StrText(a + b) == StrText(a) + StrText(b)
  {
    hide StrCharText;
    if a == [] {
      assert a + b == b;
    } else {
      StrTextAppend(a[1..], b);
      assert (a + b)[1..] == a[1..] + b;
      Associates(StrCharText(a[0]), StrText(a[1..]), StrText(b));
    }
  }

  lemma QuotedIsBalanced(chars: seq<JsonChar>)
    requires StringOk(chars)
    ensures Balanced(Quoted(chars))
  {
    hide StringOk, Balanced;
    var r := StringIsBalanced(chars);
    OnePiece(Str(r));
  }

  /* ----- values ----- */

  lemma BracesAreBalanced(body: string)
    requires Balanced(body)
    ensures Balanced("{" + body + "}")
  {
    var ps :| PiecesOk(ps) && PiecesText(ps) == body;
    OnePiece(Braces(ps));
  }

  lemma {:induction false} JsonIsBalanced(v: Json)
    requires JsonOk(v)
    ensures Balanced(JsonText(v))
    decreases v, 2
  {
    hide Balanced, IsBlank, StringOk;
    match v {
      case JNull => PlainIsBalanced("null");
      case JBool(b) =>
        PlainIsBalanced("true");
        PlainIsBalanced("false");
      case JNumber(text) => PlainIsBalanced(text);
      case JString(chars) => QuotedIsBalanced(chars);
      case JArray(items, blank) =>
        BlankIsBalanced(blank);
        ItemsAreBalanced(v, items);
        PlainIsBalanced("[");
        PlainIsBalanced("]");
        var body := if items == [] then blank else ItemsText(items);
        BalancedJoin("[", body);
        BalancedJoin("[" + body, "]");
      case JObject(members, blank) =>
        BodyIsBalanced(v);
        BracesAreBalanced(if members == [] then blank else MembersText(members));
    }
  }

  lemma {:induction false} BodyIsBalanced(v: Json)
    requires v.JObject? && JsonOk(v)
    ensures Balanced(if v.members == [] then v.blank else MembersText(v.members))
    decreases v, 1, |v.members| + 1
  {
    hide Balanced, IsBlank, StringOk;
    BlankIsBalanced(v.blank);
    MembersAreBalanced(v, v.members);
  }

  lemma CommaIsBalanced(left: nat)
    ensures Balanced(Comma(left)) && Balanced(":") && Balanced("")
  {
    PlainIsBalanced(",");
    PlainIsBalanced("");
    PlainIsBalanced(":");
  }

  lemma {:induction false} ItemsAreBalanced(v: Json, items: seq<Item>)
    requires forall i <- items :: i.value < v && IsBlank(i.before) && IsBlank(i.after) && JsonOk(i.value)
    ensures Balanced(ItemsText(items))
    decreases v, 1, |items|
  {
    hide Balanced, JsonOk, IsBlank, Comma;
    CommaIsBalanced(|items|);
    if items != [] {
      var i := items[0];
      assert i in items;
      JsonIsBalanced(i.value);
      ItemsAreBalanced(v, items[1..]);
      BlankIsBalanced(i.before);
      BlankIsBalanced(i.after);
      BalancedJoin(i.before, JsonText(i.value));
      BalancedJoin(i.before + JsonText(i.value), i.after);
      BalancedJoin(i.before + JsonText(i.value) + i.after, Comma(|items|));
      BalancedJoin(i.before + JsonText(i.value) + i.after + Comma(|items|), ItemsText(items[1..]));
    }
  }

  lemma KeyIsBalanced(m: Member)
    requires IsBlank(m.before) && StringOk(m.key) && IsBlank(m.afterKey) && IsBlank(m.beforeValue)
    ensures Balanced(m.before + Quoted(m.key) + m.afterKey + ":" + m.beforeValue)
  {
    hide Balanced, IsBlank, StringOk, Quoted;
    CommaIsBalanced(0);
    BlankIsBalanced(m.before);
    BlankIsBalanced(m.afterKey);
    BlankIsBalanced(m.beforeValue);
    QuotedIsBalanced(m.key);
    BalancedJoin(m.before, Quoted(m.key));
    BalancedJoin(m.before + Quoted(m.key), m.afterKey);
    BalancedJoin(m.before + Quoted(m.key) + m.afterKey, ":");
    BalancedJoin(m.before + Quoted(m.key) + m.afterKey + ":", m.beforeValue);
  }

  lemma {:induction false} MembersAreBalanced(v: Json, members: seq<Member>)
    requires forall m <- members ::
      && m.value < v
      && IsBlank(m.before) && StringOk(m.key) && IsBlank(m.afterKey) && IsBlank(m.beforeValue) && IsBlank(m.after)
      && JsonOk(m.value)
    ensures Balanced(MembersText(members))
    decreases v, 1, |members|
  {
    hide Balanced, JsonOk, Quoted, IsBlank, StringOk, Comma;
    CommaIsBalanced(|members|);
    if members != [] {
      var m := members[0];
      assert m in members;
      KeyIsBalanced(m);
      JsonIsBalanced(m.value);
      BlankIsBalanced(m.after);
      MembersAreBalanced(v, members[1..]);
      var key := m.before + Quoted(m.key) + m.afterKey + ":" + m.beforeValue;
      BalancedJoin(key, JsonText(m.value));
      BalancedJoin(key + JsonText(m.value), m.after);
      BalancedJoin(key + JsonText(m.value) + m.after, Comma(|members|));
      BalancedJoin(key + JsonText(m.value) + m.after + Comma(|members|), MembersText(members[1..]));
    }
  }

  /**
   Every JSON object, however it is spelled, is extracted whole from whatever a
   model wraps it in, as long as no opening brace comes before it.
   */
  lemma {:induction false} JsonObjectIsExtracted(prefix: string, v: Json, suffix: string)
    requires v.JObject? && JsonOk(v) && '{' !in prefix
    ensures Extracted(prefix + (JsonText(v) + suffix)) == Some(JsonText(v))
  {
    hide Extracted, PiecesOk, JsonOk;
    BodyIsBalanced(v);
    var body := if v.members == [] then v.blank else MembersText(v.members);
    var inner :| PiecesOk(inner) && PiecesText(inner) == body;
    BracesText(inner);
    BalancedIsExtracted(prefix + (JsonText(v) + suffix), prefix, inner, suffix);
  }
}
