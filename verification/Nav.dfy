/** `nav.go` and `navmap.go`: placing every page in the listing of its parent hub. */
module Nav {
  import opened Text

  /* ----- placements ----- */

  datatype Placement = Placement(
    parent: string, section: string, order: int, caption: string, blurb: string, area: string)

  datatype PageNav = PageNav(page: string, nav: Placement)

  datatype Member = Member(
    page: string, section: string, order: int, caption: string, blurb: string, area: string)

  /** `strings.LastIndex(title, "/")` */
  function LastSlash(title: string): (i: int)
    ensures -1 <= i < |title|
    ensures i >= 0 ==> title[i] == '/'
    ensures forall k :: i < k < |title| ==> title[k] != '/'
  {
    if title == "" then -1
    else if title[|title| - 1] == '/' then |title| - 1
    else LastSlash(title[..|title| - 1])
  }

  function SubpathParent(title: string): string {
    var i := LastSlash(title);
    if i >= 0 then title[..i] else ""
  }

  function LastSegment(title: string): string {
    title[LastSlash(title) + 1..]
  }

  function DeUnderscore(s: string): (r: string)
    ensures |r| == |s| && forall i :: 0 <= i < |s| ==> r[i] == if s[i] == '_' then ' ' else s[i]
  {
    if s == "" then "" else [if s[0] == '_' then ' ' else s[0]] + DeUnderscore(s[1..])
  }

  function Resolve(page: string, declared: Placement): Placement {
    declared.(
      parent := if declared.parent == "" then SubpathParent(page) else declared.parent,
      caption := if declared.caption == "" then DeUnderscore(LastSegment(page)) else declared.caption)
  }

  function ParentOf(p: PageNav): string {
    Resolve(p.page, p.nav).parent
  }

  function MemberOf(p: PageNav): Member {
    var r := Resolve(p.page, p.nav);
    Member(p.page, r.section, r.order, r.caption, r.blurb, r.area)
  }

  /** The parent and the last segment of a subpage are its two sides of the last slash. */
  lemma {:induction false} SubpageSplits(title: string)
    requires '/' in title
    ensures SubpathParent(title) + "/" + LastSegment(title) == title
    ensures '/' !in LastSegment(title)
  {
    var k :| 0 <= k < |title| && title[k] == '/';
  }

  /* ----- the order of a listing ----- */

  datatype Key = Key(section: string, order: int, caption: string)

  function KeyOf(m: Member): Key {
    Key(m.section, m.order, m.caption)
  }

  predicate KeyBelow(a: Key, b: Key) {
    if a.section != b.section then Below(a.section, b.section)
    else if a.order != b.order then a.order < b.order
    else Below(a.caption, b.caption)
  }

  lemma KeysAreOrdered(a: Key, b: Key, c: Key)
    ensures a == b || KeyBelow(a, b) || KeyBelow(b, a)
    ensures !(KeyBelow(a, b) && KeyBelow(b, a))
    ensures KeyBelow(a, b) && KeyBelow(b, c) ==> KeyBelow(a, c)
  {
    BelowIsTotal(a.section, b.section);
    BelowIsTotal(a.caption, b.caption);
    if Below(a.section, b.section) && Below(b.section, c.section) {
      BelowIsTransitive(a.section, b.section, c.section);
      BelowIsTotal(a.section, c.section);
    }
    if Below(a.caption, b.caption) && Below(b.caption, c.caption) {
      BelowIsTransitive(a.caption, b.caption, c.caption);
    }
  }

  ghost predicate Sorted(s: seq<Member>) {
    forall i, j :: 0 <= i < j < |s| ==> !KeyBelow(KeyOf(s[j]), KeyOf(s[i]))
  }

  function OfKey(s: seq<Member>, k: Key): seq<Member> {
    if s == [] then [] else (if KeyOf(s[0]) == k then [s[0]] else []) + OfKey(s[1..], k)
  }

  /** `t` is what a stable sort makes of `s`: in order, and members with equal keys stay as they were. */
  ghost predicate IsStableSort(s: seq<Member>, t: seq<Member>) {
    Sorted(t) && forall k :: OfKey(t, k) == OfKey(s, k)
  }

  function Insert(m: Member, s: seq<Member>): seq<Member> {
    if s == [] || !KeyBelow(KeyOf(s[0]), KeyOf(m)) then [m] + s else [s[0]] + Insert(m, s[1..])
  }

  /** `sort.SliceStable` */
  function SliceStable(s: seq<Member>): seq<Member> {
    if s == [] then [] else Insert(s[0], SliceStable(s[1..]))
  }

  lemma {:induction false} InsertKeepsMembers(m: Member, s: seq<Member>)
    ensures multiset(Insert(m, s)) == multiset([m] + s)
  {
    if s != [] && KeyBelow(KeyOf(s[0]), KeyOf(m)) {
      InsertKeepsMembers(m, s[1..]);
      assert s == [s[0]] + s[1..];
    }
  }

  lemma {:induction false} InsertSorts(m: Member, s: seq<Member>)
    requires Sorted(s)
    ensures Sorted(Insert(m, s))
  {
    hide KeyBelow, KeyOf;
    if s == [] {
    } else if KeyBelow(KeyOf(s[0]), KeyOf(m)) {
      assert Sorted(s[1..]);
      InsertSorts(m, s[1..]);
      InsertKeepsMembers(m, s[1..]);
      KeysAreOrdered(KeyOf(s[0]), KeyOf(m), KeyOf(m));
      var r := Insert(m, s[1..]);
      forall j | 0 <= j < |r| ensures !KeyBelow(KeyOf(r[j]), KeyOf(s[0])) {
        assert r[j] in multiset(r);
        assert r[j] in [m] + s[1..];
      }
    } else {
      forall j | 0 <= j < |s| ensures !KeyBelow(KeyOf(s[j]), KeyOf(m)) {
        KeysAreOrdered(KeyOf(s[j]), KeyOf(m), KeyOf(s[0]));
        KeysAreOrdered(KeyOf(s[0]), KeyOf(s[j]), KeyOf(m));
      }
    }
  }

  lemma {:induction false} InsertIsStable(m: Member, s: seq<Member>, k: Key)
    ensures OfKey(Insert(m, s), k) == OfKey([m] + s, k)
  {
    hide KeyOf;
    assert ([m] + s)[1..] == s;
    if s != [] && KeyBelow(KeyOf(s[0]), KeyOf(m)) {
      KeysAreOrdered(KeyOf(s[0]), KeyOf(m), KeyOf(m));
      InsertIsStable(m, s[1..], k);
      assert ([m] + s[1..])[1..] == s[1..];
      assert ([s[0]] + Insert(m, s[1..]))[1..] == Insert(m, s[1..]);
    }
  }

  lemma {:induction false} SliceStableSorts(s: seq<Member>)
    ensures IsStableSort(s, SliceStable(s))
    ensures multiset(SliceStable(s)) == multiset(s)
  {
    hide KeyBelow, KeyOf, Insert;
    if s != [] {
      var rest := SliceStable(s[1..]);
      SliceStableSorts(s[1..]);
      InsertSorts(s[0], rest);
      InsertKeepsMembers(s[0], rest);
      assert s == [s[0]] + s[1..];
      forall k ensures OfKey(SliceStable(s), k) == OfKey(s, k) {
        InsertIsStable(s[0], rest, k);
        assert ([s[0]] + rest)[1..] == rest;
      }
    }
  }

  lemma {:induction false} OfKeyMeaning(s: seq<Member>, k: Key)
    ensures OfKey(s, k) == [] <==> forall i :: 0 <= i < |s| ==> KeyOf(s[i]) != k
  {
    hide KeyOf;
    if s != [] {
      OfKeyMeaning(s[1..], k);
    }
  }

  lemma FirstKey(t: seq<Member>, u: seq<Member>)
    requires Sorted(t) && Sorted(u) && t != [] && forall k :: OfKey(t, k) == OfKey(u, k)
    ensures u != [] && !KeyBelow(KeyOf(t[0]), KeyOf(u[0]))
  {
    hide KeyBelow, KeyOf;
    var k := KeyOf(t[0]);
    OfKeyMeaning(t, k);
    OfKeyMeaning(u, k);
    assert OfKey(t, k) == OfKey(u, k);
    var j :| 0 <= j < |u| && KeyOf(u[j]) == k;
    KeysAreOrdered(k, k, k);
  }

  lemma {:induction false} SortsAgree(t: seq<Member>, u: seq<Member>)
    requires Sorted(t) && Sorted(u) && forall k :: OfKey(t, k) == OfKey(u, k)
    ensures t == u
  {
    hide KeyBelow, KeyOf;
    if t == [] {
      if u != [] {
        OfKeyMeaning(u, KeyOf(u[0]));
        assert false;
      }
    } else {
      FirstKey(t, u);
      FirstKey(u, t);
      KeysAreOrdered(KeyOf(t[0]), KeyOf(u[0]), KeyOf(t[0]));
      var k := KeyOf(t[0]);
      assert OfKey(t, k) == [t[0]] + OfKey(t[1..], k) && OfKey(u, k) == [u[0]] + OfKey(u[1..], k);
      assert t[0] == OfKey(t, k)[0] == OfKey(u, k)[0] == u[0];
      forall k ensures OfKey(t[1..], k) == OfKey(u[1..], k) {
        assert OfKey(t, k) == OfKey(u, k);
        var first := if KeyOf(t[0]) == k then [t[0]] else [];
        assert OfKey(t, k)[|first|..] == OfKey(t[1..], k) && OfKey(u, k)[|first|..] == OfKey(u[1..], k);
      }
      SortsAgree(t[1..], u[1..]);
      assert t == [t[0]] + t[1..] && u == [u[0]] + u[1..];
    }
  }

  /** There is one stable sort of a listing. */
  lemma {:induction false} StableSortIsUnique(s: seq<Member>, t: seq<Member>)
    ensures IsStableSort(s, t) <==> t == SliceStable(s)
  {
    SliceStableSorts(s);
    if IsStableSort(s, t) {
      forall k ensures OfKey(t, k) == OfKey(SliceStable(s), k) {}
      SortsAgree(t, SliceStable(s));
    }
  }

  /* ----- the map ----- */

  /** The pages of a hub, as they come. */
  function MembersOf(pages: seq<PageNav>, parent: string): seq<Member> {
    if pages == [] then []
    else
      var last := pages[|pages| - 1];
      MembersOf(pages[..|pages| - 1], parent) + (if ParentOf(last) == parent then [MemberOf(last)] else [])
  }

  ghost predicate IsNavMap(m: map<string, seq<Member>>, pages: seq<PageNav>) {
    && (forall parent :: parent in m <==> exists i :: 0 <= i < |pages| && ParentOf(pages[i]) == parent)
    && (forall parent :: parent in m ==> m[parent] == SliceStable(MembersOf(pages, parent)))
  }

  ghost predicate Groups(m: map<string, seq<Member>>, pages: seq<PageNav>) {
    && (forall parent :: parent in m <==> MembersOf(pages, parent) != [])
    && (forall parent :: parent in m ==> m[parent] == MembersOf(pages, parent))
  }

  lemma {:induction false} MembersExist(pages: seq<PageNav>, parent: string)
    ensures MembersOf(pages, parent) != [] <==> exists i :: 0 <= i < |pages| && ParentOf(pages[i]) == parent
  {
    hide ParentOf, MemberOf;
    if pages != [] {
      var n := |pages| - 1;
      MembersExist(pages[..n], parent);
      assert forall i :: 0 <= i < n ==> pages[..n][i] == pages[i];
    }
  }

  /** One more page, in the group of its parent. */
  lemma GroupMore(m: map<string, seq<Member>>, pages: seq<PageNav>, i: nat)
    requires i < |pages| && Groups(m, pages[..i])
    ensures var parent := ParentOf(pages[i]);
      Groups(m[parent := (if parent in m then m[parent] else []) + [MemberOf(pages[i])]], pages[..i + 1])
  {
    hide ParentOf, MemberOf, MembersOf;
    forall parent
      ensures MembersOf(pages[..i + 1], parent) ==
        if ParentOf(pages[i]) == parent then MembersOf(pages[..i], parent) + [MemberOf(pages[i])]
          else MembersOf(pages[..i], parent)
    {
      MembersMore(pages, i, parent);
    }
  }

  lemma MembersMore(pages: seq<PageNav>, i: nat, parent: string)
    requires i < |pages|
    ensures MembersOf(pages[..i + 1], parent) ==
      if ParentOf(pages[i]) == parent then MembersOf(pages[..i], parent) + [MemberOf(pages[i])]
        else MembersOf(pages[..i], parent)
  {
    hide ParentOf, MemberOf;
    assert pages[..i + 1][..i] == pages[..i];
  }

  method Build(pages: seq<PageNav>) returns (m: map<string, seq<Member>>)
    ensures IsNavMap(m, pages)
  {
    m := map[];
    for i := 0 to |pages|
      invariant Groups(m, pages[..i])
    {
      hide Groups;
      var p := pages[i];
      GroupMore(m, pages, i);
      var r := Resolve(p.page, p.nav);
      var members := if r.parent in m then m[r.parent] else [];
      m := m[r.parent := members + [Member(p.page, r.section, r.order, r.caption, r.blurb, r.area)]];
    }
    assert pages[..|pages|] == pages;
    hide SliceStable, MembersOf, ParentOf;
    forall parent ensures parent in m <==> exists i :: 0 <= i < |pages| && ParentOf(pages[i]) == parent {
      MembersExist(pages, parent);
    }
    m := SortListings(m);
  }

  method SortListings(m: map<string, seq<Member>>) returns (r: map<string, seq<Member>>)
    ensures r.Keys == m.Keys
    ensures forall parent :: parent in m ==> r[parent] == SliceStable(m[parent])
  {
    hide SliceStable;
    r := m;
    var todo := m.Keys;
    while todo != {}
      invariant todo <= m.Keys == r.Keys
      invariant forall parent :: parent in m ==>
        r[parent] == if parent in todo then m[parent] else SliceStable(m[parent])
      decreases todo
    {
      var parent :| parent in todo;
      r := r[parent := SliceStable(r[parent])];
      todo := todo - {parent};
    }
  }

  /* ----- what is built ----- */

  /** How many of the pages are this member of this hub. */
  function Count(pages: seq<PageNav>, parent: string, m: Member): nat {
    if pages == [] then 0
    else
      var last := pages[|pages| - 1];
      Count(pages[..|pages| - 1], parent, m) + if ParentOf(last) == parent && MemberOf(last) == m then 1 else 0
  }

  lemma {:induction false} MembersAreCounted(pages: seq<PageNav>, parent: string, m: Member)
    ensures multiset(MembersOf(pages, parent))[m] == Count(pages, parent, m)
  {
    hide ParentOf, MemberOf;
    if pages != [] {
      MembersAreCounted(pages[..|pages| - 1], parent, m);
    }
  }

  /** A listing has every page of its hub as often as it was given, and no other. */
  lemma {:induction false} EveryPageIsListed(
      built: map<string, seq<Member>>, pages: seq<PageNav>, parent: string, m: Member)
    requires IsNavMap(built, pages)
    ensures (if parent in built then multiset(built[parent])[m] else 0) == Count(pages, parent, m)
  {
    hide SliceStable, MembersOf, Count;
    MembersAreCounted(pages, parent, m);
    SliceStableSorts(MembersOf(pages, parent));
    MembersExist(pages, parent);
  }

  lemma {:induction false} MembersOfPermutation(a: seq<PageNav>, b: seq<PageNav>, parent: string)
    requires multiset(a) == multiset(b)
    ensures multiset(MembersOf(a, parent)) == multiset(MembersOf(b, parent))
    decreases |a|
  {
    hide ParentOf, MemberOf, MembersOf;
    if a == [] {
      assert |multiset(b)| == |b|;
    } else {
      var n := |a| - 1;
      var last := a[n];
      assert last in multiset(a);
      var j :| 0 <= j < |b| && b[j] == last;
      WithoutOne(a, n);
      WithoutOne(b, j);
      assert a[n + 1..] == [] && a[..n] + [] == a[..n];
      MembersOfPermutation(a[..n], b[..j] + b[j + 1..], parent);
      MembersWithout(a, n, parent);
      MembersWithout(b, j, parent);
    }
  }

  lemma WithoutOne(s: seq<PageNav>, j: nat)
    requires j < |s|
    ensures multiset(s[..j] + s[j + 1..]) == multiset(s) - multiset{s[j]}
  {
    assert s == s[..j] + [s[j]] + s[j + 1..];
  }

  lemma MembersWithout(s: seq<PageNav>, j: nat, parent: string)
    requires j < |s|
    ensures multiset(MembersOf(s, parent)) ==
      multiset(MembersOf(s[..j] + s[j + 1..], parent)) + multiset(MembersOf([s[j]], parent))
  {
    hide MembersOf;
    MembersAppend(s[..j], s[j + 1..], parent);
    MembersAppend([s[j]], s[j + 1..], parent);
    MembersAppend(s[..j], [s[j]] + s[j + 1..], parent);
    assert s == s[..j] + ([s[j]] + s[j + 1..]);
  }

  lemma {:induction false} MembersAppend(a: seq<PageNav>, b: seq<PageNav>, parent: string)
    ensures MembersOf(a + b, parent) == MembersOf(a, parent) + MembersOf(b, parent)
  {
    hide ParentOf, MemberOf;
    if b == [] {
      assert a + b == a;
    } else {
      assert (a + b)[..|a + b| - 1] == a + b[..|b| - 1];
      MembersAppend(a, b[..|b| - 1], parent);
    }
  }

  ghost predicate DistinctKeys(s: seq<Member>) {
    forall i, j :: 0 <= i < j < |s| ==> KeyOf(s[i]) != KeyOf(s[j])
  }

  lemma {:induction false} OfDistinctKeys(s: seq<Member>, m: Member)
    requires DistinctKeys(s) && m in s
    ensures OfKey(s, KeyOf(m)) == [m]
  {
    hide KeyOf;
    if s[0] == m {
      OfKeyMeaning(s[1..], KeyOf(m));
    } else {
      assert DistinctKeys(s[1..]);
      var i :| 0 < i < |s| && s[i] == m;
      OfDistinctKeys(s[1..], m);
    }
  }

  /** Members with distinct keys are sorted alike in whatever order they come. */
  lemma DistinctKeysSortAlike(s: seq<Member>, t: seq<Member>)
    requires multiset(s) == multiset(t) && DistinctKeys(s) && DistinctKeys(t)
    ensures SliceStable(s) == SliceStable(t)
  {
    hide KeyOf, SliceStable, DistinctKeys;
    SliceStableSorts(s);
    SliceStableSorts(t);
    forall m ensures m in s <==> m in t {
      assert m in multiset(s) <==> m in multiset(t);
    }
    forall k ensures OfKey(s, k) == OfKey(t, k) {
      OfKeyMeaning(s, k);
      OfKeyMeaning(t, k);
      if m :| m in s && KeyOf(m) == k {
        OfDistinctKeys(s, m);
        OfDistinctKeys(t, m);
      } else if m :| m in t && KeyOf(m) == k {
        assert false;
      }
    }
    SortsAgree(SliceStable(s), SliceStable(t));
  }

  /** The map does not depend on the order of the pages when no hub has two members of one key. */
  lemma {:induction false} NavMapIsOrderIndependent(
      m: map<string, seq<Member>>, a: seq<PageNav>, n: map<string, seq<Member>>, b: seq<PageNav>)
    requires IsNavMap(m, a) && IsNavMap(n, b) && multiset(a) == multiset(b)
    requires forall parent :: parent in m ==> DistinctKeys(MembersOf(a, parent)) && DistinctKeys(MembersOf(b, parent))
    ensures m == n
  {
    hide ParentOf, SliceStable, DistinctKeys, MembersOf;
    forall parent ensures parent in m <==> parent in n {
      MembersExist(a, parent);
      MembersExist(b, parent);
      MembersOfPermutation(a, b, parent);
      assert MembersOf(a, parent) == [] <==> MembersOf(b, parent) == [] by {
        assert |multiset(MembersOf(a, parent))| == |multiset(MembersOf(b, parent))|;
      }
    }
    forall parent | parent in m ensures m[parent] == n[parent] {
      MembersOfPermutation(a, b, parent);
      DistinctKeysSortAlike(MembersOf(a, parent), MembersOf(b, parent));
    }
  }

  /* ----- what a placement and an order mean ----- */

  /** A declared parent or caption stands; otherwise the title's last slash gives them. */
  lemma {:induction false} ResolveMeaning(page: string, d: Placement)
    ensures var r := Resolve(page, d);
      && r.section == d.section && r.order == d.order && r.blurb == d.blurb && r.area == d.area
      && (d.parent != "" ==> r.parent == d.parent)
      && (d.caption != "" ==> r.caption == d.caption)
      && (d.parent == "" && '/' !in page ==> r.parent == "")
      && exists last ::
           && '/' !in last
           && (page == last || exists front :: page == front + "/" + last && (d.parent == "" ==> r.parent == front))
           && (d.caption == "" ==> Underscored(r.caption, last))
  {
    var last := LastSegment(page);
    if '/' in page {
      SubpageSplits(page);
    } else {
      assert last == page;
    }
    assert Underscored(DeUnderscore(last), last);
  }

  /** The caption is the segment with its underscores shown as spaces. */
  predicate Underscored(caption: string, segment: string) {
    |caption| == |segment| &&
    forall i :: 0 <= i < |segment| ==> caption[i] == if segment[i] == '_' then ' ' else segment[i]
  }

  /** A listing shows the page with what its placement says. */
  lemma {:induction false} MemberMeaning(p: PageNav)
    ensures var m, r := MemberOf(p), Resolve(p.page, p.nav);
      && m.page == p.page && m.section == r.section && m.order == r.order
      && m.caption == r.caption && m.blurb == r.blurb && m.area == r.area
    ensures ParentOf(p) == Resolve(p.page, p.nav).parent
  {}

  /** Listings go by section, then by order, then by caption. */
  lemma {:induction false} ListingOrder(
      built: map<string, seq<Member>>, pages: seq<PageNav>, parent: string, i: nat, j: nat)
    requires IsNavMap(built, pages) && parent in built && i < j < |built[parent]|
    ensures var a, b := built[parent][i], built[parent][j];
      || Below(a.section, b.section)
      || (a.section == b.section && a.order < b.order)
      || (a.section == b.section && a.order == b.order && (a.caption == b.caption || Below(a.caption, b.caption)))
  {
    hide SliceStable, Below;
    var a, b := built[parent][i], built[parent][j];
    SliceStableSorts(MembersOf(pages, parent));
    BelowIsTotal(a.section, b.section);
    BelowIsTotal(a.caption, b.caption);
    assert !KeyBelow(KeyOf(b), KeyOf(a));
  }
}
