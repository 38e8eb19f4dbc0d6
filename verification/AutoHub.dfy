/** `autohub.go`: filling the sections of an automatic hub with its members. */
module AutoHub {
  import opened Wrappers
  import opened Nav

  datatype HubLink = HubLink(page: string, caption: string, desc: string, area: string)
  datatype HubSection = HubSection(title: string, desc: string, links: seq<HubLink>)
  datatype Hub = Hub(auto: bool, sections: seq<HubSection>)
  datatype Spec = Spec(page: string, hub: Option<Hub>)

  const OTHER := "Other"

  function MemberLink(m: Member): HubLink {
    HubLink(m.page, m.caption, m.blurb, m.area)
  }

  /** The links of the members that satisfy `p`, in order. */
  function Links(members: seq<Member>, p: Member -> bool): seq<HubLink> {
    if members == [] then []
    else
      var last := members[|members| - 1];
      Links(members[..|members| - 1], p) + (if p(last) then [MemberLink(last)] else [])
  }

  function InSection(title: string): Member -> bool {
    (m: Member) => m.section == title
  }

  predicate Declared(sections: seq<HubSection>, title: string) {
    exists i :: 0 <= i < |sections| && sections[i].title == title
  }

  function Undeclared(sections: seq<HubSection>): Member -> bool {
    (m: Member) => !Declared(sections, m.section)
  }

  function Filled(s: HubSection, members: seq<Member>): HubSection {
    HubSection(s.title, s.desc, Links(members, InSection(s.title)))
  }

  function FilledAll(sections: seq<HubSection>, members: seq<Member>): (r: seq<HubSection>)
    ensures |r| == |sections| && forall i :: 0 <= i < |r| ==> r[i] == Filled(sections[i], members)
  {
    seq(|sections|, i requires 0 <= i < |sections| => Filled(sections[i], members))
  }

  /** The pages that named the hub as their parent; none for a hub that nobody names. */
  function MembersOf(spec: Spec, m: map<string, seq<Member>>): seq<Member> {
    if spec.page in m then m[spec.page] else []
  }

  function Expanded(spec: Spec, m: map<string, seq<Member>>): Spec {
    if spec.hub.None? || !spec.hub.value.auto then spec
    else
      var members := MembersOf(spec, m);
      var sections := spec.hub.value.sections;
      var other := Links(members, Undeclared(sections));
      var out := FilledAll(sections, members) + if other == [] then [] else [HubSection(OTHER, "", other)];
      spec.(hub := Some(spec.hub.value.(sections := out)))
  }

  method ExpandAuto(spec: Spec, m: map<string, seq<Member>>) returns (r: Spec)
    ensures r == Expanded(spec, m)
  {
    hide Links, Declared, Undeclared, Declarations, MemberLink;
    if spec.hub.None? || !spec.hub.value.auto {
      return spec;
    }
    var members := if spec.page in m then m[spec.page] else [];
    var sections := spec.hub.value.sections;
    var placed := new bool[|members|](_ => false);
    var out := [];
    NothingDeclared();
    for k := 0 to |sections|
      invariant out == FilledAll(sections, members)[..k]
      invariant forall i :: 0 <= i < |members| ==> (placed[i] <==> Declared(sections[..k], members[i].section))
    {
      var sec := sections[k];
      var links := [];
      assert members[..0] == [];
      NoLinks(InSection(sec.title));
      for i := 0 to |members|
        invariant links == Links(members[..i], InSection(sec.title))
        invariant forall j :: 0 <= j < |members| ==>
          (placed[j] <==> Declared(sections[..k], members[j].section) || (j < i && members[j].section == sec.title))
      {
        LinksMore(members, i, InSection(sec.title));
        if members[i].section == sec.title {
          links := links + [MemberLink(members[i])];
          placed[i] := true;
        }
      }
      assert members[..|members|] == members;
      out := out + [HubSection(sec.title, sec.desc, links)];
      DeclaredMore(sections, k);
    }
    assert sections[..|sections|] == sections &&
      FilledAll(sections, members)[..|sections|] == FilledAll(sections, members);
    var other := [];
    assert members[..0] == [];
    NoLinks(Undeclared(sections));
    for i := 0 to |members|
      invariant other == Links(members[..i], Undeclared(sections))
      invariant forall j :: 0 <= j < |members| ==> (placed[j] <==> Declared(sections, members[j].section))
    {
      LinksMore(members, i, Undeclared(sections));
      UndeclaredIs(sections, members[i]);
      if !placed[i] {
        other := other + [MemberLink(members[i])];
      }
    }
    assert members[..|members|] == members;
    assert out + [] == out;
    if |other| > 0 {
      out := out + [HubSection(OTHER, "", other)];
    }
    return spec.(hub := Some(spec.hub.value.(sections := out)));
  }

  lemma NoLinks(p: Member -> bool)
    ensures Links([], p) == []
  {}

  lemma UndeclaredIs(sections: seq<HubSection>, m: Member)
    ensures Undeclared(sections)(m) == !Declared(sections, m.section)
  {}

  lemma NothingDeclared()
    ensures forall title :: !Declared([], title)
  {}

  lemma LinksMore(members: seq<Member>, i: nat, p: Member -> bool)
    requires i < |members|
    ensures Links(members[..i + 1], p) == if p(members[i]) then Links(members[..i], p) + [MemberLink(members[i])]
      else Links(members[..i], p)
  {
    assert members[..i + 1][..i] == members[..i];
  }

  lemma DeclaredMore(sections: seq<HubSection>, k: nat)
    requires k < |sections|
    ensures forall title :: Declared(sections[..k + 1], title) <==>
      Declared(sections[..k], title) || sections[k].title == title
  {
    forall title ensures Declared(sections[..k + 1], title) <==>
      Declared(sections[..k], title) || sections[k].title == title {
      if i :| 0 <= i < k && sections[..k][i].title == title {
        assert sections[..k + 1][i].title == title;
      }
      assert sections[..k + 1][k] == sections[k];
    }
  }

  /* ----- how often a member is placed ----- */

  function AllLinks(sections: seq<HubSection>): seq<HubLink> {
    if sections == [] then [] else sections[0].links + AllLinks(sections[1..])
  }

  /** How many sections are declared with this title. */
  function Declarations(sections: seq<HubSection>, title: string): nat {
    if sections == [] then 0
    else (if sections[0].title == title then 1 else 0) + Declarations(sections[1..], title)
  }

  /** How often a member with this section is placed: once for each declaration, else under "Other". */
  function Placings(sections: seq<HubSection>, section: string): nat {
    var n := Declarations(sections, section);
    if n == 0 then 1 else n
  }

  /** Every member, as often as it is placed. */
  function Repeated(members: seq<Member>, times: Member -> nat): multiset<HubLink> {
    if members == [] then multiset{}
    else
      var last := members[|members| - 1];
      Repeated(members[..|members| - 1], times) + Times(MemberLink(last), times(last))
  }

  function Times(l: HubLink, n: nat): (r: multiset<HubLink>)
    ensures r[l] == n && |r| == n && forall x :: x != l ==> r[x] == 0
  {
    multiset{}[l := n]
  }

  lemma {:induction false} RepeatedSum(members: seq<Member>, f: Member -> nat, g: Member -> nat, h: Member -> nat)
    requires forall m :: h(m) == f(m) + g(m)
    ensures Repeated(members, h) == Repeated(members, f) + Repeated(members, g)
  {
    hide MemberLink;
    if members != [] {
      var last := members[|members| - 1];
      RepeatedSum(members[..|members| - 1], f, g, h);
      assert Times(MemberLink(last), h(last)) == Times(MemberLink(last), f(last)) + Times(MemberLink(last), g(last));
    }
  }

  lemma {:induction false} RepeatedSame(members: seq<Member>, f: Member -> nat, g: Member -> nat)
    requires forall m :: f(m) == g(m)
    ensures Repeated(members, f) == Repeated(members, g)
  {
    hide MemberLink;
    if members != [] {
      RepeatedSame(members[..|members| - 1], f, g);
    }
  }

  function Indicator(p: Member -> bool): Member -> nat {
    m => if p(m) then 1 else 0
  }

  lemma {:induction false} LinksAreRepeated(members: seq<Member>, p: Member -> bool)
    ensures multiset(Links(members, p)) == Repeated(members, Indicator(p))
  {
    hide MemberLink;
    if members != [] {
      LinksAreRepeated(members[..|members| - 1], p);
      var last := members[|members| - 1];
      assert Times(MemberLink(last), 1) == multiset{MemberLink(last)};
      assert Times(MemberLink(last), 0) == multiset{};
    }
  }

  function DeclaredTimes(sections: seq<HubSection>): Member -> nat {
    (m: Member) => Declarations(sections, m.section)
  }

  function PlacedTimes(sections: seq<HubSection>): Member -> nat {
    (m: Member) => Placings(sections, m.section)
  }

  lemma {:induction false} NeverRepeated(members: seq<Member>)
    ensures Repeated(members, DeclaredTimes([])) == multiset{}
  {
    hide MemberLink;
    if members != [] {
      NeverRepeated(members[..|members| - 1]);
    }
  }

  lemma {:induction false} FilledLinks(sections: seq<HubSection>, members: seq<Member>)
    ensures multiset(AllLinks(FilledAll(sections, members))) == Repeated(members, DeclaredTimes(sections))
  {
    hide MemberLink, Repeated, Links;
    if sections == [] {
      NeverRepeated(members);
    } else {
      FilledLinks(sections[1..], members);
      var all := FilledAll(sections, members);
      assert all[1..] == FilledAll(sections[1..], members);
      LinksAreRepeated(members, InSection(sections[0].title));
      RepeatedSum(members, Indicator(InSection(sections[0].title)), DeclaredTimes(sections[1..]),
        DeclaredTimes(sections));
    }
  }

  lemma {:induction false} DeclaredIff(sections: seq<HubSection>, title: string)
    ensures Declared(sections, title) <==> Declarations(sections, title) > 0
  {
    if sections != [] {
      DeclaredIff(sections[1..], title);
      if i :| 0 <= i < |sections| && sections[i].title == title && i > 0 {
        assert sections[1..][i - 1].title == title;
      }
    }
  }

  lemma {:induction false} AllLinksAppend(a: seq<HubSection>, b: seq<HubSection>)
    ensures AllLinks(a + b) == AllLinks(a) + AllLinks(b)
  {
    if a == [] {
      assert a + b == b;
    } else {
      assert (a + b)[1..] == a[1..] + b;
      AllLinksAppend(a[1..], b);
    }
  }

  /** An automatic hub places each member once for every section of its name, or once under "Other". */
  lemma {:induction false} HubPlacesMembers(spec: Spec, m: map<string, seq<Member>>)
    requires spec.hub.Some? && spec.hub.value.auto
    ensures multiset(AllLinks(Expanded(spec, m).hub.value.sections))
         == Repeated(MembersOf(spec, m), PlacedTimes(spec.hub.value.sections))
  {
    hide MemberLink, Repeated, Links, AllLinks;
    var members, sections := MembersOf(spec, m), spec.hub.value.sections;
    var other := Links(members, Undeclared(sections));
    FilledLinks(sections, members);
    LinksAreRepeated(members, Undeclared(sections));
    forall x: Member ensures PlacedTimes(sections)(x) ==
      DeclaredTimes(sections)(x) + Indicator(Undeclared(sections))(x) {
      DeclaredIff(sections, x.section);
    }
    RepeatedSum(members, DeclaredTimes(sections), Indicator(Undeclared(sections)), PlacedTimes(sections));
    AllLinksAppend(FilledAll(sections, members), [HubSection(OTHER, "", other)]);
    OneSection(HubSection(OTHER, "", other));
    var filled := FilledAll(sections, members);
    var out := filled + if other == [] then [] else [HubSection(OTHER, "", other)];
    assert other == [] ==> out == filled && AllLinks(filled) + other == AllLinks(filled);
    assert multiset(AllLinks(out)) == multiset(AllLinks(filled)) + multiset(other);
  }

  lemma OneSection(s: HubSection)
    ensures AllLinks([s]) == s.links
  {
    assert [s][1..] == [];
  }

  lemma {:induction false} RepeatedSize(members: seq<Member>, times: Member -> nat)
    requires forall i :: 0 <= i < |members| ==> times(members[i]) >= 1
    ensures |Repeated(members, times)| >= |members|
    ensures |Repeated(members, times)| == |members| <==> forall i :: 0 <= i < |members| ==> times(members[i]) == 1
  {
    hide MemberLink;
    if members != [] {
      RepeatedSize(members[..|members| - 1], times);
    }
  }

  /** Every member is placed exactly once if and only if no member's section is declared twice. */
  lemma {:induction false} MembersArePlacedOnceIff(spec: Spec, m: map<string, seq<Member>>)
    requires spec.hub.Some? && spec.hub.value.auto
    ensures var members := MembersOf(spec, m);
      multiset(AllLinks(Expanded(spec, m).hub.value.sections)) == multiset(Links(members, _ => true)) <==>
        forall i :: 0 <= i < |members| ==> Declarations(spec.hub.value.sections, members[i].section) <= 1
  {
    hide Repeated, Links, AllLinks, Expanded, Declarations;
    var members, sections := MembersOf(spec, m), spec.hub.value.sections;
    HubPlacesMembers(spec, m);
    LinksAreRepeated(members, _ => true);
    RepeatedSize(members, PlacedTimes(sections));
    RepeatedSize(members, Indicator(_ => true));
    if forall i :: 0 <= i < |members| ==> PlacedTimes(sections)(members[i]) == 1 {
      RepeatedOnce(members, PlacedTimes(sections));
    }
  }

  lemma {:induction false} RepeatedOnce(members: seq<Member>, times: Member -> nat)
    requires forall i :: 0 <= i < |members| ==> times(members[i]) == 1
    ensures Repeated(members, times) == Repeated(members, Indicator(_ => true))
  {
    hide MemberLink;
    if members != [] {
      RepeatedOnce(members[..|members| - 1], times);
    }
  }

  /* ----- which section holds whom ----- */

  /** The members with this section, in order. */
  function OfSection(members: seq<Member>, title: string): seq<Member> {
    if members == [] then []
    else (if members[0].section == title then [members[0]] else []) + OfSection(members[1..], title)
  }

  /** The members whose section is none of these titles, in order. */
  function OfNone(members: seq<Member>, titles: set<string>): seq<Member> {
    if members == [] then []
    else (if members[0].section !in titles then [members[0]] else []) + OfNone(members[1..], titles)
  }

  /** The links are those of the members, with page, caption, blurb and area. */
  predicate AreLinksOf(links: seq<HubLink>, members: seq<Member>) {
    && |links| == |members|
    && forall i :: 0 <= i < |links| ==>
         links[i] == HubLink(members[i].page, members[i].caption, members[i].blurb, members[i].area)
  }

  lemma {:induction false} LinksAppend(a: seq<Member>, b: seq<Member>, p: Member -> bool)
    ensures Links(a + b, p) == Links(a, p) + Links(b, p)
    decreases |b|
  {
    hide MemberLink;
    if b == [] {
      assert a + b == a;
    } else {
      assert (a + b)[..|a + b| - 1] == a + b[..|b| - 1];
      LinksAppend(a, b[..|b| - 1], p);
    }
  }

  lemma LinksFirst(members: seq<Member>, p: Member -> bool)
    requires members != []
    ensures Links(members, p) == (if p(members[0]) then [MemberLink(members[0])] else []) + Links(members[1..], p)
  {
    hide MemberLink;
    assert members == [members[0]] + members[1..];
    LinksAppend([members[0]], members[1..], p);
    assert [members[0]][..0] == [];
  }

  lemma {:induction false} SectionLinks(members: seq<Member>, title: string)
    ensures AreLinksOf(Links(members, InSection(title)), OfSection(members, title))
  {
    hide Links;
    if members == [] {
      NoLinks(InSection(title));
    } else {
      LinksFirst(members, InSection(title));
      SectionLinks(members[1..], title);
    }
  }

  lemma {:induction false} OtherLinks(members: seq<Member>, sections: seq<HubSection>, titles: set<string>)
    requires forall t :: t in titles <==> exists i :: 0 <= i < |sections| && sections[i].title == t
    ensures AreLinksOf(Links(members, Undeclared(sections)), OfNone(members, titles))
  {
    hide Links, Declared;
    if members == [] {
      NoLinks(Undeclared(sections));
    } else {
      LinksFirst(members, Undeclared(sections));
      UndeclaredIs(sections, members[0]);
      DeclaredMeans(sections, members[0].section);
      OtherLinks(members[1..], sections, titles);
    }
  }

  lemma DeclaredMeans(sections: seq<HubSection>, title: string)
    ensures Declared(sections, title) <==> exists i :: 0 <= i < |sections| && sections[i].title == title
  {}

  /**
   An automatic hub keeps its sections, in order and with title and description, and
   each holds the links of exactly the members that name it, in order; the members that
   name none of them follow under "Other", which is there only if there are such members.
   */
  lemma {:induction false} HubMeaning(spec: Spec, m: map<string, seq<Member>>, titles: set<string>)
    requires spec.hub.Some? && spec.hub.value.auto
    requires forall t :: t in titles <==>
      exists i :: 0 <= i < |spec.hub.value.sections| && spec.hub.value.sections[i].title == t
    ensures
      var members := if spec.page in m then m[spec.page] else [];
      var sections, others := spec.hub.value.sections, OfNone(members, titles);
      var r := Expanded(spec, m);
      var out := r.hub.value.sections;
      && r.page == spec.page && r.hub.value.auto
      && |out| == |sections| + (if others == [] then 0 else 1)
      && (forall i :: 0 <= i < |sections| ==>
            && out[i].title == sections[i].title && out[i].desc == sections[i].desc
            && AreLinksOf(out[i].links, OfSection(members, sections[i].title)))
      && (others != [] ==> out[|sections|].title == "Other" && AreLinksOf(out[|sections|].links, others))
  {
    hide Links, AreLinksOf;
    var members, sections := MembersOf(spec, m), spec.hub.value.sections;
    OtherLinks(members, sections, titles);
    AreAsMany(Links(members, Undeclared(sections)), OfNone(members, titles));
    forall i | 0 <= i < |sections|
      ensures AreLinksOf(Filled(sections[i], members).links, OfSection(members, sections[i].title))
    {
      SectionLinks(members, sections[i].title);
    }
  }

  lemma AreAsMany(links: seq<HubLink>, members: seq<Member>)
    requires AreLinksOf(links, members)
    ensures |links| == |members|
  {}

  /** Other specs are left alone. */
  lemma OthersAreUnchanged(spec: Spec, m: map<string, seq<Member>>)
    requires spec.hub.None? || !spec.hub.value.auto
    ensures Expanded(spec, m) == spec
  {}
}
