/** `sortStrings` of `git.go`: sorting the changed areas in place. */
module SortStrings {
  import opened Text

  predicate AtMost(a: string, b: string) {
    !Below(b, a)
  }

  lemma AtMostIsAnOrder(a: string, b: string, c: string)
    ensures AtMost(a, b) || AtMost(b, a)
    ensures AtMost(a, b) && AtMost(b, a) ==> a == b
    ensures AtMost(a, b) && AtMost(b, c) ==> AtMost(a, c)
  {
    BelowIsTotal(a, b);
    BelowIsTotal(b, c);
    if Below(c, a) && Below(a, b) {
      BelowIsTransitive(c, a, b);
    }
  }

  ghost predicate Sorted(s: seq<string>) {
    forall p, q :: 0 <= p < q < |s| ==> AtMost(s[p], s[q])
  }

  /** Up to index `i` everything is in order but the element at `j`, which is still on its way down. */
  ghost predicate SortedBut(s: seq<string>, i: nat, j: nat) {
    i < |s| && j <= i && forall p, q :: 0 <= p < q <= i && q != j ==> AtMost(s[p], s[q])
  }

  function Swapped(s: seq<string>, j: nat): seq<string>
    requires 0 < j < |s|
  {
    s[j - 1 := s[j]][j := s[j - 1]]
  }

  lemma SwapKeepsElements(s: seq<string>, j: nat)
    requires 0 < j < |s|
    ensures multiset(Swapped(s, j)) == multiset(s)
  {}

  lemma SwapMovesDown(s: seq<string>, i: nat, j: nat)
    requires SortedBut(s, i, j) && j > 0 && Below(s[j], s[j - 1])
    ensures SortedBut(Swapped(s, j), i, j - 1)
  {
    hide Below;
    var t := Swapped(s, j);
    AtMostIsAnOrder(s[j], s[j - 1], s[j]);
    BelowIsTotal(s[j], s[j - 1]);
    forall p, q | 0 <= p < q <= i && q != j - 1 ensures AtMost(t[p], t[q]) {
      var p' := if p == j then j - 1 else if p == j - 1 then j else p;
      var q' := if q == j then j - 1 else q;
      assert t[p] == s[p'] && t[q] == s[q'];
    }
  }

  lemma InPlace(s: seq<string>, i: nat, j: nat)
    requires SortedBut(s, i, j) && (j == 0 || !Below(s[j], s[j - 1]))
    ensures Sorted(s[..i + 1])
  {
    hide Below;
    forall p, q | 0 <= p < q <= i ensures AtMost(s[p], s[q]) {
      if q == j {
        AtMostIsAnOrder(s[p], s[j - 1], s[j]);
        assert p < j - 1 ==> AtMost(s[p], s[j - 1]);
      }
    }
  }

  lemma NextOne(s: seq<string>, i: nat)
    requires i < |s| && Sorted(s[..i])
    ensures SortedBut(s, i, i)
  {
    forall p, q | 0 <= p < q <= i && q != i ensures AtMost(s[p], s[q]) {
      assert s[..i][p] == s[p] && s[..i][q] == s[q];
    }
  }

  method Sort(a: array<string>)
    modifies a
    ensures Sorted(a[..]) && multiset(a[..]) == multiset(old(a[..]))
  {
    hide Below, Sorted, SortedBut;
    AtMostOne(a[..]);
    if a.Length == 0 {
      return;
    }
    for i := 1 to a.Length
      invariant Sorted(a[..i])
      invariant multiset(a[..]) == multiset(old(a[..]))
    {
      assert a[..i] == a[..][..i];
      NextOne(a[..], i);
      var j := i;
      while j > 0 && Below(a[j], a[j - 1])
        invariant j <= i
        invariant SortedBut(a[..], i, j)
        invariant multiset(a[..]) == multiset(old(a[..]))
      {
        SwapMovesDown(a[..], i, j);
        SwapKeepsElements(a[..], j);
        ghost var s := a[..];
        a[j - 1], a[j] := a[j], a[j - 1];
        assert a[..] == Swapped(s, j);
        j := j - 1;
      }
      InPlace(a[..], i, j);
      assert a[..][..i + 1] == a[..i + 1];
    }
    assert a[..a.Length] == a[..];
  }

  lemma AtMostOne(s: seq<string>)
    ensures |s| == 0 ==> Sorted(s)
    ensures |s| >= 1 ==> Sorted(s[..1])
  {}

  lemma LeastFirst(s: seq<string>, t: seq<string>)
    requires Sorted(s) && multiset(s) == multiset(t) && s != [] && t != []
    ensures AtMost(s[0], t[0])
  {
    hide Below, AtMost;
    assert t[0] in multiset(t);
    assert t[0] in s;
    AtMostIsAnOrder(s[0], s[0], s[0]);
  }

  lemma WithoutFirst(s: seq<string>)
    requires s != []
    ensures multiset(s[1..]) == multiset(s) - multiset{s[0]}
  {
    assert s == [s[0]] + s[1..];
  }

  /** The sorted list of a set does not depend on the order in which the set was walked. */
  lemma {:induction false} SortIsUnique(s: seq<string>, t: seq<string>)
    requires Sorted(s) && Sorted(t) && multiset(s) == multiset(t)
    ensures s == t
  {
    hide Below, AtMost;
    assert |multiset(s)| == |s| && |multiset(t)| == |t|;
    if s != [] {
      LeastFirst(s, t);
      LeastFirst(t, s);
      AtMostIsAnOrder(s[0], t[0], s[0]);
      WithoutFirst(s);
      WithoutFirst(t);
      SortIsUnique(s[1..], t[1..]);
      assert s == [s[0]] + s[1..] && t == [t[0]] + t[1..];
    }
  }
}
