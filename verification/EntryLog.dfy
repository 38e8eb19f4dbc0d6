/** `loadJSONL` of `local.go`: resolving an append-only log, the latest version wins. */
module EntryLog {
  import opened Wrappers

  /** An entry; `fields` stands for everything but the ID. */
  datatype Entry = Entry(id: string, fields: string)

  /** A line of the log: blank, undecodable, a tombstone or a version of an entry. */
  datatype Line = BlankLine | BadLine | Tombstone(id: string) | Version(entry: Entry)

  predicate IsRecord(l: Line) {
    l.Tombstone? || l.Version?
  }

  function IdOf(l: Line): string
    requires IsRecord(l)
  {
    match l
    case Tombstone(id) => id
    case Version(e) => e.id
  }

  /* ----- specification ----- */

  /** The last record of `id` in the log. */
  function LastRecord(log: seq<Line>, id: string): Option<Line> {
    if log == [] then None
    else
      var l := log[|log| - 1];
      if IsRecord(l) && IdOf(l) == id then Some(l) else LastRecord(log[..|log| - 1], id)
  }

  /** The IDs of the log, in the order in which they are first seen. */
  function Order(log: seq<Line>): seq<string> {
    if log == [] then []
    else
      var front, l := Order(log[..|log| - 1]), log[|log| - 1];
      if IsRecord(l) && IdOf(l) !in front then front + [IdOf(l)] else front
  }

  /** The latest version of each entry; tombstoned IDs are gone. */
  function Alive(log: seq<Line>): map<string, Entry> {
    if log == [] then map[]
    else
      var front := Alive(log[..|log| - 1]);
      match log[|log| - 1]
      case Tombstone(id) => front - {id}
      case Version(e) => front[e.id := e]
      case _ => front
  }

  function Emit(order: seq<string>, alive: map<string, Entry>): seq<Entry> {
    if order == [] then []
    else (if order[0] in alive then [alive[order[0]]] else []) + Emit(order[1..], alive)
  }

  function Resolved(log: seq<Line>): seq<Entry> {
    Emit(Order(log), Alive(log))
  }

  /* ----- the loader ----- */

  /** The loop's map: `None` for a tombstoned ID. */
  type Latest = map<string, Option<Entry>>

  ghost predicate Tracks(latest: Latest, log: seq<Line>) {
    && (forall id :: id in latest <==> id in Order(log))
    && (forall id :: id in Alive(log) <==> id in latest && latest[id].Some?)
    && (forall id :: id in Alive(log) ==> latest[id].value == Alive(log)[id])
  }

  /** One more line of the log. */
  lemma LogStep(log: seq<Line>, l: Line)
    ensures Order(log + [l]) ==
      if IsRecord(l) && IdOf(l) !in Order(log) then Order(log) + [IdOf(l)] else Order(log)
    ensures Alive(log + [l]) ==
      if l.Tombstone? then Alive(log) - {l.id}
      else if l.Version? then Alive(log)[l.entry.id := l.entry]
      else Alive(log)
  {
    assert (log + [l])[..|log|] == log;
  }

  method LoadJSONL(lines: seq<Line>) returns (out: Option<seq<Entry>>)
    ensures BadLine in lines ==> out == None
    ensures BadLine !in lines ==> out == Some(Resolved(lines))
  {
    hide Emit, Order, Alive, Tracks;
    var order: seq<string> := [];
    var latest: Latest := map[];
    EmptyLog();
    TrackNothing();
    for k := 0 to |lines|
      invariant BadLine !in lines[..k]
      invariant order == Order(lines[..k]) && Tracks(latest, lines[..k])
    {
      var line := lines[k];
      assert lines[..k + 1] == lines[..k] + [line];
      LogStep(lines[..k], line);
      TrackMore(latest, lines[..k], line);
      if line.BlankLine? {
        continue;
      }
      if line.BadLine? {
        return None;
      }
      var id := IdOf(line);
      if id !in latest {
        order := order + [id];
      }
      match line {
        case Tombstone(_) => latest := latest[id := None];
        case Version(e) => latest := latest[id := Some(e)];
      }
    }
    assert lines[..|lines|] == lines;
    ghost var alive := Alive(lines);
    Tracked(latest, lines);
    assert order[0..] == order;
    var resolved := [];
    for k := 0 to |order|
      invariant Emit(order, alive) == resolved + Emit(order[k..], alive)
    {
      EmitFirst(order, k, alive);
      if latest[order[k]].Some? {
        resolved := resolved + [latest[order[k]].value];
      }
    }
    EmitFirst(order, |order|, alive);
    assert resolved + [] == resolved;
    return Some(resolved);
  }

  function Tracking(latest: Latest, l: Line): Latest {
    if l.Tombstone? then latest[l.id := None] else if l.Version? then latest[l.entry.id := Some(l.entry)] else latest
  }

  lemma TrackMore(latest: Latest, log: seq<Line>, l: Line)
    requires Tracks(latest, log)
    ensures Tracks(Tracking(latest, l), log + [l])
    ensures IsRecord(l) ==> (IdOf(l) in latest <==> IdOf(l) in Order(log))
  {
    hide Order, Alive;
    LogStep(log, l);
  }

  lemma TrackNothing()
    ensures Tracks(map[], [])
  {}

  lemma Tracked(latest: Latest, log: seq<Line>)
    requires Tracks(latest, log)
    ensures forall id :: id in Order(log) ==>
      id in latest && (latest[id].Some? <==> id in Alive(log)) &&
        (latest[id].Some? ==> latest[id].value == Alive(log)[id])
  {
    hide Order, Alive;
  }

  lemma EmptyLog()
    ensures Order([]) == [] && Alive([]) == map[]
  {}

  lemma EmitFirst(order: seq<string>, k: nat, alive: map<string, Entry>)
    requires k <= |order|
    ensures Emit(order[k..], alive) ==
      if k == |order| then []
      else (if order[k] in alive then [alive[order[k]]] else []) + Emit(order[k + 1..], alive)
  {
    assert k < |order| ==> order[k..][1..] == order[k + 1..];
  }

  lemma {:induction false} AliveAreOrdered(log: seq<Line>)
    ensures forall id :: id in Alive(log) ==> id in Order(log)
    ensures forall id :: id in Alive(log) ==> Alive(log)[id].id == id
  {
    if log != [] {
      AliveAreOrdered(log[..|log| - 1]);
    }
  }

  /* ----- what is loaded ----- */

  predicate Distinct<T(==)>(s: seq<T>) {
    forall i, j :: 0 <= i < j < |s| ==> s[i] != s[j]
  }

  lemma {:induction false} OrderIsDistinct(log: seq<Line>)
    ensures Distinct(Order(log))
  {
    if log != [] {
      OrderIsDistinct(log[..|log| - 1]);
    }
  }

  /** A log keeps an entry exactly when its last record is a version, and then that version. */
  lemma {:induction false} AliveIsLastVersion(log: seq<Line>, id: string)
    ensures var last := LastRecord(log, id);
      && (id in Alive(log) <==> last.Some? && last.value.Version?)
      && (id in Alive(log) ==> Alive(log)[id] == last.value.entry)
  {
    if log != [] {
      AliveIsLastVersion(log[..|log| - 1], id);
    }
  }

  /** IDs come out in the order of their first record. */
  function FirstIndex(log: seq<Line>, id: string): (n: nat)
    ensures n <= |log|
  {
    if log == [] || (IsRecord(log[0]) && IdOf(log[0]) == id) then 0 else 1 + FirstIndex(log[1..], id)
  }

  lemma {:induction false} FirstIndexOfFront(log: seq<Line>, l: Line, id: string)
    ensures var n := FirstIndex(log, id);
      FirstIndex(log + [l], id) ==
        if n < |log| then n else if IsRecord(l) && IdOf(l) == id then |log| else |log| + 1
  {
    if log == [] {
      assert (log + [l])[1..] == [];
    } else {
      assert (log + [l])[1..] == log[1..] + [l];
      FirstIndexOfFront(log[1..], l, id);
    }
  }

  lemma {:induction false} OrderIsByFirstIndex(log: seq<Line>)
    ensures var order := Order(log);
      && (forall id :: id in order <==> FirstIndex(log, id) < |log|)
      && (forall i, j :: 0 <= i < j < |order| ==> FirstIndex(log, order[i]) < FirstIndex(log, order[j]))
  {
    if log != [] {
      var front, l := log[..|log| - 1], log[|log| - 1];
      OrderIsByFirstIndex(front);
      assert log == front + [l];
      var order := Order(front);
      forall id ensures FirstIndex(log, id) ==
        if FirstIndex(front, id) < |front| then FirstIndex(front, id)
        else if IsRecord(l) && IdOf(l) == id then |front| else |front| + 1
      {
        FirstIndexOfFront(front, l, id);
      }
      forall i, j | 0 <= i < j < |Order(log)|
        ensures FirstIndex(log, Order(log)[i]) < FirstIndex(log, Order(log)[j])
      {
        assert order[i] in order;
        if j < |order| {
          assert order[j] in order;
        }
      }
    }
  }

  /** The IDs of the emitted entries are the alive ones of `order`, in order. */
  function Kept(order: seq<string>, alive: map<string, Entry>): seq<string> {
    if order == [] then []
    else (if order[0] in alive then [order[0]] else []) + Kept(order[1..], alive)
  }

  lemma {:induction false} EmitIsKept(order: seq<string>, alive: map<string, Entry>)
    requires forall id <- alive :: alive[id].id == id
    ensures |Emit(order, alive)| == |Kept(order, alive)|
    ensures forall k :: 0 <= k < |Kept(order, alive)| ==>
      Kept(order, alive)[k] in alive && Emit(order, alive)[k] == alive[Kept(order, alive)[k]]
  {
    if order != [] {
      EmitIsKept(order[1..], alive);
    }
  }

  lemma {:induction false} KeptIsSubsequence(order: seq<string>, alive: map<string, Entry>, log: seq<Line>)
    requires forall i, j :: 0 <= i < j < |order| ==> FirstIndex(log, order[i]) < FirstIndex(log, order[j])
    ensures var kept := Kept(order, alive);
      && (forall id :: id in kept <==> id in order && id in alive)
      && (forall i, j :: 0 <= i < j < |kept| ==> FirstIndex(log, kept[i]) < FirstIndex(log, kept[j]))
  {
    hide FirstIndex;
    if order != [] {
      var rest := Kept(order[1..], alive);
      KeptIsSubsequence(order[1..], alive, log);
      forall j | 0 <= j < |rest| ensures FirstIndex(log, order[0]) < FirstIndex(log, rest[j]) {
        assert rest[j] in rest;
        var i :| 0 <= i < |order[1..]| && order[1..][i] == rest[j];
        assert order[i + 1] == rest[j];
      }
    }
  }

  /**
   What is loaded: one entry for every ID whose last record is a version, namely
   that version, by first appearance.
   */
  lemma {:induction false} ResolvedMeaning(log: seq<Line>)
    ensures var r := Resolved(log);
      && (forall k :: 0 <= k < |r| ==> LastRecord(log, r[k].id) == Some(Version(r[k])))
      && (forall id :: (exists k :: 0 <= k < |r| && r[k].id == id) <==>
            LastRecord(log, id).Some? && LastRecord(log, id).value.Version?)
      && (forall i, j :: 0 <= i < j < |r| ==> FirstIndex(log, r[i].id) < FirstIndex(log, r[j].id))
  {
    hide FirstIndex, LastRecord, Alive, Order, Emit, Kept;
    var order, alive := Order(log), Alive(log);
    AliveAreOrdered(log);
    OrderIsByFirstIndex(log);
    EmitIsKept(order, alive);
    KeptIsSubsequence(order, alive, log);
    forall id ensures (id in alive <==> LastRecord(log, id).Some? && LastRecord(log, id).value.Version?)
              ensures id in alive ==> alive[id] == LastRecord(log, id).value.entry
    {
      AliveIsLastVersion(log, id);
    }
    var r, kept := Resolved(log), Kept(order, alive);
    forall id ensures (exists k :: 0 <= k < |r| && r[k].id == id) <==> id in alive {
      if id in alive {
        assert id in kept;
        var k :| 0 <= k < |kept| && kept[k] == id;
        assert r[k].id == id;
      }
      if k :| 0 <= k < |r| && r[k].id == id {
        assert kept[k] in kept;
      }
    }
  }

  /* ----- compaction ----- */

  /** A log that states the resolved entries and nothing else. */
  function Compacted(log: seq<Line>): (r: seq<Line>)
    ensures |r| == |Resolved(log)| && forall k :: 0 <= k < |r| ==> r[k] == Version(Resolved(log)[k])
  {
    seq(|Resolved(log)|, k requires 0 <= k < |Resolved(log)| => Version(Resolved(log)[k]))
  }

  function Versions(entries: seq<Entry>): (r: seq<Line>)
    ensures |r| == |entries| && forall k :: 0 <= k < |r| ==> r[k] == Version(entries[k])
  {
    seq(|entries|, k requires 0 <= k < |entries| => Version(entries[k]))
  }

  function Ids(entries: seq<Entry>): (r: seq<string>)
    ensures |r| == |entries| && forall k :: 0 <= k < |r| ==> r[k] == entries[k].id
  {
    seq(|entries|, k requires 0 <= k < |entries| => entries[k].id)
  }

  ghost predicate States(log: seq<Line>, entries: seq<Entry>) {
    && Order(log) == Ids(entries)
    && (forall id :: id in Alive(log) <==> id in Ids(entries))
    && (forall k :: 0 <= k < |entries| ==>
          entries[k].id in Alive(log) && Alive(log)[entries[k].id] == entries[k])
  }

  lemma StateOneMore(log: seq<Line>, entries: seq<Entry>, e: Entry)
    requires States(log, entries) && e.id !in Ids(entries)
    ensures States(log + [Version(e)], entries + [e])
  {
    hide Order, Alive;
    LogStep(log, Version(e));
    assert Ids(entries + [e]) == Ids(entries) + [e.id];
    forall k | 0 <= k < |entries| ensures entries[k].id != e.id {
      assert Ids(entries)[k] in Ids(entries);
    }
  }

  lemma {:induction false} VersionsState(entries: seq<Entry>)
    requires Distinct(Ids(entries))
    ensures States(Versions(entries), entries)
  {
    hide States, Order, Alive;
    if entries == [] {
      EmptyVersions();
    } else {
      var n := |entries| - 1;
      var front, e := entries[..n], entries[n];
      assert Ids(entries) == Ids(front) + [e.id];
      forall i, j | 0 <= i < j < n ensures Ids(front)[i] != Ids(front)[j] {
        assert Ids(entries)[i] != Ids(entries)[j];
      }
      assert forall i :: 0 <= i < n ==> Ids(entries)[i] != Ids(entries)[n];
      VersionsState(front);
      StateOneMore(Versions(front), front, e);
      assert Versions(entries) == Versions(front) + [Version(e)] && entries == front + [e];
    }
  }

  lemma EmptyVersions()
    ensures States(Versions([]), [])
  {
    assert Versions([]) == [];
  }

  lemma {:induction false} AliveAppend(a: seq<Line>, b: seq<Line>, q: seq<Line>)
    requires Alive(a) == Alive(b)
    ensures Alive(a + q) == Alive(b + q)
  {
    if q == [] {
      assert a + q == a && b + q == b;
    } else {
      var front := q[..|q| - 1];
      AliveAppend(a, b, front);
      assert (a + q)[..|a + q| - 1] == a + front && (b + q)[..|b + q| - 1] == b + front;
    }
  }

  lemma ResolvedIdsAreDistinct(log: seq<Line>)
    ensures Distinct(Ids(Resolved(log)))
    ensures Ids(Resolved(log)) == Kept(Order(log), Alive(log))
  {
    hide FirstIndex, LastRecord, Alive, Order, Emit, Kept;
    AliveAreOrdered(log);
    OrderIsByFirstIndex(log);
    EmitIsKept(Order(log), Alive(log));
    KeptIsSubsequence(Order(log), Alive(log), log);
  }

  lemma CompactedState(p: seq<Line>)
    ensures Alive(Compacted(p)) == Alive(p) && Order(Compacted(p)) == Kept(Order(p), Alive(p))
  {
    hide FirstIndex, LastRecord, Alive, Order, Emit, Kept;
    var entries := Resolved(p);
    ResolvedIdsAreDistinct(p);
    assert Compacted(p) == Versions(entries);
    VersionsState(entries);
    AliveAreOrdered(p);
    OrderIsByFirstIndex(p);
    KeptIsSubsequence(Order(p), Alive(p), p);
    EmitIsKept(Order(p), Alive(p));
    var a, b := Alive(Compacted(p)), Alive(p);
    forall id ensures id in a <==> id in b {
      assert id in Ids(entries) <==> id in Kept(Order(p), Alive(p));
    }
    forall id | id in b ensures a[id] == b[id] {
      assert id in Ids(entries);
      var k :| 0 <= k < |entries| && Ids(entries)[k] == id;
      assert entries[k] == b[Kept(Order(p), b)[k]];
    }
  }

  /** Compacting any prefix of the log leaves the entry of every ID as it is. */
  lemma {:induction false} CompactionKeepsEntries(p: seq<Line>, q: seq<Line>)
    ensures Alive(Compacted(p) + q) == Alive(p + q)
  {
    CompactedState(p);
    AliveAppend(Compacted(p), p, q);
  }

  /** The prefix leaves `id` tombstoned, and the whole log has it. */
  predicate Revived(p: seq<Line>, q: seq<Line>, id: string) {
    id in Order(p) && id !in Alive(p) && id in Alive(p + q)
  }

  /** No ID that the prefix leaves tombstoned is an entry of the whole log. */
  ghost predicate NothingRevived(p: seq<Line>, q: seq<Line>) {
    forall id :: !Revived(p, q, id)
  }

  lemma {:induction false} EmitAppend(a: seq<string>, b: seq<string>, alive: map<string, Entry>)
    ensures Emit(a + b, alive) == Emit(a, alive) + Emit(b, alive)
  {
    hide Emit;
    NoneEmitted(alive);
    if a == [] {
      assert a + b == b;
      assert [] + Emit(b, alive) == Emit(b, alive);
    } else {
      EmitAppend(a[1..], b, alive);
      assert (a + b)[1..] == a[1..] + b;
      EmitCons(a, alive);
      EmitCons(a + b, alive);
    }
  }

  lemma NoneEmitted(alive: map<string, Entry>)
    ensures Emit([], alive) == []
  {}

  lemma EmitCons(order: seq<string>, alive: map<string, Entry>)
    requires order != []
    ensures Emit(order, alive) ==
      (if order[0] in alive then [alive[order[0]]] else []) + Emit(order[1..], alive)
  {}

  lemma EmitOne(id: string, alive: map<string, Entry>)
    ensures Emit([id], alive) == if id in alive then [alive[id]] else []
  {
    assert [id][1..] == [];
  }

  /* ----- when the loaded sequence stays ----- */

  ghost predicate ByFirstIndex(s: seq<string>, log: seq<Line>) {
    forall i, j :: 0 <= i < j < |s| ==> FirstIndex(log, s[i]) < FirstIndex(log, s[j])
  }

  lemma {:induction false} OneOrder(s: seq<string>, t: seq<string>, log: seq<Line>)
    requires ByFirstIndex(s, log) && ByFirstIndex(t, log) && forall id :: id in s <==> id in t
    ensures s == t
  {
    hide FirstIndex;
    assert (s != [] ==> s[0] in s) && (t != [] ==> t[0] in t);
    if s != [] {
      assert s[0] in t && t[0] in s;
      assert s[0] == t[0];
      assert s == [s[0]] + s[1..] && t == [t[0]] + t[1..];
      assert s[0] !in s[1..] && t[0] !in t[1..];
      forall id ensures id in s[1..] <==> id in t[1..] {
        assert id in s <==> id == s[0] || id in s[1..];
        assert id in t <==> id == t[0] || id in t[1..];
      }
      OneOrder(s[1..], t[1..], log);
    }
  }

  /** Two logs with the same entries load alike exactly if they first mention them in the same order. */
  lemma {:induction false} LoadedAlikeIff(a: seq<Line>, b: seq<Line>)
    requires Alive(a) == Alive(b)
    ensures Resolved(a) == Resolved(b) <==> forall x, y :: x in Alive(a) && y in Alive(a) ==> Agree(a, b, x, y)
  {
    hide FirstIndex, Alive, Order, Kept, Emit, Resolved, Agree;
    if Resolved(a) == Resolved(b) {
      ResolvedIdsAreDistinct(a);
      ResolvedIdsAreDistinct(b);
      SameOrder(a, b);
    } else if forall x, y :: x in Alive(a) && y in Alive(a) ==> Agree(a, b, x, y) {
      AgreeingLogsLoadAlike(a, b);
    }
  }

  lemma {:induction false} SameOrder(a: seq<Line>, b: seq<Line>)
    requires Kept(Order(a), Alive(a)) == Kept(Order(b), Alive(b))
    ensures forall x, y :: x in Alive(a) && y in Alive(a) ==> Agree(a, b, x, y)
  {
    hide FirstIndex, Alive, Order, Kept;
    KeptInOrder(a);
    KeptInOrder(b);
    var s := Kept(Order(a), Alive(a));
    forall x, y | x in Alive(a) && y in Alive(a) ensures Agree(a, b, x, y) {
      assert x in s && y in s;
    }
  }

  lemma {:induction false} AgreeingLogsLoadAlike(a: seq<Line>, b: seq<Line>)
    requires Alive(a) == Alive(b) && forall x, y :: x in Alive(a) && y in Alive(a) ==> Agree(a, b, x, y)
    ensures Resolved(a) == Resolved(b)
  {
    hide FirstIndex, Alive, Order, Kept, Emit;
    KeptInOrder(a);
    KeptInOrder(b);
    var s, t := Kept(Order(a), Alive(a)), Kept(Order(b), Alive(b));
    forall i, j | 0 <= i < j < |s| ensures FirstIndex(b, s[i]) < FirstIndex(b, s[j]) {
      assert s[i] in s && s[j] in s;
      assert Agree(a, b, s[i], s[j]);
    }
    OneOrder(s, t, b);
    AliveAreOrdered(a);
    EmitIsKept(Order(a), Alive(a));
    EmitIsKept(Order(b), Alive(b));
  }

  ghost predicate Agree(a: seq<Line>, b: seq<Line>, x: string, y: string) {
    FirstIndex(a, x) < FirstIndex(a, y) ==> FirstIndex(b, x) < FirstIndex(b, y)
  }

  /** The IDs that are loaded, in order. */
  lemma KeptInOrder(log: seq<Line>)
    ensures var kept := Kept(Order(log), Alive(log));
      ByFirstIndex(kept, log) && forall id :: id in kept <==> id in Alive(log)
  {
    hide FirstIndex, Alive, Order, Kept;
    AliveAreOrdered(log);
    OrderIsByFirstIndex(log);
    KeptIsSubsequence(Order(log), Alive(log), log);
  }

  lemma {:induction false} FirstIndexOfPrefix(a: seq<Line>, b: seq<Line>, id: string)
    ensures FirstIndex(a + b, id) == if FirstIndex(a, id) < |a| then FirstIndex(a, id) else |a| + FirstIndex(b, id)
  {
    if a == [] {
      assert a + b == b;
    } else {
      assert (a + b)[1..] == a[1..] + b;
      FirstIndexOfPrefix(a[1..], b, id);
    }
  }

  /** Where the two logs first mention an ID. */
  lemma FirstMentions(p: seq<Line>, q: seq<Line>, id: string)
    ensures FirstIndex(p + q, id) == if id in Order(p) then FirstIndex(p, id) else |p| + FirstIndex(q, id)
    ensures var c := Compacted(p);
      FirstIndex(c + q, id) == if id in Alive(p) then FirstIndex(c, id) else |c| + FirstIndex(q, id)
    ensures id in Order(p) <==> FirstIndex(p, id) < |p|
    ensures id in Alive(p) <==> FirstIndex(Compacted(p), id) < |Compacted(p)|
    ensures id in Alive(p) ==> id in Order(p)
  {
    hide FirstIndex, Alive, Order, Compacted, Kept;
    FirstIndexOfPrefix(p, q, id);
    FirstIndexOfPrefix(Compacted(p), q, id);
    OrderIsByFirstIndex(p);
    OrderIsByFirstIndex(Compacted(p));
    CompactedState(p);
    KeptInOrder(p);
    AliveAreOrdered(p);
  }

  /** The compacted prefix mentions its entries in their old order. */
  lemma CompactedOrder(p: seq<Line>, x: string, y: string)
    requires x in Alive(p) && y in Alive(p)
    ensures FirstIndex(p, x) < FirstIndex(p, y) ==> FirstIndex(Compacted(p), x) < FirstIndex(Compacted(p), y)
  {
    hide FirstIndex, Alive, Order, Compacted, Kept;
    var kept := Kept(Order(p), Alive(p));
    KeptInOrder(p);
    CompactedState(p);
    OrderIsByFirstIndex(Compacted(p));
    assert x in kept && y in kept;
  }

  /**
   Every entry that the prefix leaves tombstoned and that comes back keeps its place:
   what used to come after it comes back too or is new, and is not mentioned before
   it in the rest of the log.
   */
  ghost predicate RevivedKeepPlace(p: seq<Line>, q: seq<Line>) {
    forall r, z :: Revived(p, q, r) && z in Alive(p + q) && FirstIndex(p + q, r) < FirstIndex(p + q, z) ==>
      z !in Alive(p) && FirstIndex(q, r) < FirstIndex(q, z)
  }

  /** Compacting a prefix leaves the loaded sequence as it is if and only if revived entries keep their place. */
  lemma {:induction false} CompactionKeepsSequenceIff(p: seq<Line>, q: seq<Line>)
    ensures Resolved(Compacted(p) + q) == Resolved(p + q) <==> RevivedKeepPlace(p, q)
  {
    hide FirstIndex, Alive, Order, Compacted, Resolved;
    var a, b := p + q, Compacted(p) + q;
    CompactionKeepsEntries(p, q);
    LoadedAlikeIff(a, b);
    forall x, y | x in Alive(a) && y in Alive(a)
      ensures Agree(a, b, x, y) <==>
        (Revived(p, q, x) && FirstIndex(a, x) < FirstIndex(a, y) ==>
           y !in Alive(p) && FirstIndex(q, x) < FirstIndex(q, y))
    {
      FirstMentions(p, q, x);
      FirstMentions(p, q, y);
      if x in Alive(p) && y in Alive(p) {
        CompactedOrder(p, x, y);
      }
    }
  }

  /** So it does when no tombstoned ID comes back. */
  lemma {:induction false} CompactionKeepsSequence(p: seq<Line>, q: seq<Line>)
    requires NothingRevived(p, q)
    ensures Resolved(Compacted(p) + q) == Resolved(p + q)
  {
    hide Order, Alive, FirstIndex, Resolved, Compacted;
    CompactionKeepsSequenceIff(p, q);
  }

  /** Otherwise it may not: an entry that comes back loses the place it had. */
  lemma {:induction false} RevivedEntryMoves(x: Entry, y: Entry)
    requires x.id != y.id
    ensures var p, q := [Version(x), Version(y), Tombstone(x.id)], [Version(x)];
      && Resolved(p + q) == [x, y]
      && Resolved(Compacted(p) + q) == [y, x]
  {
    var p, q := [Version(x), Version(y), Tombstone(x.id)], [Version(x)];
    hide Order, Alive, Resolved, Compacted;
    TwoVersions(x, y);
    TwoVersions(y, x);
    LogStep([Version(x), Version(y)], Tombstone(x.id));
    assert [Version(x), Version(y)] + [Tombstone(x.id)] == p;
    LogStep(p, Version(x));
    ResolvedTwo(p, x.id, y.id);
    ResolvedTwo(p + q, x.id, y.id);
    assert Compacted(p)[0] == Version(y);
    assert Compacted(p) + q == [Version(y), Version(x)];
    ResolvedTwo([Version(y), Version(x)], y.id, x.id);
  }

  lemma TwoVersions(x: Entry, y: Entry)
    requires x.id != y.id
    ensures Order([Version(x), Version(y)]) == [x.id, y.id]
    ensures Alive([Version(x), Version(y)]) == map[x.id := x, y.id := y]
  {
    hide Order, Alive;
    EmptyLog();
    LogStep([], Version(x));
    LogStep([Version(x)], Version(y));
    assert [] + [Version(x)] == [Version(x)] && [Version(x)] + [Version(y)] == [Version(x), Version(y)];
  }

  lemma ResolvedTwo(log: seq<Line>, a: string, b: string)
    requires Order(log) == [a, b]
    ensures Resolved(log) ==
      (if a in Alive(log) then [Alive(log)[a]] else []) + (if b in Alive(log) then [Alive(log)[b]] else [])
  {
    hide Order, Alive;
    EmitTwo(a, b, Alive(log));
  }

  lemma EmitTwo(a: string, b: string, alive: map<string, Entry>)
    ensures Emit([a, b], alive) ==
      (if a in alive then [alive[a]] else []) + (if b in alive then [alive[b]] else [])
  {
    hide Emit;
    EmitOne(a, alive);
    EmitOne(b, alive);
    EmitAppend([a], [b], alive);
    assert [a] + [b] == [a, b];
  }
}
