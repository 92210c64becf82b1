/** Lists of events received from another node, kept per identity and sorted by index. */
module Batches {
  import opened Events

  /** By increasing index; the order of equal indices does not matter. */
  ghost predicate SortedByIndex(s: seq<EventInfo>) {
    forall i, j :: 0 <= i <= j < |s| ==> s[i].local.index <= s[j].local.index
  }

  function Insert(x: EventInfo, s: seq<EventInfo>): seq<EventInfo> {
    if s == [] || x.local.index <= s[0].local.index then [x] + s else [s[0]] + Insert(x, s[1..])
  }

  lemma {:induction false} InsertKeeps(x: EventInfo, s: seq<EventInfo>)
    ensures multiset(Insert(x, s)) == multiset(s) + multiset{x}
  {
    if s != [] && x.local.index > s[0].local.index {
      InsertKeeps(x, s[1..]);
      assert s == [s[0]] + s[1..];
    }
  }

  lemma SortedCons(x: EventInfo, s: seq<EventInfo>)
    requires SortedByIndex(s) && forall y :: y in s ==> x.local.index <= y.local.index
    ensures SortedByIndex([x] + s)
  {
  }

  lemma {:induction false} InsertSorts(x: EventInfo, s: seq<EventInfo>)
    requires SortedByIndex(s)
    ensures SortedByIndex(Insert(x, s))
  {
    if s == [] || x.local.index <= s[0].local.index {
      SortedCons(x, s);
    } else {
      var u := Insert(x, s[1..]);
      InsertSorts(x, s[1..]);
      InsertKeeps(x, s[1..]);
      forall y | y in u ensures s[0].local.index <= y.local.index {
        assert y in multiset(u);
      }
      SortedCons(s[0], u);
    }
  }

  function Sort(s: seq<EventInfo>): seq<EventInfo> {
    if s == [] then [] else Insert(s[0], Sort(s[1..]))
  }

  lemma {:induction false} SortSorts(s: seq<EventInfo>)
    ensures SortedByIndex(Sort(s)) && multiset(Sort(s)) == multiset(s)
  {
    if s != [] {
      SortSorts(s[1..]);
      InsertSorts(s[0], Sort(s[1..]));
      InsertKeeps(s[0], Sort(s[1..]));
      assert s == [s[0]] + s[1..];
    }
  }

  lemma Cancel(a: multiset<EventInfo>, b: multiset<EventInfo>, c: multiset<EventInfo>)
    requires a + c == b + c
    ensures a == b
  {
    forall x ensures a[x] == b[x] {
      assert (a + c)[x] == (b + c)[x];
    }
  }

  /** All events of the lists. */
  ghost function Union(all: seq<seq<EventInfo>>): multiset<EventInfo> {
    if all == [] then multiset{} else Union(all[..|all| - 1]) + multiset(all[|all| - 1])
  }

  lemma {:induction false} UnionMembers(all: seq<seq<EventInfo>>, x: EventInfo)
    ensures x in Union(all) <==> exists i :: 0 <= i < |all| && x in all[i]
  {
    if all != [] {
      var k := |all| - 1;
      UnionMembers(all[..k], x);
      if i :| 0 <= i < |all| && x in all[i] {
        if i < k { assert all[..k][i] == all[i]; }
      }
      if i :| 0 <= i < k && x in all[..k][i] {
        assert x in all[i];
      }
    }
  }

  lemma {:induction false} UnionUpdate(all: seq<seq<EventInfo>>, i: nat, s: seq<EventInfo>)
    requires i < |all|
    ensures Union(all[i := s]) + multiset(all[i]) == Union(all) + multiset(s)
  {
    var k := |all| - 1;
    if i == k {
      assert all[i := s][..k] == all[..k];
    } else {
      UnionUpdate(all[..k], i, s);
      assert all[i := s][..k] == all[..k][i := s];
      var u, v, t := Union(all[..k][i := s]), Union(all[..k]), multiset(all[k]);
      assert u + t + multiset(all[i]) == u + multiset(all[i]) + t;
      assert v + multiset(s) + t == v + t + multiset(s);
    }
  }

  lemma UnionAppend(all: seq<seq<EventInfo>>, i: nat, x: EventInfo)
    requires i < |all|
    ensures Union(all[i := all[i] + [x]]) == Union(all) + multiset{x}
  {
    UnionUpdate(all, i, all[i] + [x]);
    Cancel(Union(all[i := all[i] + [x]]), Union(all) + multiset{x}, multiset(all[i]));
  }

  lemma UnionTail(all: seq<seq<EventInfo>>, i: nat)
    requires i < |all| && all[i] != []
    ensures Union(all[i := all[i][1..]]) + multiset{all[i][0]} == Union(all)
  {
    var u := multiset(all[i][1..]);
    UnionUpdate(all, i, all[i][1..]);
    assert all[i] == [all[i][0]] + all[i][1..];
    assert multiset(all[i]) == multiset{all[i][0]} + u;
    Cancel(Union(all[i := all[i][1..]]) + multiset{all[i][0]}, Union(all), u);
  }

  lemma UnionSame(all: seq<seq<EventInfo>>, i: nat, s: seq<EventInfo>)
    requires i < |all| && multiset(s) == multiset(all[i])
    ensures Union(all[i := s]) == Union(all)
  {
    UnionUpdate(all, i, s);
    Cancel(Union(all[i := s]), Union(all), multiset(s));
  }

  function Empties(n: nat): (all: seq<seq<EventInfo>>)
    ensures |all| == n && (forall i :: 0 <= i < n ==> all[i] == []) && Union(all) == multiset{}
  {
    if n == 0 then [] else
      assert (Empties(n - 1) + [[]])[..n - 1] == Empties(n - 1);
      Empties(n - 1) + [[]]
  }

  /** The lists one after the other. */
  function Concat(all: seq<seq<EventInfo>>): (s: seq<EventInfo>)
    ensures multiset(s) == Union(all)
  {
    if all == [] then [] else Concat(all[..|all| - 1]) + all[|all| - 1]
  }

  /** The wire forms of the events. */
  function InfosOf(es: seq<Event>): (s: seq<EventInfo>)
    ensures |s| == |es| && forall k :: 0 <= k < |es| ==> s[k] == Info(es[k])
  {
    if es == [] then [] else InfosOf(es[..|es| - 1]) + [Info(es[|es| - 1])]
  }

  lemma InfosAppend(es: seq<Event>, e: Event)
    ensures InfosOf(es + [e]) == InfosOf(es) + [Info(e)]
  {
    assert (es + [e])[..|es|] == es;
  }

  /** How many events are left. */
  function Size(all: seq<seq<EventInfo>>): nat {
    if all == [] then 0 else Size(all[..|all| - 1]) + |all[|all| - 1]|
  }

  lemma {:induction false} SizeTail(all: seq<seq<EventInfo>>, i: nat)
    requires i < |all| && all[i] != []
    ensures Size(all[i := all[i][1..]]) == Size(all) - 1
  {
    var k := |all| - 1;
    if i == k {
      assert all[i := all[i][1..]][..k] == all[..k];
    } else {
      SizeTail(all[..k], i);
      assert all[i := all[i][1..]][..k] == all[..k][i := all[..k][i][1..]];
    }
  }
}
