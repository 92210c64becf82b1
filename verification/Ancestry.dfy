/** Plain reachability in the event graph, and the graphs the program accepts. */
module Ancestry {
  import opened Events

  /** All ancestors of `e`, with `e` itself. */
  ghost function Anc(e: Event): (s: set<Event>)
    decreases e
  {
    if e.Genesis? then {e} else {e} + Anc(e.parent) + AncAll(e.remotes)
  }

  ghost function AncAll(es: seq<Event>): (s: set<Event>)
    decreases es
  {
    if es == [] then {} else Anc(es[0]) + AncAll(es[1..])
  }

  lemma {:induction false} AncAllMembers(a: Event, es: seq<Event>)
    ensures a in AncAll(es) <==> exists p :: p in es && a in Anc(p)
  {
    if es != [] {
      AncAllMembers(a, es[1..]);
      assert AncAll(es) == Anc(es[0]) + AncAll(es[1..]);
      if a in AncAll(es[1..]) {
        var p :| p in es[1..] && a in Anc(p);
        assert p in es;
      }
      if p :| p in es && a in Anc(p) && p != es[0] {
        assert p in es[1..];
      }
    }
  }

  /** An ancestor is the event itself or an ancestor of a direct ancestor. */
  lemma AncCases(a: Event, e: Event)
    ensures a in Anc(e) <==> a == e || exists p :: p in Parents(e) && a in Anc(p)
  {
    if e.Derived? {
      AncAllMembers(a, e.remotes);
      assert e.parent in Parents(e);
    }
  }

  lemma {:induction false} AncSmaller(a: Event, e: Event)
    requires a in Anc(e)
    ensures a == e || a < e
    decreases e
  {
    AncCases(a, e);
    if a != e {
      var p :| p in Parents(e) && a in Anc(p);
      AncSmaller(a, p);
    }
  }

  lemma {:induction false} AncTransitive(b: Event, c: Event)
    requires b in Anc(c)
    ensures Anc(b) <= Anc(c)
    decreases c
  {
    AncCases(b, c);
    if b != c {
      var p :| p in Parents(c) && b in Anc(p);
      AncTransitive(b, p);
      forall a | a in Anc(b) ensures a in Anc(c) { AncCases(a, c); }
    }
  }

  lemma ParentAnc(p: Event, e: Event)
    requires p in Parents(e)
    ensures p in Anc(e) && Anc(p) <= Anc(e) && e !in Anc(p)
  {
    AncCases(p, p);
    AncCases(p, e);
    AncTransitive(p, e);
    if e in Anc(p) { AncSmaller(e, p); }
  }

  lemma AncAntisymmetric(a: Event, b: Event)
    requires a in Anc(b) && b in Anc(a)
    ensures a == b
  {
    AncSmaller(a, b);
    AncSmaller(b, a);
  }

  /** `D` is a graph a node can hold over `n` identities: every event carries the
      identity of its local ancestor and the following index, and its direct ancestors
      are in the graph. */
  ghost predicate Dag(n: nat, D: set<Event>) {
    forall e :: e in D ==> WellFormed(n, e) && forall p :: p in Parents(e) ==> p in D
  }

  ghost predicate WellFormed(n: nat, e: Event) {
    && e.id < n
    && (if e.Genesis? then e.index == 0 else e.id == e.parent.id && e.index == e.parent.index + 1)
  }

  /** No identity has two different events at one index. */
  ghost predicate ForkFree(D: set<Event>) {
    forall a, b :: a in D && b in D && a.id == b.id && a.index == b.index ==> a == b
  }

  lemma {:induction false} DagClosed(n: nat, D: set<Event>, e: Event)
    requires Dag(n, D) && e in D
    ensures Anc(e) <= D
    decreases e
  {
    forall a | a in Anc(e) ensures a in D {
      AncCases(a, e);
      if a != e {
        var p :| p in Parents(e) && a in Anc(p);
        DagClosed(n, D, p);
      }
    }
  }

  /** In a fork-free graph the events of one identity form a chain. */
  lemma {:induction false} ChainAncestor(n: nat, D: set<Event>, a: Event, b: Event)
    requires Dag(n, D) && ForkFree(D) && a in D && b in D
    requires a.id == b.id && a.index <= b.index
    ensures a in Anc(b)
    decreases b
  {
    if a.index < b.index {
      assert b.parent in Parents(b);
      ChainAncestor(n, D, a, b.parent);
      AncCases(a, b);
    }
  }
}
