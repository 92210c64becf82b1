/** Why an event stands for its hash: in a graph whose encoded events do not collide under the hash, the hash
    of the encoded form identifies the event with all its ancestors. */
module EventIdentity {
  import opened Events
  import opened Ancestry
  import opened Varints
  import opened EventCodec

  type Digest = Octets -> Octets

  function ToOctets(b: Bytes): (s: Octets)
    ensures |s| == |b| && forall i :: 0 <= i < |b| ==> s[i] == b[i] as int
  {
    if b == [] then [] else ToOctets(b[..|b| - 1]) + [b[|b| - 1] as int]
  }

  lemma ToOctetsInjective(a: Bytes, b: Bytes)
    requires ToOctets(a) == ToOctets(b)
    ensures a == b
  {
    forall i | 0 <= i < |a| ensures a[i] == b[i] {
      assert ToOctets(a)[i] == ToOctets(b)[i];
      SameByte(a[i], b[i]);
    }
  }

  lemma SameByte(a: bv8, b: bv8)
    requires a as int == b as int
    ensures a == b
  {
  }

  /** What is sent for an event, with the hashes as bytes; `init` is the fixed initial hash. */
  function WireOf(h: Digest, init: Octets, e: Event): WireEvent
    decreases e, 1
  {
    if e.Genesis? then WireEvent(WirePointer(e.id, e.index, init), [WirePointer(0, 0, init)], [])
    else WireEvent(WirePointer(e.id, e.index, HashBytes(h, init, e.parent)), WirePointers(h, init, e.remotes), ToOctets(e.buff))
  }

  /** The hash of an event is taken over its encoded form. */
  function HashBytes(h: Digest, init: Octets, e: Event): Octets
    decreases e, 2
  {
    h(EventForm(WireOf(h, init, e)))
  }

  function WirePointers(h: Digest, init: Octets, es: seq<Event>): (ps: seq<WirePointer>)
    ensures |ps| == |es|
    ensures forall i :: 0 <= i < |es| ==> ps[i] == WirePointer(es[i].id, es[i].index, HashBytes(h, init, es[i]))
    decreases es, 0
  {
    if es == [] then [] else [WirePointer(es[0].id, es[0].index, HashBytes(h, init, es[0]))] + WirePointers(h, init, es[1..])
  }

  /** No two different encoded events of `D` have the same hash. */
  ghost predicate CollisionFree(h: Digest, init: Octets, D: set<Event>) {
    forall a, b :: a in D && b in D && HashBytes(h, init, a) == HashBytes(h, init, b) ==> EventForm(WireOf(h, init, a)) == EventForm(WireOf(h, init, b))
  }

  /** The sizes of all fields are those of the program's types. */
  ghost predicate Sized(h: Digest, init: Octets, D: set<Event>) {
    forall e :: e in D ==> EventOk(WireOf(h, init, e))
  }

  /** Events of one graph with the same encoded form are the same event. */
  lemma {:induction false} FormIdentifies(n: nat, D: set<Event>, h: Digest, init: Octets, a: Event, b: Event)
    requires Dag(n, D) && CollisionFree(h, init, D) && Sized(h, init, D) && a in D && b in D
    requires EventForm(WireOf(h, init, a)) == EventForm(WireOf(h, init, b))
    ensures a == b
    decreases a
  {
    hide EventForm, EventOk;
    var x, y := WireOf(h, init, a), WireOf(h, init, b);
    EventFormInjective(x, [], y, []);
    if a.Derived? {
      assert b.Derived?;
      assert a.parent in Parents(a) && b.parent in Parents(b);
      FormIdentifies(n, D, h, init, a.parent, b.parent);
      forall i | 0 <= i < |a.remotes| ensures a.remotes[i] == b.remotes[i] {
        assert x.remotes[i] == y.remotes[i];
        assert a.remotes[i] in Parents(a) && b.remotes[i] in Parents(b);
        FormIdentifies(n, D, h, init, a.remotes[i], b.remotes[i]);
      }
      assert a.remotes == b.remotes;
      ToOctetsInjective(a.buff, b.buff);
    }
  }

  /** So hashes may be compared instead of events, as the program does. */
  lemma HashIdentifies(n: nat, D: set<Event>, h: Digest, init: Octets, a: Event, b: Event)
    requires Dag(n, D) && CollisionFree(h, init, D) && Sized(h, init, D) && a in D && b in D
    ensures HashBytes(h, init, a) == HashBytes(h, init, b) <==> a == b
  {
    if HashBytes(h, init, a) == HashBytes(h, init, b) { FormIdentifies(n, D, h, init, a, b); }
  }
}
