/** Rounds, witnesses and "strongly sees", as functions of an event and its ancestors only. */
module Rounds {
  import opened Events
  import opened Ancestry

  /** The identities with an event on a path from `w` up to `e`. */
  ghost function Between(w: Event, e: Event): set<nat> {
    set x | x in Anc(e) && w in Anc(x) :: x.id
  }

  ghost predicate StronglySees(nmt: nat, w: Event, e: Event) {
    |Between(w, e)| >= nmt
  }

  ghost function MaxRound(nmt: nat, es: seq<Event>): nat
    decreases es, 0
  {
    if es == [] then 0 else Max(Round(nmt, es[0]), MaxRound(nmt, es[1..]))
  }

  /** The largest round among the direct ancestors. */
  ghost function BaseRound(nmt: nat, e: Event): nat
    requires e.Derived?
    decreases e, 0
  {
    Max(Round(nmt, e.parent), MaxRound(nmt, e.remotes))
  }

  ghost function Round(nmt: nat, e: Event): nat
    decreases e, 2
  {
    if e.Genesis? then 0
    else
      var r := BaseRound(nmt, e);
      if |Seen(nmt, e, r)| >= nmt then r + 1 else r
  }

  /** An event is a witness when it is the first of its identity in its round. */
  ghost predicate IsWitness(nmt: nat, e: Event)
    decreases e, 3
  {
    e.Genesis? || Round(nmt, e.parent) < Round(nmt, e)
  }

  /** The witnesses of round `r` that `e` strongly sees. */
  ghost function Seen(nmt: nat, e: Event, r: nat): set<Event>
    decreases e, 1
  {
    set w | w in Anc(e) && w != e && WitnessOf(nmt, w, r, e) && StronglySees(nmt, w, e)
  }

  /** `w` is a witness of round `r`; `top` only bounds the recursion. */
  ghost predicate WitnessOf(nmt: nat, w: Event, r: nat, top: Event)
    requires w in Anc(top) && w != top
    decreases top, 0
  {
    AncSmaller(w, top);
    IsWitness(nmt, w) && Round(nmt, w) == r
  }

  // ----- Rounds grow along paths -----

  lemma {:induction false} MaxRoundBounds(nmt: nat, es: seq<Event>)
    ensures forall p :: p in es ==> Round(nmt, p) <= MaxRound(nmt, es)
    ensures es != [] ==> exists p :: p in es && Round(nmt, p) == MaxRound(nmt, es)
  {
    if es != [] {
      MaxRoundBounds(nmt, es[1..]);
      forall p | p in es ensures Round(nmt, p) <= MaxRound(nmt, es) {
        if p != es[0] { assert p in es[1..]; }
      }
      if MaxRound(nmt, es) == Round(nmt, es[0]) {
        assert es[0] in es;
      } else {
        var p :| p in es[1..] && Round(nmt, p) == MaxRound(nmt, es[1..]);
        assert p in es;
      }
    }
  }

  lemma BaseRoundBounds(nmt: nat, e: Event)
    requires e.Derived?
    ensures forall p :: p in Parents(e) ==> Round(nmt, p) <= BaseRound(nmt, e)
    ensures exists p :: p in Parents(e) && Round(nmt, p) == BaseRound(nmt, e)
  {
    MaxRoundBounds(nmt, e.remotes);
    assert e.parent in Parents(e);
    if BaseRound(nmt, e) != Round(nmt, e.parent) {
      var p :| p in e.remotes && Round(nmt, p) == MaxRound(nmt, e.remotes);
      assert p in Parents(e);
    }
  }

  lemma {:induction false} RoundMonotone(nmt: nat, a: Event, e: Event)
    requires a in Anc(e)
    ensures Round(nmt, a) <= Round(nmt, e)
    ensures a != e ==> e.Derived? && Round(nmt, a) <= BaseRound(nmt, e)
    decreases e
  {
    AncCases(a, e);
    if a != e {
      var p :| p in Parents(e) && a in Anc(p);
      RoundMonotone(nmt, a, p);
      BaseRoundBounds(nmt, e);
    }
  }

  // ----- Strongly seeing -----

  lemma BetweenMonotone(w: Event, e: Event, f: Event)
    requires e in Anc(f)
    ensures Between(w, e) <= Between(w, f)
  {
    AncTransitive(e, f);
  }

  lemma SubsetCard<T>(a: set<T>, b: set<T>)
    requires a <= b
    ensures |a| <= |b|
    ensures |b - a| == |b| - |a|
  {
    assert b == a + (b - a);
  }

  lemma StronglySeesAncestor(nmt: nat, w: Event, e: Event)
    requires nmt > 0 && StronglySees(nmt, w, e)
    ensures w in Anc(e)
  {
    var i :| i in Between(w, e);
    var x :| x in Anc(e) && w in Anc(x) && x.id == i;
    AncTransitive(x, e);
  }

  lemma SeenMonotone(nmt: nat, e: Event, f: Event, r: nat)
    requires e in Anc(f)
    ensures Seen(nmt, e, r) <= Seen(nmt, f, r)
  {
    AncTransitive(e, f);
    forall w | w in Seen(nmt, e, r) ensures w in Seen(nmt, f, r) {
      BetweenMonotone(w, e, f);
      SubsetCard(Between(w, e), Between(w, f));
      if w == f { AncAntisymmetric(e, f); }
      assert WitnessOf(nmt, w, r, e) && WitnessOf(nmt, w, r, f);
    }
  }

  /** Every event past round 0 strongly sees `nmt` witnesses of the round before its own. */
  lemma {:induction false} RoundNeedsQuorum(nmt: nat, e: Event)
    requires Round(nmt, e) > 0
    ensures |Seen(nmt, e, Round(nmt, e) - 1)| >= nmt
    decreases e
  {
    var r := BaseRound(nmt, e);
    if Round(nmt, e) == r {
      BaseRoundBounds(nmt, e);
      var p :| p in Parents(e) && Round(nmt, p) == r;
      RoundNeedsQuorum(nmt, p);
      AncCases(p, e);
      SeenMonotone(nmt, p, e, r - 1);
      SubsetCard(Seen(nmt, p, r - 1), Seen(nmt, e, r - 1));
    }
  }

  // ----- Witnesses of a fork-free graph -----

  ghost function Witnesses(nmt: nat, D: set<Event>, r: nat): set<Event> {
    set w | w in D && IsWitness(nmt, w) && Round(nmt, w) == r
  }

  /** Each identity has at most one witness per round. */
  lemma WitnessUnique(n: nat, nmt: nat, D: set<Event>, v: Event, w: Event)
    requires Dag(n, D) && ForkFree(D) && v in D && w in D
    requires IsWitness(nmt, v) && IsWitness(nmt, w)
    requires v.id == w.id && Round(nmt, v) == Round(nmt, w)
    ensures v == w
  {
    if v.index < w.index {
      WitnessOrder(n, nmt, D, v, w);
    } else if w.index < v.index {
      WitnessOrder(n, nmt, D, w, v);
    }
  }

  /** A witness is in a later round than every earlier event of its identity. */
  lemma WitnessOrder(n: nat, nmt: nat, D: set<Event>, v: Event, w: Event)
    requires Dag(n, D) && ForkFree(D) && v in D && w in D
    requires IsWitness(nmt, w) && v.id == w.id && v.index < w.index
    ensures Round(nmt, v) < Round(nmt, w)
  {
    assert w.parent in Parents(w);
    ChainAncestor(n, D, v, w.parent);
    RoundMonotone(nmt, v, w.parent);
  }

  ghost function Ids(S: set<Event>): set<nat> { set e | e in S :: e.id }

  lemma {:induction false} IdsCard(S: set<Event>)
    requires forall a, b :: a in S && b in S && a.id == b.id ==> a == b
    ensures |Ids(S)| == |S|
  {
    if S != {} {
      var a :| a in S;
      var T := S - {a};
      IdsCard(T);
      assert Ids(S) == Ids(T) + {a.id};
    }
  }

  lemma {:induction false} BelowCard(n: nat, ids: set<nat>)
    requires forall i :: i in ids ==> i < n
    ensures |ids| <= n
  {
    if n > 0 {
      BelowCard(n - 1, ids - {n - 1});
    }
  }

  lemma WitnessesAtMostN(n: nat, nmt: nat, D: set<Event>, r: nat)
    requires Dag(n, D) && ForkFree(D)
    ensures |Witnesses(nmt, D, r)| <= n
    ensures |Ids(Witnesses(nmt, D, r))| == |Witnesses(nmt, D, r)|
  {
    var W := Witnesses(nmt, D, r);
    forall a, b | a in W && b in W && a.id == b.id ensures a == b {
      WitnessUnique(n, nmt, D, a, b);
    }
    IdsCard(W);
    BelowCard(n, Ids(W));
  }

  lemma SeenAreWitnesses(n: nat, nmt: nat, D: set<Event>, e: Event, r: nat)
    requires Dag(n, D) && e in D
    ensures Seen(nmt, e, r) <= Witnesses(nmt, D, r)
  {
    DagClosed(n, D, e);
  }

  /** Every round below that of an event of the graph has at least `nmt` witnesses. */
  lemma {:induction false} RoundsBelowAreFull(n: nat, nmt: nat, D: set<Event>, e: Event, r: nat)
    requires Dag(n, D) && e in D && nmt > 0 && r < Round(nmt, e)
    ensures |Witnesses(nmt, D, r)| >= nmt
    decreases Round(nmt, e)
  {
    hide Anc, Round, IsWitness, StronglySees, Seen, Dag;
    var s := Round(nmt, e) - 1;
    RoundNeedsQuorum(nmt, e);
    SeenAreWitnesses(n, nmt, D, e, s);
    SubsetCard(Seen(nmt, e, s), Witnesses(nmt, D, s));
    if r < s {
      var w :| w in Seen(nmt, e, s);
      RoundsBelowAreFull(n, nmt, D, w, r);
    }
  }

  /** The quorum of an event past round 0 has `nmt` different identities. */
  lemma QuorumIdentities(n: nat, nmt: nat, D: set<Event>, e: Event)
    requires Dag(n, D) && ForkFree(D) && e in D && Round(nmt, e) > 0
    ensures |Ids(Seen(nmt, e, Round(nmt, e) - 1))| >= nmt
  {
    var S := Seen(nmt, e, Round(nmt, e) - 1);
    RoundNeedsQuorum(nmt, e);
    SeenAreWitnesses(n, nmt, D, e, Round(nmt, e) - 1);
    forall a, b | a in S && b in S && a.id == b.id ensures a == b {
      WitnessUnique(n, nmt, D, a, b);
    }
    IdsCard(S);
  }

  // ----- What the definitions mean -----

  /** Strongly seeing, without naming paths: at least `nmt` identities have an event that is below `e` and
      above `w`. */
  lemma StronglySeesMeans(nmt: nat, w: Event, e: Event)
    ensures StronglySees(nmt, w, e) <==> exists X: set<Event> :: ManyBetween(nmt, w, e, X)
  {
    hide Anc;
    var X := set x | x in Anc(e) && w in Anc(x);
    assert Ids(X) == Between(w, e);
    if StronglySees(nmt, w, e) { assert ManyBetween(nmt, w, e, X); }
    if Y: set<Event> :| ManyBetween(nmt, w, e, Y) {
      assert Ids(Y) <= Between(w, e);
      SubsetCard(Ids(Y), Between(w, e));
    }
  }

  ghost predicate ManyBetween(nmt: nat, w: Event, e: Event, X: set<Event>) {
    |Ids(X)| >= nmt && forall x :: x in X ==> x in Anc(e) && w in Anc(x)
  }

  /** The round of an event is past `r` exactly when the event strongly sees `nmt` witnesses of round `r`. */
  lemma {:induction false} RoundExactly(nmt: nat, e: Event, r: nat)
    requires nmt > 0
    ensures Round(nmt, e) > r <==> |Seen(nmt, e, r)| >= nmt
    decreases e
  {
    if |Seen(nmt, e, r)| >= nmt {
      SeenAdvances(nmt, e, r);
    } else if Round(nmt, e) > r {
      RoundNeedsQuorum(nmt, e);
      if r < Round(nmt, e) - 1 {
        var w :| w in Seen(nmt, e, Round(nmt, e) - 1);
        AncSmaller(w, e);
        RoundExactly(nmt, w, r);
        SeenMonotone(nmt, w, e, r);
        SubsetCard(Seen(nmt, w, r), Seen(nmt, e, r));
      }
    }
  }

  lemma SeenAdvances(nmt: nat, e: Event, r: nat)
    requires nmt > 0 && |Seen(nmt, e, r)| >= nmt
    ensures Round(nmt, e) > r
  {
    var w :| w in Seen(nmt, e, r);
    RoundMonotone(nmt, w, e);
  }

  /** A witness is the first event of its identity in its round. */
  lemma WitnessIsFirst(n: nat, nmt: nat, D: set<Event>, e: Event)
    requires Dag(n, D) && ForkFree(D) && e in D
    ensures IsWitness(nmt, e) <==> forall a :: a in D && a.id == e.id && a.index < e.index ==> Round(nmt, a) < Round(nmt, e)
  {
    if IsWitness(nmt, e) {
      forall a | a in D && a.id == e.id && a.index < e.index ensures Round(nmt, a) < Round(nmt, e) {
        WitnessOrder(n, nmt, D, a, e);
      }
    } else {
      assert e.parent in Parents(e);
    }
  }
}
