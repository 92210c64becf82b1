/** Virtual voting on witnesses, and agreement between any two graphs of one fork-free DAG. */
module Elections {
  import opened Events
  import opened Ancestry
  import opened Rounds

  /** The vote of witness `w` on witness `x`: in the round after `x`, whether `x` is an
      ancestor; later, the majority among the witnesses of the round before that `w`
      strongly sees. */
  ghost predicate Vote(nmt: nat, x: Event, w: Event)
    decreases w, 2
  {
    if Round(nmt, w) <= Round(nmt, x) + 1 then x in Anc(w)
    else |For(nmt, x, w, true)| >= |For(nmt, x, w, false)|
  }

  /** The witnesses of the round before `w` that `w` strongly sees and that vote `b` on `x`. */
  ghost function For(nmt: nat, x: Event, w: Event, b: bool): set<Event>
    requires Round(nmt, w) > 0
    decreases w, 1
  {
    set v | v in Seen(nmt, w, Round(nmt, w) - 1) && VoteBelow(nmt, x, v, w) == b
  }

  ghost predicate VoteBelow(nmt: nat, x: Event, v: Event, top: Event)
    requires v in Anc(top) && v != top
    decreases top, 0
  {
    AncSmaller(v, top);
    Vote(nmt, x, v)
  }

  /** Witness `w` settles the election of `x` with value `b`. */
  ghost predicate Decides(nmt: nat, x: Event, w: Event, b: bool) {
    && IsWitness(nmt, w)
    && Round(nmt, w) >= Round(nmt, x) + 2
    && |For(nmt, x, w, b)| >= nmt
  }

  ghost predicate Quorums(n: nat, nmt: nat) { nmt <= n && 3 * nmt > 2 * n }

  lemma ForSplits(nmt: nat, x: Event, w: Event)
    requires Round(nmt, w) > 0
    ensures |For(nmt, x, w, true)| + |For(nmt, x, w, false)| == |Seen(nmt, w, Round(nmt, w) - 1)|
    ensures |Seen(nmt, w, Round(nmt, w) - 1)| >= nmt
  {
    hide Anc, Round, IsWitness, StronglySees, Vote;
    var S := Seen(nmt, w, Round(nmt, w) - 1);
    assert For(nmt, x, w, false) == S - For(nmt, x, w, true);
    SubsetCard(For(nmt, x, w, true), S);
    RoundNeedsQuorum(nmt, w);
  }

  lemma DisjointQuorum<T>(A: set<T>, B: set<T>, All: set<T>)
    requires A <= All && B <= All && A !! B
    ensures |A| + |B| <= |All|
  {
    SubsetCard(A + B, All);
  }

  lemma ForDisjoint(n: nat, nmt: nat, D: set<Event>, x: Event, w: Event, v: Event, b: bool)
    requires Dag(n, D) && ForkFree(D) && w in D && v in D
    requires Round(nmt, v) == Round(nmt, w) > 0
    ensures |For(nmt, x, w, b)| + |For(nmt, x, v, !b)| <= n
  {
    hide Anc, Round, IsWitness, StronglySees, Dag, ForkFree, Witnesses;
    var r := Round(nmt, w) - 1;
    SeenAreWitnesses(n, nmt, D, w, r);
    SeenAreWitnesses(n, nmt, D, v, r);
    WitnessesAtMostN(n, nmt, D, r);
    forall u | u in For(nmt, x, w, b) ensures u !in For(nmt, x, v, !b) {
      assert VoteBelow(nmt, x, u, w) == Vote(nmt, x, u);
    }
    DisjointQuorum(For(nmt, x, w, b), For(nmt, x, v, !b), Witnesses(nmt, D, r));
  }

  /** When `w` decides `b`, every witness of the same round votes `b`, and none decides the
      other value: the two quorums of the round before share too many witnesses. */
  lemma SameRoundMajority(n: nat, nmt: nat, D: set<Event>, x: Event, w: Event, b: bool, v: Event)
    requires Dag(n, D) && ForkFree(D) && Quorums(n, nmt) && w in D && v in D
    requires Decides(nmt, x, w, b) && IsWitness(nmt, v) && Round(nmt, v) == Round(nmt, w)
    ensures Vote(nmt, x, v) == b
    ensures !Decides(nmt, x, v, !b)
  {
    ForDisjoint(n, nmt, D, x, w, v, b);
    ForSplits(nmt, x, v);
  }

  /** Once `w` decides `b`, every witness of that round and of all later rounds votes `b`
      and none decides the other value. */
  lemma {:induction false} DecisionSticks(n: nat, nmt: nat, D: set<Event>, x: Event, w: Event, b: bool, v: Event)
    requires Dag(n, D) && ForkFree(D) && Quorums(n, nmt) && w in D && v in D
    requires Decides(nmt, x, w, b) && IsWitness(nmt, v) && Round(nmt, v) >= Round(nmt, w)
    ensures Vote(nmt, x, v) == b
    ensures !Decides(nmt, x, v, !b)
    decreases Round(nmt, v)
  {
    if Round(nmt, v) == Round(nmt, w) {
      SameRoundMajority(n, nmt, D, x, w, b, v);
    } else {
      var r := Round(nmt, v) - 1;
      SeenAreWitnesses(n, nmt, D, v, r);
      forall u | u in Seen(nmt, v, r) ensures VoteBelow(nmt, x, u, v) == b {
        DecisionSticks(n, nmt, D, x, w, b, u);
      }
      assert For(nmt, x, v, !b) == {};
      ForSplits(nmt, x, v);
    }
  }

  /** Agreement: two graphs of one fork-free DAG that both decide `x` decide the same value,
      whatever witnesses and rounds they decide it by. */
  lemma Agreement(n: nat, nmt: nat, D: set<Event>, E: set<Event>, x: Event, w: Event, b: bool, v: Event, c: bool)
    requires Dag(n, D) && Dag(n, E) && ForkFree(D + E) && Quorums(n, nmt)
    requires w in D && v in E && Decides(nmt, x, w, b) && Decides(nmt, x, v, c)
    ensures b == c
  {
    var U := D + E;
    if Round(nmt, w) <= Round(nmt, v) {
      DecisionSticks(n, nmt, U, x, w, b, v);
    } else {
      DecisionSticks(n, nmt, U, x, v, c, w);
    }
  }

  /** A witness missing from a graph that has settled some election of its round is voted
      down by a witness of that graph. */
  lemma MissingWitnessVotedDown(n: nat, nmt: nat, D: set<Event>, x: Event, w: Event) returns (u: Event)
    requires Dag(n, D) && Quorums(n, nmt) && w in D && x !in D
    requires IsWitness(nmt, w) && Round(nmt, w) >= Round(nmt, x) + 2
    ensures u in D && Decides(nmt, x, u, false)
  {
    var r := Round(nmt, x) + 2;
    if Round(nmt, w) == r {
      u := w;
    } else {
      RoundsBelowAreFull(n, nmt, D, w, r);
      u :| u in Witnesses(nmt, D, r);
    }
    SeenAreWitnesses(n, nmt, D, u, r - 1);
    forall v | v in Seen(nmt, u, r - 1) ensures !VoteBelow(nmt, x, v, u) {
      DagClosed(n, D, v);
    }
    ForSplits(nmt, x, u);
    assert For(nmt, x, u, true) == {};
  }

  /** Late witnesses lose: once a graph has settled an election of round `r`, a witness of
      that round it does not hold can be decided yes by no witness of any graph. */
  lemma LateWitnessLoses(n: nat, nmt: nat, D: set<Event>, E: set<Event>, x: Event, w: Event, v: Event)
    requires Dag(n, D) && Dag(n, E) && ForkFree(D + E) && Quorums(n, nmt)
    requires w in D && x !in D && v in E
    requires IsWitness(nmt, w) && Round(nmt, w) >= Round(nmt, x) + 2
    ensures !Decides(nmt, x, v, true)
  {
    if Decides(nmt, x, v, true) {
      var u := MissingWitnessVotedDown(n, nmt, D, x, w);
      Agreement(n, nmt, D, E, x, u, false, v, true);
    }
  }

  // ----- What a node reports -----

  /** The events of a node's graph and the verdicts it has recorded. */
  datatype View = View(events: set<Event>, verdict: map<Event, bool>)

  /** Verdicts are given to witnesses only: the first events are accepted from the start,
      the others by an election settled inside the graph. */
  ghost predicate Sound(n: nat, nmt: nat, V: View) {
    && Dag(n, V.events) && ForkFree(V.events)
    && (forall i: nat :: i < n ==> Genesis(i, 0) in V.events)
    && forall x :: x in V.verdict ==> x in V.events && IsWitness(nmt, x) && Settled(nmt, V, x, V.verdict[x])
  }

  ghost predicate Settled(nmt: nat, V: View, x: Event, b: bool) {
    if x.Genesis? then b else exists w :: w in V.events && Decides(nmt, x, w, b)
  }

  ghost predicate RoundDecided(nmt: nat, V: View, r: nat) {
    var W := Witnesses(nmt, V.events, r);
    W != {} && W <= V.verdict.Keys
  }

  ghost function Accepted(nmt: nat, V: View, r: nat): set<Event> {
    set x | x in Witnesses(nmt, V.events, r) && x in V.verdict && V.verdict[x]
  }

  lemma AcceptedElsewhere(n: nat, nmt: nat, V: View, U: View, r: nat, x: Event)
    requires Quorums(n, nmt) && Sound(n, nmt, V) && Sound(n, nmt, U) && ForkFree(U.events + V.events)
    requires RoundDecided(nmt, U, r) && x.Derived? && x in Accepted(nmt, V, r)
    ensures x in Accepted(nmt, U, r)
  {
    var v :| v in V.events && Decides(nmt, x, v, true);
    if x !in U.events {
      var y :| y in Witnesses(nmt, U.events, r);
      var w :| w in U.events && Decides(nmt, y, w, U.verdict[y]);
      LateWitnessLoses(n, nmt, U.events, V.events, x, w, v);
    } else {
      assert x in Witnesses(nmt, U.events, r);
      var u :| u in U.events && Decides(nmt, x, u, U.verdict[x]);
      Agreement(n, nmt, U.events, V.events, x, u, U.verdict[x], v, true);
    }
  }

  lemma AcceptedIncluded(n: nat, nmt: nat, V: View, U: View, r: nat)
    requires Quorums(n, nmt) && Sound(n, nmt, V) && Sound(n, nmt, U) && ForkFree(U.events + V.events)
    requires RoundDecided(nmt, U, r)
    ensures Accepted(nmt, V, r) <= Accepted(nmt, U, r)
  {
    forall x | x in Accepted(nmt, V, r) ensures x in Accepted(nmt, U, r) {
      if x.Derived? {
        AcceptedElsewhere(n, nmt, V, U, r, x);
      } else {
        assert x == Genesis(x.id, 0);
        assert x in Witnesses(nmt, U.events, r);
      }
    }
  }

  /** Any two nodes that report a round decided accept the same witnesses of that round. */
  lemma RoundAgreement(n: nat, nmt: nat, V: View, U: View, r: nat)
    requires Quorums(n, nmt) && Sound(n, nmt, V) && Sound(n, nmt, U) && ForkFree(V.events + U.events)
    requires RoundDecided(nmt, V, r) && RoundDecided(nmt, U, r)
    ensures Accepted(nmt, V, r) == Accepted(nmt, U, r)
  {
    assert U.events + V.events == V.events + U.events;
    AcceptedIncluded(n, nmt, V, U, r);
    AcceptedIncluded(n, nmt, U, V, r);
  }

  /** A decided round has at least `nmt` witnesses. */
  lemma DecidedRoundIsFull(n: nat, nmt: nat, V: View, r: nat)
    requires Quorums(n, nmt) && Sound(n, nmt, V) && RoundDecided(nmt, V, r)
    ensures |Witnesses(nmt, V.events, r)| >= nmt
  {
    var x :| x in Witnesses(nmt, V.events, r);
    if x.Genesis? {
      GenesisCard(n, nmt, V.events, n);
    } else {
      var w :| w in V.events && Decides(nmt, x, w, V.verdict[x]);
      RoundsBelowAreFull(n, nmt, V.events, w, r);
    }
  }

  lemma {:induction false} GenesisCard(n: nat, nmt: nat, D: set<Event>, k: nat)
    requires forall i: nat :: i < n ==> Genesis(i, 0) in D
    requires k <= n
    ensures |Witnesses(nmt, D, 0)| >= k
  {
    var G := set i: nat | i < k :: Genesis(i, 0);
    assert G <= Witnesses(nmt, D, 0);
    SubsetCard(G, Witnesses(nmt, D, 0));
    GenesisPrefixCard(k);
  }

  lemma {:induction false} GenesisPrefixCard(k: nat)
    ensures |set i: nat | i < k :: Genesis(i, 0)| == k
  {
    var G := set i: nat | i < k :: Genesis(i, 0);
    if k > 0 {
      GenesisPrefixCard(k - 1);
      assert G == (set i: nat | i < k - 1 :: Genesis(i, 0)) + {Genesis(k - 1, 0)};
    }
  }

  // ----- What the thresholds are for -----

  /** Two events that strongly see something have an identity in common on the way to what they see. */
  lemma SharedIdentity(n: nat, nmt: nat, D: set<Event>, w: Event, e: Event, v: Event, f: Event) returns (x: Event, y: Event)
    requires Dag(n, D) && Quorums(n, nmt) && e in D && f in D && StronglySees(nmt, w, e) && StronglySees(nmt, v, f)
    ensures x in Anc(e) && w in Anc(x) && y in Anc(f) && v in Anc(y) && x.id == y.id
  {
    hide Anc, Dag;
    var A, B := Between(w, e), Between(v, f);
    forall i | i in A + B ensures i < n { BetweenInRange(n, D, w, e, v, f, i); }
    if A !! B {
      BelowCard(n, A + B);
    }
    var i :| i in A && i in B;
    x :| x in Anc(e) && w in Anc(x) && x.id == i;
    y :| y in Anc(f) && v in Anc(y) && y.id == i;
  }

  lemma BetweenInRange(n: nat, D: set<Event>, w: Event, e: Event, v: Event, f: Event, i: nat)
    requires Dag(n, D) && e in D && f in D && (i in Between(w, e) || i in Between(v, f))
    ensures i < n
  {
    DagClosed(n, D, e);
    DagClosed(n, D, f);
  }

  /** Past the first round of an election, a witness votes yes exactly when at least half of the witnesses
      it strongly sees in the round before do; a tie is a yes. */
  lemma VoteIsMajority(nmt: nat, x: Event, w: Event)
    requires Round(nmt, w) >= Round(nmt, x) + 2
    ensures Vote(nmt, x, w) <==> exists A: set<Event> :: A <= Seen(nmt, w, Round(nmt, w) - 1) && VotedBy(nmt, x, A, true) && 2 * |A| >= |Seen(nmt, w, Round(nmt, w) - 1)|
  {
    hide Anc, Round, IsWitness, StronglySees, Seen, For;
    var S, T := Seen(nmt, w, Round(nmt, w) - 1), For(nmt, x, w, true);
    ForSplits(nmt, x, w);
    ForMeans(nmt, x, w, true);
    if A: set<Event> :| A <= S && VotedBy(nmt, x, A, true) && 2 * |A| >= |S| {
      SubsetCard(A, T);
    }
  }

  ghost predicate VotedBy(nmt: nat, x: Event, A: set<Event>, b: bool) {
    forall v :: v in A ==> Vote(nmt, x, v) == b
  }

  lemma ForMeans(nmt: nat, x: Event, w: Event, b: bool)
    requires Round(nmt, w) > 0
    ensures For(nmt, x, w, b) <= Seen(nmt, w, Round(nmt, w) - 1) && VotedBy(nmt, x, For(nmt, x, w, b), b)
    ensures forall A: set<Event> :: A <= Seen(nmt, w, Round(nmt, w) - 1) && VotedBy(nmt, x, A, b) ==> A <= For(nmt, x, w, b)
  {
    hide Anc, Round, IsWitness, StronglySees, Vote;
    forall A: set<Event>, v | A <= Seen(nmt, w, Round(nmt, w) - 1) && VotedBy(nmt, x, A, b) && v in A ensures v in For(nmt, x, w, b) {
      assert Vote(nmt, x, v) == b;
      assert VoteBelow(nmt, x, v, w) == b;
    }
  }

  /** A witness settles an election exactly when `nmt` witnesses it strongly sees in the round before vote
      one way, two rounds or more after the witness voted on. */
  lemma DecidesByQuorum(nmt: nat, x: Event, w: Event, b: bool)
    ensures Decides(nmt, x, w, b) <==> IsWitness(nmt, w) && Round(nmt, w) >= Round(nmt, x) + 2 && exists A: set<Event> :: A <= Seen(nmt, w, Round(nmt, w) - 1) && VotedBy(nmt, x, A, b) && |A| >= nmt
  {
    hide Anc, Round, IsWitness, StronglySees, Vote, Seen, For;
    if Round(nmt, w) >= Round(nmt, x) + 2 {
      ForMeans(nmt, x, w, b);
      if A: set<Event> :| A <= Seen(nmt, w, Round(nmt, w) - 1) && VotedBy(nmt, x, A, b) && |A| >= nmt {
        SubsetCard(A, For(nmt, x, w, b));
      }
    }
  }
}
