/** What the recorded votes and verdicts must be, and how a traversal may change them. */
module Verdicts {
  import opened Events
  import opened Ancestry
  import opened Rounds
  import opened Elections
  import opened GraphColumns

  type Infos = map<Event, WitnessInfo>

  ghost predicate IsDecided(wi: Infos, x: Event) {
    x in wi && wi[x].decided != Unknown
  }

  /** Every witness among the ancestors of `e`, with `e`, is decided. */
  ghost predicate AllDecided(wi: Infos, e: Event) {
    forall x :: x in Anc(e) && x in wi ==> wi[x].decided != Unknown
  }

  /** No witness of the graph settles the election of `x`. */
  ghost predicate Fails(nmt: nat, S: set<Event>, x: Event) {
    forall w, b :: w in S ==> !Decides(nmt, x, w, b)
  }

  /** The votes recorded for `x` are those of witnesses of the next round, and are right. */
  ghost predicate VotesRight(n: nat, nmt: nat, S: set<Event>, x: Event, votes: seq<seq<bool>>) {
    && |votes| == n
    && (forall i :: 0 <= i < n ==> |votes[i]| <= 1)
    && (forall i :: 0 <= i < n && |votes[i]| == 1 ==>
          exists w :: w in Witnesses(nmt, S, Round(nmt, x) + 1) && w.id == i && votes[i][0] == (x in Anc(w)))
  }

  /** The votes on `x` were collected from every witness of the next round, or that round
      has too few. */
  ghost predicate Tried(n: nat, nmt: nat, S: set<Event>, x: Event, votes: seq<seq<bool>>) {
    || |Witnesses(nmt, S, Round(nmt, x) + 1)| < nmt
    || forall w :: w in Witnesses(nmt, S, Round(nmt, x) + 1) ==> w.id < |votes| && |votes[w.id]| == 1
  }

  /** `z` is undecided and another attempt at deciding it would change nothing. */
  ghost predicate Stuck(n: nat, nmt: nat, S: set<Event>, wi: Infos, z: Event) {
    z in wi && wi[z].decided == Unknown && Fails(nmt, S, z) && Tried(n, nmt, S, z, wi[z].votes)
  }

  ghost predicate HasStuck(n: nat, nmt: nat, S: set<Event>, wi: Infos, y: Event) {
    exists z :: z in Anc(y) && Stuck(n, nmt, S, wi, z)
  }

  /** Every witness below `e` is decided or waits for a stuck one. */
  ghost predicate Explored(n: nat, nmt: nat, S: set<Event>, wi: Infos, e: Event) {
    forall y :: y in Anc(e) && y in wi && wi[y].decided == Unknown ==> HasStuck(n, nmt, S, wi, y)
  }

  /** The recorded verdict on `x` was given by a witness of the graph, and all witnesses
      below `x` are decided. */
  ghost predicate VerdictOk(n: nat, nmt: nat, S: set<Event>, wi: Infos, x: Event)
    requires x in wi
  {
    if x.Genesis? then wi[x].decided == Yes
    else
      && VotesRight(n, nmt, S, x, wi[x].votes)
      && (wi[x].decided != Unknown ==>
            && AllDecided(wi, x)
            && exists w :: w in S && Decides(nmt, x, w, wi[x].decided == Yes) && Round(nmt, w) == wi[x].decidedRound)
  }

  ghost predicate VerdictsOk(n: nat, nmt: nat, S: set<Event>, wi: Infos, cleared: set<Event>) {
    && cleared <= S
    && (forall x :: x in wi ==> VerdictOk(n, nmt, S, wi, x))
    && forall e :: e in cleared ==> AllDecided(wi, e)
  }

  /** A verdict, and the round that gave it, never change once recorded. */
  ghost predicate Final(a: Infos, b: Infos) {
    forall x :: x in a && a[x].decided != Unknown ==> x in b && b[x] == a[x]
  }

  /** `x` may get a verdict only when some witness settles its election, a verdict never
      changes, and collected votes stay collected. */
  ghost predicate Advances(n: nat, nmt: nat, S: set<Event>, a: Infos, b: Infos) {
    && a.Keys == b.Keys
    && forall x :: x in a ==>
        && (a[x].decided != Unknown ==> b[x] == a[x])
        && (a[x].decided == Unknown && b[x].decided != Unknown ==> !Fails(nmt, S, x))
        && (Tried(n, nmt, S, x, a[x].votes) ==> Tried(n, nmt, S, x, b[x].votes))
  }

  lemma AdvancesTwice(n: nat, nmt: nat, S: set<Event>, a: Infos, b: Infos, c: Infos)
    requires Advances(n, nmt, S, a, b) && Advances(n, nmt, S, b, c)
    ensures Advances(n, nmt, S, a, c)
  {
    hide Fails, Tried;
  }

  lemma StuckStays(n: nat, nmt: nat, S: set<Event>, a: Infos, b: Infos, z: Event)
    requires Advances(n, nmt, S, a, b) && Stuck(n, nmt, S, a, z)
    ensures Stuck(n, nmt, S, b, z)
  {
    hide Fails, Tried;
  }

  /** An explored event stays explored, and whether all is decided below it no longer changes. */
  lemma ExploredStays(n: nat, nmt: nat, S: set<Event>, a: Infos, b: Infos, e: Event)
    requires Advances(n, nmt, S, a, b) && Explored(n, nmt, S, a, e)
    ensures Explored(n, nmt, S, b, e)
    ensures AllDecided(a, e) <==> AllDecided(b, e)
  {
    hide Fails, Tried, Anc, Stuck;
    forall y | y in Anc(e) && y in a && a[y].decided == Unknown
      ensures HasStuck(n, nmt, S, b, y)
      ensures !AllDecided(b, e)
    {
      var z :| z in Anc(y) && Stuck(n, nmt, S, a, z);
      StuckStays(n, nmt, S, a, b, z);
      AncTransitive(y, e);
      StuckUndecided(n, nmt, S, b, z);
    }
  }

  lemma StuckUndecided(n: nat, nmt: nat, S: set<Event>, wi: Infos, z: Event)
    requires Stuck(n, nmt, S, wi, z)
    ensures z in wi && wi[z].decided == Unknown
  {
  }

  lemma AllDecidedParents(wi: Infos, e: Event)
    requires forall p :: p in Parents(e) ==> AllDecided(wi, p)
    ensures AllDecided(wi, e) <==> (e in wi ==> wi[e].decided != Unknown)
  {
    hide Anc;
    AncCases(e, e);
    forall x | x in Anc(e) && x != e && x in wi ensures wi[x].decided != Unknown {
      AncCases(x, e);
      var p :| p in Parents(e) && x in Anc(p);
      assert AllDecided(wi, p);
    }
  }

  /** A parent with something undecided below it leaves the same below `e`. */
  lemma UndecidedAbove(wi: Infos, e: Event, p: Event)
    requires p in Parents(e) && !AllDecided(wi, p)
    ensures !AllDecided(wi, e)
  {
    ParentAnc(p, e);
  }

  lemma ExploredParents(n: nat, nmt: nat, S: set<Event>, wi: Infos, e: Event)
    requires forall p :: p in Parents(e) ==> Explored(n, nmt, S, wi, p)
    requires e in wi && wi[e].decided == Unknown ==> HasStuck(n, nmt, S, wi, e)
    ensures Explored(n, nmt, S, wi, e)
  {
    hide Anc, Stuck, HasStuck;
    forall y | y in Anc(e) && y in wi && wi[y].decided == Unknown ensures HasStuck(n, nmt, S, wi, y) {
      AncCases(y, e);
      if y != e {
        var p :| p in Parents(e) && y in Anc(p);
        assert Explored(n, nmt, S, wi, p);
      }
    }
  }

  /** A parent that is not all decided holds a stuck witness, which is below `e` too. */
  lemma StuckAbove(n: nat, nmt: nat, S: set<Event>, wi: Infos, e: Event, p: Event)
    requires p in Parents(e) && Explored(n, nmt, S, wi, p) && !AllDecided(wi, p)
    ensures HasStuck(n, nmt, S, wi, e)
  {
    hide Anc, Stuck;
    var y :| y in Anc(p) && y in wi && wi[y].decided == Unknown;
    assert HasStuck(n, nmt, S, wi, y);
    var z :| z in Anc(y) && Stuck(n, nmt, S, wi, z);
    AncTransitive(y, p);
    ParentAnc(p, e);
  }

  lemma ExploredWhenDecided(n: nat, nmt: nat, S: set<Event>, wi: Infos, e: Event)
    requires AllDecided(wi, e)
    ensures Explored(n, nmt, S, wi, e)
  {
  }

  /** When an election that hasn't been tried becomes possible, no explored event is above it. */
  lemma NoMarkAbove(n: nat, nmt: nat, S: set<Event>, wi: Infos, x: Event, m: Event)
    requires Explored(n, nmt, S, wi, m)
    requires x in wi && wi[x].decided == Unknown && !Tried(n, nmt, S, x, wi[x].votes)
    requires forall p :: p in Parents(x) ==> AllDecided(wi, p)
    ensures x !in Anc(m)
  {
    hide Anc, Tried, Fails;
    if x in Anc(m) {
      assert HasStuck(n, nmt, S, wi, x);
      var z :| z in Anc(x) && Stuck(n, nmt, S, wi, z);
      AncCases(z, x);
    }
  }

  /** Recording votes changes no verdict. */
  lemma VotesOnly(wi: Infos, x: Event, votes: seq<seq<bool>>, e: Event)
    requires x in wi
    ensures AllDecided(wi[x := wi[x].(votes := votes)], e) <==> AllDecided(wi, e)
  {
    hide Anc;
  }

  lemma VotesRightStep(n: nat, nmt: nat, S: set<Event>, x: Event, votes: seq<seq<bool>>, w: Event)
    requires VotesRight(n, nmt, S, x, votes) && w in Witnesses(nmt, S, Round(nmt, x) + 1) && w.id < n
    ensures VotesRight(n, nmt, S, x, votes[w.id := [x in Anc(w)]])
  {
    hide Anc, Round, Witnesses;
    var votes' := votes[w.id := [x in Anc(w)]];
    forall i | 0 <= i < n && |votes'[i]| == 1
      ensures exists u :: u in Witnesses(nmt, S, Round(nmt, x) + 1) && u.id == i && votes'[i][0] == (x in Anc(u))
    {
      if i == w.id {
        assert w in Witnesses(nmt, S, Round(nmt, x) + 1) && w.id == i && votes'[i][0] == (x in Anc(w));
      } else {
        var u :| u in Witnesses(nmt, S, Round(nmt, x) + 1) && u.id == i && votes[i][0] == (x in Anc(u));
        assert votes'[i][0] == (x in Anc(u));
      }
    }
  }

  /** A recorded vote is that of the one witness its identity has in the next round. */
  lemma RecordedVote(n: nat, nmt: nat, S: set<Event>, x: Event, votes: seq<seq<bool>>, w: Event)
    requires Dag(n, S) && ForkFree(S) && VotesRight(n, nmt, S, x, votes)
    requires w in Witnesses(nmt, S, Round(nmt, x) + 1) && |votes[w.id]| == 1
    ensures votes[w.id] == [x in Anc(w)]
  {
    hide Anc, Round, IsWitness;
    var u :| u in Witnesses(nmt, S, Round(nmt, x) + 1) && u.id == w.id && votes[w.id][0] == (x in Anc(u));
    WitnessUnique(n, nmt, S, u, w);
  }

  lemma NotTried(n: nat, nmt: nat, S: set<Event>, x: Event, votes: seq<seq<bool>>, w: Event)
    requires |Witnesses(nmt, S, Round(nmt, x) + 1)| >= nmt
    requires w in Witnesses(nmt, S, Round(nmt, x) + 1) && w.id < |votes| && |votes[w.id]| == 0
    ensures !Tried(n, nmt, S, x, votes)
  {
  }

  /** `b` is `a` after the election of `x` was held on the whole graph: `x` has a verdict
      exactly when some witness of the graph settles it, and then it is that witness's. */
  ghost predicate Held(n: nat, nmt: nat, S: set<Event>, a: Infos, b: Infos, x: Event) {
    && x in a && x in b && b == a[x := b[x]]
    && VotesRight(n, nmt, S, x, b[x].votes) && Tried(n, nmt, S, x, b[x].votes)
    && (b[x].decided == Unknown <==> Fails(nmt, S, x))
    && (b[x].decided != Unknown ==>
          exists w :: w in S && Decides(nmt, x, w, b[x].decided == Yes) && Round(nmt, w) == b[x].decidedRound)
  }

  lemma HeldAdvances(n: nat, nmt: nat, S: set<Event>, a: Infos, b: Infos, x: Event)
    requires Held(n, nmt, S, a, b, x) && a[x].decided == Unknown
    ensures Advances(n, nmt, S, a, b)
  {
    hide Fails, Tried, VotesRight, Decides;
  }

  lemma HeldExplored(n: nat, nmt: nat, S: set<Event>, a: Infos, b: Infos, x: Event)
    requires Held(n, nmt, S, a, b, x) && a[x].decided == Unknown
    requires forall p :: p in Parents(x) ==> AllDecided(a, p)
    ensures AllDecided(b, x) <==> b[x].decided != Unknown
    ensures Explored(n, nmt, S, b, x)
  {
    hide Fails, Tried, VotesRight, Decides, Anc;
    forall p | p in Parents(x) ensures AllDecided(b, p) && Explored(n, nmt, S, b, p) {
      AllDecidedStays(a, b, x, p);
      ExploredWhenDecided(n, nmt, S, b, p);
    }
    AllDecidedParents(b, x);
    if b[x].decided == Unknown {
      AncCases(x, x);
      assert Stuck(n, nmt, S, b, x);
    }
    ExploredParents(n, nmt, S, b, x);
  }

  lemma AllDecidedStays(a: Infos, b: Infos, x: Event, e: Event)
    requires x in a && x in b && b == a[x := b[x]] && a[x].decided == Unknown && AllDecided(a, e)
    ensures AllDecided(b, e)
  {
    hide Anc;
    forall y | y in Anc(e) && y in b ensures b[y].decided != Unknown {
      assert y in a;
    }
  }

  lemma HeldKeepsVerdicts(n: nat, nmt: nat, S: set<Event>, a: Infos, b: Infos, x: Event, cleared: set<Event>)
    requires Held(n, nmt, S, a, b, x) && a[x].decided == Unknown && x.Derived?
    requires forall p :: p in Parents(x) ==> AllDecided(a, p)
    requires VerdictsOk(n, nmt, S, a, cleared)
    ensures VerdictsOk(n, nmt, S, b, cleared)
  {
    hide Fails, Tried, VotesRight, Decides, Anc, AllDecided, Explored, Round;
    HeldExplored(n, nmt, S, a, b, x);
    forall e | e in cleared ensures AllDecided(b, e) {
      AllDecidedStays(a, b, x, e);
    }
    forall y | y in b ensures VerdictOk(n, nmt, S, b, y) {
      if y != x {
        assert VerdictOk(n, nmt, S, a, y) && b[y] == a[y];
        if y.Derived? && a[y].decided != Unknown {
          AllDecidedStays(a, b, x, y);
        }
      }
    }
  }

  /** A new event leaves the verdicts right; a new witness starts undecided, without votes. */
  lemma VerdictsExtended(n: nat, nmt: nat, S: set<Event>, wi: Infos, cleared: set<Event>, ev: Event)
    requires Dag(n, S) && wi.Keys <= S && ev !in S && ev.Derived? && VerdictsOk(n, nmt, S, wi, cleared)
    ensures VerdictsOk(n, nmt, S + {ev}, wi, cleared)
    ensures VerdictsOk(n, nmt, S + {ev}, wi[ev := WitnessInfo(NoVotes(n), Unknown, 0)], cleared)
  {
    hide Anc, Round, IsWitness, Decides, AllDecided, VotesRight;
    var wi' := wi[ev := WitnessInfo(NoVotes(n), Unknown, 0)];
    forall x | x in wi ensures VerdictOk(n, nmt, S + {ev}, wi, x) && VerdictOk(n, nmt, S + {ev}, wi', x) {
      assert VerdictOk(n, nmt, S, wi, x);
      if x.Derived? { VotesRightGrows(n, nmt, S, ev, x, wi[x].votes); }
      NewIsApart(n, S, wi, ev, WitnessInfo(NoVotes(n), Unknown, 0), x);
    }
    forall e | e in cleared ensures AllDecided(wi', e) {
      NewIsApart(n, S, wi, ev, WitnessInfo(NoVotes(n), Unknown, 0), e);
    }
    NoVotesRight(n, nmt, S + {ev}, ev);
  }

  lemma VotesRightGrows(n: nat, nmt: nat, S: set<Event>, ev: Event, x: Event, votes: seq<seq<bool>>)
    requires VotesRight(n, nmt, S, x, votes)
    ensures VotesRight(n, nmt, S + {ev}, x, votes)
  {
    hide Anc, Round, IsWitness;
    forall i | 0 <= i < n && |votes[i]| == 1
      ensures exists w :: w in Witnesses(nmt, S + {ev}, Round(nmt, x) + 1) && w.id == i && votes[i][0] == (x in Anc(w))
    {
      var w :| w in Witnesses(nmt, S, Round(nmt, x) + 1) && w.id == i && votes[i][0] == (x in Anc(w));
      assert w in Witnesses(nmt, S + {ev}, Round(nmt, x) + 1);
    }
  }

  lemma NoVotesRight(n: nat, nmt: nat, S: set<Event>, x: Event)
    ensures VotesRight(n, nmt, S, x, NoVotes(n))
  {
  }

  lemma NewIsApart(n: nat, S: set<Event>, wi: Infos, ev: Event, info: WitnessInfo, e: Event)
    requires Dag(n, S) && ev !in S && e in S
    ensures AllDecided(wi[ev := info], e) <==> AllDecided(wi, e)
  {
    hide Anc, Dag;
    DagClosed(n, S, e);
  }

  ghost predicate SameVerdicts(a: Infos, b: Infos) {
    a.Keys == b.Keys && forall x :: x in a ==> a[x].decided == b[x].decided
  }

  /** Only witnesses among the ancestors of `e`, with `e`, have changed. */
  ghost predicate ChangedBelow(a: Infos, b: Infos, e: Event) {
    a.Keys == b.Keys && forall x :: x in a && x !in Anc(e) ==> b[x] == a[x]
  }

  /** Only witnesses among the proper ancestors of `e` have changed. */
  ghost predicate ChangedStrictlyBelow(a: Infos, b: Infos, e: Event) {
    a.Keys == b.Keys && forall x :: x in a && (x !in Anc(e) || x == e) ==> b[x] == a[x]
  }

  lemma StrictlyBelowStep(a: Infos, b: Infos, c: Infos, p: Event, e: Event)
    requires ChangedStrictlyBelow(a, b, e) && ChangedBelow(b, c, p) && p in Parents(e)
    ensures ChangedStrictlyBelow(a, c, e)
  {
    ParentAnc(p, e);
  }

  lemma BelowFromStrict(a: Infos, b: Infos, c: Infos, e: Event)
    requires ChangedStrictlyBelow(a, b, e) && e in b && e in c && c == b[e := c[e]]
    ensures ChangedBelow(a, c, e)
  {
    AncCases(e, e);
    assert c.Keys == b.Keys;
  }

  lemma SameVerdictsTwice(a: Infos, b: Infos, c: Infos)
    requires SameVerdicts(a, b) && SameVerdicts(b, c)
    ensures SameVerdicts(a, c)
  {
  }

  // ----- What the node reports -----

  ghost function VerdictMap(wi: Infos): map<Event, bool> {
    map x | x in wi && wi[x].decided != Unknown :: wi[x].decided == Yes
  }

  ghost function ViewOf(S: set<Event>, wi: Infos): View {
    View(S, VerdictMap(wi))
  }

  lemma ViewIsSound(n: nat, nmt: nat, S: set<Event>, wi: Infos, cleared: set<Event>)
    requires Dag(n, S) && ForkFree(S) && forall i: nat :: i < n ==> Genesis(i, 0) in S
    requires forall x :: x in wi <==> x in S && IsWitness(nmt, x)
    requires VerdictsOk(n, nmt, S, wi, cleared)
    ensures Sound(n, nmt, ViewOf(S, wi))
  {
    hide Anc, Dag, ForkFree, IsWitness, AllDecided, VotesRight, Decides;
    var V := ViewOf(S, wi);
    forall x | x in V.verdict ensures Settled(nmt, V, x, V.verdict[x]) {
      assert VerdictOk(n, nmt, S, wi, x);
    }
  }

  ghost function NonEmpty(b: Bytes): seq<Bytes> { if b == [] then [] else [b] }

  /** The proposals of the events of one identity up to `e`, back to the last witness before it,
      oldest first. */
  ghost function Since(nmt: nat, e: Event): seq<Bytes> {
    if IsWitness(nmt, e) || e.Genesis? then [] else Since(nmt, e.parent) + NonEmpty(e.buff)
  }

  /** What accepting witness `x` delivers: its own proposal and those since the witness before it. */
  ghost function Payload(nmt: nat, x: Event): seq<Bytes> {
    if x.Genesis? then [] else Since(nmt, x.parent) + NonEmpty(x.buff)
  }

  /** All proposals of one identity up to `e`, oldest first. */
  ghost function History(e: Event): seq<Bytes> {
    if e.Genesis? then [] else History(e.parent) + NonEmpty(e.buff)
  }

  /** What the witnesses of one identity up to `e` deliver, oldest first. */
  ghost function AllPayloads(nmt: nat, e: Event): seq<Bytes> {
    if e.Genesis? then [] else AllPayloads(nmt, e.parent) + if IsWitness(nmt, e) then Payload(nmt, e) else []
  }

  /** Every proposal of an identity belongs to the delivery of exactly one of its witnesses, in order, but for
      those made since the last one. */
  lemma {:induction false} PayloadsPartition(nmt: nat, e: Event)
    ensures History(e) == AllPayloads(nmt, e) + Since(nmt, e)
  {
    hide IsWitness;
    if e.Derived? {
      PayloadsPartition(nmt, e.parent);
      var a, b, c := AllPayloads(nmt, e.parent), Since(nmt, e.parent), NonEmpty(e.buff);
      assert (a + b) + c == a + (b + c);
      assert a + [] == a && (a + (b + c)) + [] == a + (b + c);
    }
  }

  /** What a round delivers for each identity. */
  ghost predicate Delivers(n: nat, nmt: nat, V: View, r: nat, i: nat, yes: bool, payload: seq<Bytes>) {
    if exists x :: x in Accepted(nmt, V, r) && x.id == i
    then yes && exists x :: x in Accepted(nmt, V, r) && x.id == i && payload == Payload(nmt, x)
    else !yes && payload == []
  }

  function Reversed(s: seq<Bytes>): seq<Bytes> {
    if s == [] then [] else [s[|s| - 1]] + Reversed(s[..|s| - 1])
  }

  lemma {:induction false} ReversedLength(s: seq<Bytes>)
    ensures |Reversed(s)| == |s|
    ensures forall k :: 0 <= k < |s| ==> Reversed(s)[k] == s[|s| - 1 - k]
  {
    if s != [] { ReversedLength(s[..|s| - 1]); }
  }

  lemma ReversedAppend(s: seq<Bytes>, b: Bytes)
    ensures Reversed(s + [b]) == [b] + Reversed(s)
  {
    assert (s + [b])[..|s|] == s;
  }

  /** Swaps the ends inwards, as the program reverses each list of proposals. */
  method Reverse(s: seq<Bytes>) returns (t: seq<Bytes>)
    ensures t == Reversed(s)
  {
    t := s;
    var i, j := 0, |s| - 1;
    while i < j
      invariant 0 <= i && i + j == |s| - 1 && i <= j + 1 && |t| == |s|
      invariant forall k :: 0 <= k < i || j < k < |s| ==> t[k] == s[|s| - 1 - k]
      invariant forall k :: i <= k <= j ==> t[k] == s[k]
    {
      t := t[i := t[j]][j := t[i]];
      i, j := i + 1, j - 1;
    }
    ReversedLength(s);
    assert forall k :: 0 <= k < |s| ==> t[k] == Reversed(s)[k];
  }
}
