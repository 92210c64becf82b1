/** Two nodes: the reports of any two graphs agree, and one round of syncing carries over
    everything the other node lacks. */
module Replicas {
  import opened Events
  import opened Ancestry
  import opened Rounds
  import opened Elections
  import opened Verdicts
  import opened GraphColumns
  import opened Batches
  import opened HashGraph
  import opened KnownSearch

  // ----- Agreement -----

  /** A witness decided in two views is decided the same way in both. */
  lemma ViewsAgree(n: nat, nmt: nat, V: View, U: View, x: Event)
    requires Quorums(n, nmt) && Sound(n, nmt, V) && Sound(n, nmt, U) && ForkFree(V.events + U.events)
    requires x in V.verdict && x in U.verdict
    ensures V.verdict[x] == U.verdict[x]
  {
    hide Anc, Round, IsWitness, Decides, Dag, ForkFree;
    if x.Derived? {
      var v :| v in V.events && Decides(nmt, x, v, V.verdict[x]);
      var u :| u in U.events && Decides(nmt, x, u, U.verdict[x]);
      Agreement(n, nmt, V.events, U.events, x, v, V.verdict[x], u, U.verdict[x]);
    }
  }

  /** Two views that report a round decided deliver the same for every identity. */
  lemma DeliveriesAgree(n: nat, nmt: nat, V: View, U: View, r: nat, i: nat, y: bool, p: seq<Bytes>, z: bool, q: seq<Bytes>)
    requires Quorums(n, nmt) && Sound(n, nmt, V) && Sound(n, nmt, U) && ForkFree(V.events + U.events)
    requires RoundDecided(nmt, V, r) && RoundDecided(nmt, U, r)
    requires Delivers(n, nmt, V, r, i, y, p) && Delivers(n, nmt, U, r, i, z, q)
    ensures y == z && p == q
  {
    hide Anc, Round, IsWitness, Decides, Dag, ForkFree, Payload, Sound, RoundDecided;
    RoundAgreement(n, nmt, V, U, r);
    if y {
      var a :| a in Accepted(nmt, V, r) && a.id == i && p == Payload(nmt, a);
      var b :| b in Accepted(nmt, U, r) && b.id == i && q == Payload(nmt, b);
      OneAccepted(n, nmt, V, r, a, b);
    }
  }

  lemma OneAccepted(n: nat, nmt: nat, V: View, r: nat, a: Event, b: Event)
    requires Sound(n, nmt, V) && a in Accepted(nmt, V, r) && b in Accepted(nmt, V, r) && a.id == b.id
    ensures a == b
  {
    hide Anc, Round, IsWitness, Settled, Dag, ForkFree;
    WitnessUnique(n, nmt, V.events, a, b);
  }

  /** Whatever two nodes' graphs hold, and in whatever order it arrived, the verdicts they share
      and the rounds they both report are the same. */
  lemma GraphsAgree(g: Graph, h: Graph)
    requires g.Valid() && h.Valid() && g.n == h.n && g.nmt == h.nmt && ForkFree(g.events + h.events)
    ensures forall x :: IsDecided(g.wi, x) && IsDecided(h.wi, x) ==> g.wi[x].decided == h.wi[x].decided
    ensures forall r :: RoundDecided(g.nmt, g.TheView(), r) && RoundDecided(h.nmt, h.TheView(), r) ==>
      Accepted(g.nmt, g.TheView(), r) == Accepted(h.nmt, h.TheView(), r)
    ensures forall r :: 1 <= r <= g.lastDecided && r <= h.lastDecided ==>
      RoundDecided(g.nmt, g.TheView(), r) && RoundDecided(h.nmt, h.TheView(), r)
  {
    hide Anc, Round, IsWitness, Dag, ForkFree, Sound, RoundDecided, Accepted, Graph.Valid, Graph.TheView;
    SoundView(g);
    SoundView(h);
    forall x | IsDecided(g.wi, x) && IsDecided(h.wi, x) ensures g.wi[x].decided == h.wi[x].decided {
      ViewsAgree(g.n, g.nmt, g.TheView(), h.TheView(), x);
    }
    forall r | RoundDecided(g.nmt, g.TheView(), r) && RoundDecided(h.nmt, h.TheView(), r)
      ensures Accepted(g.nmt, g.TheView(), r) == Accepted(h.nmt, h.TheView(), r)
    {
      RoundAgreement(g.n, g.nmt, g.TheView(), h.TheView(), r);
    }
  }

  lemma SoundView(g: Graph)
    requires g.Valid()
    ensures Sound(g.n, g.nmt, g.TheView()) && Quorums(g.n, g.nmt) && g.TheView().events == g.events
    ensures forall x :: IsDecided(g.wi, x) ==> x in g.TheView().verdict && g.TheView().verdict[x] == (g.wi[x].decided == Yes)
    ensures forall r :: 1 <= r <= g.lastDecided ==> RoundDecided(g.nmt, g.TheView(), r)
  {
    hide Sound, Quorums, Graph.Readable, Graph.DecidedMapOk, KnownOk, AllAdmitted, Graph.TailsOk, RoundDecided;
    g.ReadableIsSound();
  }

  /** The round of an event, whether it is a witness, what it strongly sees and what it knows depend on
      its ancestors alone: two nodes that hold it have computed the same. */
  lemma ColumnsAgree(g: Graph, h: Graph, e: Event)
    requires g.Valid() && h.Valid() && g.n == h.n && g.nmt == h.nmt && e in g.events && e in h.events
    ensures e in g.round && e in h.round && g.round[e] == h.round[e] && (e in g.wi <==> e in h.wi)
    ensures e in g.stronglySees <==> e in h.stronglySees
    ensures e in g.stronglySees ==> g.stronglySees[e] == h.stronglySees[e]
    ensures e.Derived? ==> e in g.known && e in h.known && g.known[e] == h.known[e]
  {
    hide *;
    ColumnsOf(g, e);
    ColumnsOf(h, e);
    if e.Derived? {
      KnownIsUnique(g.n, g.events, e, g.known[e], h.known[e]);
      SeesAgree(g.n, g.nmt, e, g.stronglySees, h.stronglySees);
    }
  }

  lemma ColumnsOf(g: Graph, e: Event)
    requires g.Valid() && e in g.events
    ensures Dag(g.n, g.events) && ForkFree(g.events)
    ensures e in g.round && g.round[e] == Round(g.nmt, e) && (e in g.wi <==> IsWitness(g.nmt, e))
    ensures e.Derived? ==> SeesRight(g.n, g.nmt, e, g.stronglySees)
    ensures !e.Derived? ==> e !in g.stronglySees
    ensures e.Derived? ==> e in g.known && IsKnownVector(g.n, e, g.known[e])
  {
    hide Anc, Round, IsWitness, SeesRight, IsKnownVector, Dag, ForkFree, VerdictsOk, RowsOk, Graph.LastDecidedOk, Graph.DecidedMapOk, Graph.TailsOk, AllAdmitted;
  }

  lemma SeesAgree(n: nat, nmt: nat, e: Event, a: map<Event, Slots>, b: map<Event, Slots>)
    requires SeesRight(n, nmt, e, a) && SeesRight(n, nmt, e, b)
    ensures e in a <==> e in b
    ensures e in a ==> a[e] == b[e]
  {
    hide Round, IsWitness, Seen, IsSeenVector;
    if e in a {
      SeenIsUnique(n, nmt, e, if IsWitness(nmt, e) then Round(nmt, e) - 1 else Round(nmt, e), a[e], b[e]);
    }
  }

  lemma SeenIsUnique(n: nat, nmt: nat, e: Event, r: nat, v: Slots, u: Slots)
    requires IsSeenVector(n, nmt, e, r, v) && IsSeenVector(n, nmt, e, r, u)
    ensures v == u
  {
    hide Seen;
    forall i | 0 <= i < n ensures v[i] == u[i] {
      if v[i].Some? { assert v[i].value in Seen(nmt, e, r); }
      if u[i].Some? { assert u[i].value in Seen(nmt, e, r); }
    }
  }

  // ----- Syncing -----

  /** Sends the node with identity `id` what its latest event does not reach, and adds it there. */
  method Sync(sender: Graph, receiver: Graph, id: nat)
    returns (added: seq<Event>, remainder: seq<EventInfo>, invalid: seq<EventInfo>)
    requires sender != receiver && sender.Valid() && receiver.Valid() && sender.n == receiver.n && id < sender.n
    requires ForkFree(sender.events + receiver.events)
    requires |sender.tails| == sender.n && sender.tails[id] in receiver.events
    modifies sender`known, receiver
    ensures sender.Valid() && receiver.Valid()
    ensures remainder == []
    ensures receiver.events == old(receiver.events) + sender.events
  {
    hide *;
    ghost var R := receiver.events;
    var diff := sender.ComputeDiffID(id);
    DiffIsSupplied(sender, receiver, id, diff);
    receiver.ValidGraph();
    DagClosed(receiver.n, R, sender.tails[id]);
    var infos := InfosOf(diff);
    assert receiver.Valid() && receiver.Compatible(receiver.events, infos);
    added, remainder, invalid := receiver.AddEvents(infos);
    AllArrived(sender, receiver, R, id, diff, added, invalid);
  }

  lemma DiffIsSupplied(sender: Graph, receiver: Graph, id: nat, diff: seq<Event>)
    requires sender.Valid() && receiver.Valid() && sender.n == receiver.n && id < sender.n
    requires ForkFree(sender.events + receiver.events)
    requires |sender.tails| == sender.n && sender.tails[id] in receiver.events && sender.tails[id].id == id
    requires forall e :: e in sender.events && e.id == id ==> e in Anc(sender.tails[id])
    requires forall e :: e in diff <==> sender.Missing(sender.tails[id], e)
    ensures receiver.Compatible(receiver.events, InfosOf(diff)) && receiver.Supplied(receiver.events, InfosOf(diff))
  {
    hide Graph.Valid, Anc, Dag, ForkFree, Info, Acceptable, Graph.Compatible, Graph.Supplied;
    var from, S, R, infos := sender.tails[id], sender.events, receiver.events, InfosOf(diff);
    sender.ValidGraph();
    receiver.ValidGraph();
    sender.ValidParts();
    DagClosed(receiver.n, R, from);
    forall e | e in diff ensures SendsParents(S, R, diff, e) {
      forall p | p in Parents(e) ensures p in R || p in diff {
        sender.ParentsIn(e);
        if p.index == 0 { FirstOnes(sender, receiver, p); }
      }
    }
    IsCompatible(receiver, S, diff);
    IsSupplied(receiver, S, diff);
  }

  ghost predicate SendsParents(S: set<Event>, R: set<Event>, diff: seq<Event>, e: Event) {
    e in S && e.index > 0 && forall p :: p in Parents(e) ==> p in R || p in diff
  }

  lemma FirstOnes(sender: Graph, receiver: Graph, p: Event)
    requires sender.Valid() && receiver.Valid() && sender.n == receiver.n && p in sender.events && p.index == 0
    ensures p in receiver.events
  {
    hide Graph.Valid;
    sender.ValidGraph();
    receiver.FirstIn(p.id);
  }

  lemma IsCompatible(receiver: Graph, S: set<Event>, diff: seq<Event>)
    requires Dag(receiver.n, S) && AllAdmitted(receiver.n, S) && ForkFree(S + receiver.events)
    requires forall e :: e in diff ==> SendsParents(S, receiver.events, diff, e)
    ensures receiver.Compatible(receiver.events, InfosOf(diff))
  {
    hide InfosOf, Info, Anc, Acceptable;
    var infos := InfosOf(diff);
    forall a | a in infos ensures receiver.Askable(receiver.events, a) {
      var k :| 0 <= k < |infos| && infos[k] == a;
      assert SendsParents(S, receiver.events, diff, diff[k]);
      AskableEvent(receiver, S, diff[k]);
    }
    forall a, b | a in infos && b in infos && a.local.id == b.local.id && a.local.index == b.local.index ensures a == b {
      var k :| 0 <= k < |infos| && infos[k] == a;
      var l :| 0 <= l < |infos| && infos[l] == b;
      receiver.InfoFields(diff[k]);
      receiver.InfoFields(diff[l]);
      assert diff[k] in diff && diff[l] in diff;
    }
  }

  lemma AskableEvent(receiver: Graph, S: set<Event>, e: Event)
    requires Dag(receiver.n, S) && AllAdmitted(receiver.n, S) && ForkFree(S + receiver.events) && e in S && e.index > 0
    ensures receiver.Askable(receiver.events, Info(e))
  {
    hide Anc, Acceptable, Info;
    receiver.InfoFields(e);
    forall f | f in receiver.events && f.id == e.id && f.index == e.index ensures f == e { }
    forall k | 0 <= k < |e.remotes| ensures Pointers(e.remotes)[k].id < receiver.n {
      assert e.remotes[k] in Parents(e);
    }
  }

  lemma IsSupplied(receiver: Graph, S: set<Event>, diff: seq<Event>)
    requires Dag(receiver.n, S) && AllAdmitted(receiver.n, S)
    requires forall e :: e in diff ==> SendsParents(S, receiver.events, diff, e)
    ensures receiver.Supplied(receiver.events, InfosOf(diff))
  {
    hide InfosOf, Info, Anc, Acceptable;
    var infos := InfosOf(diff);
    forall a | a in infos ensures Acceptable(receiver.n, a) && exists e :: receiver.SuppliedBy(receiver.events, infos, a, e) {
      var k :| 0 <= k < |infos| && infos[k] == a;
      var e := diff[k];
      assert SendsParents(S, receiver.events, diff, e);
      forall p | p in Parents(e) && p in diff ensures Info(p) in infos {
        var l :| 0 <= l < |diff| && diff[l] == p;
        assert infos[l] == Info(p);
      }
      assert receiver.SuppliedBy(receiver.events, infos, a, e);
    }
  }

  /** Every event sent is in the graph afterwards, and nothing else is new. */
  lemma AllArrived(sender: Graph, receiver: Graph, R: set<Event>, id: nat, diff: seq<Event>, added: seq<Event>, invalid: seq<EventInfo>)
    requires sender.Valid() && receiver.Valid() && sender.n == receiver.n && id < sender.n == |sender.tails|
    requires R <= receiver.events && sender.tails[id] in R && sender.tails[id].id == id
    requires Anc(sender.tails[id]) <= R
    requires forall e :: e in sender.events && e.id == id ==> e in Anc(sender.tails[id])
    requires forall e :: e in diff <==> sender.Missing(sender.tails[id], e)
    requires multiset(InfosOf(diff)) == multiset(InfosOf(added)) + multiset(invalid)
    requires receiver.events == R + set e | e in added
    requires forall a :: a in invalid ==> !Acceptable(receiver.n, a) || Present(receiver.events, a)
    ensures receiver.events == R + sender.events
  {
    hide Graph.Valid, Anc, Dag, ForkFree, Info, InfosOf, Acceptable;
    forall e | e in sender.events ensures e in receiver.events {
      if e.index == 0 {
        FirstOnes(sender, receiver, e);
      } else if e in diff {
        SentArrives(sender, receiver, diff, added, invalid, e);
      }
    }
    forall e | e in added ensures e in sender.events {
      AddedWasSent(diff, added, invalid, e);
    }
  }

  lemma AddedWasSent(diff: seq<Event>, added: seq<Event>, invalid: seq<EventInfo>, e: Event)
    requires multiset(InfosOf(diff)) == multiset(InfosOf(added)) + multiset(invalid) && e in added
    ensures e in diff
  {
    hide InfosOf, Info;
    var k :| 0 <= k < |added| && added[k] == e;
    assert Info(e) == InfosOf(added)[k];
    assert Info(e) in multiset(InfosOf(diff));
    var l :| 0 <= l < |diff| && InfosOf(diff)[l] == Info(e);
    InfoInjective(diff[l], e);
  }

  lemma SentArrives(sender: Graph, receiver: Graph, diff: seq<Event>, added: seq<Event>, invalid: seq<EventInfo>, e: Event)
    requires sender.Valid() && sender.n == receiver.n && e in diff && e in sender.events && e.index > 0
    requires multiset(InfosOf(diff)) == multiset(InfosOf(added)) + multiset(invalid)
    requires forall f :: f in added ==> f in receiver.events
    requires forall a :: a in invalid ==> !Acceptable(receiver.n, a) || Present(receiver.events, a)
    ensures e in receiver.events
  {
    hide Graph.Valid, InfosOf, Info, Acceptable, Dag;
    sender.ValidParts();
    sender.ParentIn(e);
    var k :| 0 <= k < |diff| && diff[k] == e;
    assert InfosOf(diff)[k] == Info(e);
    assert Info(e) in multiset(InfosOf(diff));
    if Info(e) in invalid {
      var f :| f in receiver.events && Info(f) == Info(e);
      InfoInjective(e, f);
    } else {
      var l :| 0 <= l < |added| && InfosOf(added)[l] == Info(e);
      InfoInjective(e, added[l]);
    }
  }
}
