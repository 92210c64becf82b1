/** Once a node has reported the rounds up to `last` decided, they stay decided: a late witness of
one of them is decided as soon as it is added. */
module DecidedPrefix {
  import opened Events
  import opened Ancestry
  import opened Rounds
  import opened Elections
  import opened GraphColumns
  import opened Verdicts

  ghost predicate PrefixDecided(nmt: nat, V: View, last: nat) {
    forall r :: 1 <= r <= last ==> RoundDecided(nmt, V, r)
  }

  /** `wi` are the verdicts of graph `S`; the traversal for the new witness `ev` has turned
      them into `after`. */
  ghost predicate Extended(n: nat, nmt: nat, S: set<Event>, wi: Infos, ev: Event, after: Infos, cleared: set<Event>) {
    && Quorums(n, nmt) && Sound(n, nmt, ViewOf(S, wi))
    && (forall x :: x in wi <==> x in S && IsWitness(nmt, x))
    && ev !in S && ev.Derived? && IsWitness(nmt, ev) && (forall p :: p in Parents(ev) ==> p in S)
    && (exists info: WitnessInfo :: info.decided == Unknown && Advances(n, nmt, S + {ev}, wi[ev := info], after))
    && VerdictsOk(n, nmt, S + {ev}, after, cleared)
    && Explored(n, nmt, S + {ev}, after, ev)
  }

  lemma DecidedKept(n: nat, nmt: nat, S: set<Event>, wi: Infos, ev: Event, after: Infos, cleared: set<Event>)
    requires Extended(n, nmt, S, wi, ev, after, cleared)
    ensures forall x :: x in wi ==> x in after && (wi[x].decided != Unknown ==> after[x].decided != Unknown)
    ensures ev in after && forall x :: x in after ==> x in wi || x == ev
  {
    hide Anc, Sound, VerdictsOk, Explored, Fails, Tried, IsWitness;
    var info: WitnessInfo :| info.decided == Unknown && Advances(n, nmt, S + {ev}, wi[ev := info], after);
    assert ev in wi[ev := info];
    forall x | x in wi ensures x in after && (wi[x].decided != Unknown ==> after[x].decided != Unknown) {
      assert x in wi[ev := info] && x != ev;
    }
    forall x | x in after ensures x in wi || x == ev {
      assert x in wi[ev := info];
    }
  }

  /** A witness that arrives in a round already reported decided is decided at once. */
  lemma LateIsDecided(n: nat, nmt: nat, S: set<Event>, wi: Infos, ev: Event, after: Infos, cleared: set<Event>, last: nat)
    requires Extended(n, nmt, S, wi, ev, after, cleared)
    requires PrefixDecided(nmt, ViewOf(S, wi), last) && Round(nmt, ev) <= last
    ensures ev in after && after[ev].decided != Unknown
  {
    hide Anc, Round, VerdictsOk, Fails, Tried, IsWitness, Decides, Dag, ForkFree;
    DecidedKept(n, nmt, S, wi, ev, after, cleared);
    LateRoundIsPositive(nmt, ev);
    if after[ev].decided == Unknown {
      AncCases(ev, ev);
      var z :| z in Anc(ev) && Stuck(n, nmt, S + {ev}, after, z);
      if z == ev {
        ElectedDown(n, nmt, S, wi, ev);
        FailsNot(nmt, S + {ev}, ev);
      } else {
        StuckIsDerived(n, nmt, S + {ev}, after, cleared, z);
        AncestorDecided(n, nmt, S, wi, ev, last, z);
      }
    }
  }

  lemma LateRoundIsPositive(nmt: nat, ev: Event)
    requires ev.Derived? && IsWitness(nmt, ev)
    ensures Round(nmt, ev) >= 1
  {
  }

  lemma StuckIsDerived(n: nat, nmt: nat, S: set<Event>, wi: Infos, cleared: set<Event>, z: Event)
    requires VerdictsOk(n, nmt, S, wi, cleared) && Stuck(n, nmt, S, wi, z)
    ensures z in wi && z.Derived?
  {
    assert VerdictOk(n, nmt, S, wi, z);
  }

  lemma FailsNot(nmt: nat, S: set<Event>, x: Event)
    requires exists u :: u in S && Decides(nmt, x, u, false)
    ensures !Fails(nmt, S, x)
  {
  }

  /** A witness absent from a graph that has decided its round is voted down there. */
  lemma ElectedDown(n: nat, nmt: nat, S: set<Event>, wi: Infos, ev: Event)
    requires Quorums(n, nmt) && Sound(n, nmt, ViewOf(S, wi)) && ev !in S && Round(nmt, ev) >= 1
    requires RoundDecided(nmt, ViewOf(S, wi), Round(nmt, ev))
    ensures exists u :: u in S + {ev} && Decides(nmt, ev, u, false)
  {
    hide Anc, Round, VerdictMap, IsWitness;
    var V := ViewOf(S, wi);
    var y :| y in Witnesses(nmt, S, Round(nmt, ev));
    assert y in V.verdict && Settled(nmt, V, y, V.verdict[y]);
    GenesisRound(nmt, y);
    var w :| w in S && Decides(nmt, y, w, V.verdict[y]);
    var u := MissingWitnessVotedDown(n, nmt, S, ev, w);
    assert u in S + {ev};
  }

  lemma GenesisRound(nmt: nat, y: Event)
    ensures y.Genesis? ==> Round(nmt, y) == 0
    ensures y.Derived? && IsWitness(nmt, y) ==> Round(nmt, y) > 0
  {
  }

  lemma AncestorDecided(n: nat, nmt: nat, S: set<Event>, wi: Infos, ev: Event, last: nat, z: Event)
    requires Sound(n, nmt, ViewOf(S, wi)) && PrefixDecided(nmt, ViewOf(S, wi), last) && Round(nmt, ev) <= last
    requires forall x :: x in wi <==> x in S && IsWitness(nmt, x)
    requires forall p :: p in Parents(ev) ==> p in S
    requires z in Anc(ev) && z != ev && z in wi && z.Derived?
    ensures wi[z].decided != Unknown
  {
    hide Anc, Round, IsWitness, Settled;
    RoundMonotone(nmt, z, ev);
    GenesisRound(nmt, z);
    assert RoundDecided(nmt, ViewOf(S, wi), Round(nmt, z));
    assert z in Witnesses(nmt, S, Round(nmt, z));
  }

  /** The rounds reported decided stay decided when `ev` is added. */
  lemma PrefixKept(n: nat, nmt: nat, S: set<Event>, wi: Infos, ev: Event, after: Infos, cleared: set<Event>, last: nat)
    requires Extended(n, nmt, S, wi, ev, after, cleared)
    requires PrefixDecided(nmt, ViewOf(S, wi), last)
    ensures PrefixDecided(nmt, ViewOf(S + {ev}, after), last)
  {
    hide Anc, Round, VerdictsOk, IsWitness, Decides, Dag, ForkFree, Extended;
    DecidedKept(n, nmt, S, wi, ev, after, cleared);
    forall r | 1 <= r <= last ensures RoundDecided(nmt, ViewOf(S + {ev}, after), r) {
      var W := Witnesses(nmt, S, r);
      assert RoundDecided(nmt, ViewOf(S, wi), r);
      var y :| y in W;
      assert y in Witnesses(nmt, S + {ev}, r);
      forall w | w in Witnesses(nmt, S + {ev}, r) ensures w in VerdictMap(after) {
        if w == ev {
          LateIsDecided(n, nmt, S, wi, ev, after, cleared, last);
        } else {
          assert w in W && w in VerdictMap(wi);
        }
      }
    }
  }

  /** Without a new verdict no further round becomes decided. */
  lemma NoNewRound(n: nat, nmt: nat, S: set<Event>, wi: Infos, ev: Event, info: WitnessInfo, after: Infos, r: nat)
    requires info.decided == Unknown && SameVerdicts(wi[ev := info], after) && ev !in S
    requires forall x :: x in wi <==> x in S && IsWitness(nmt, x)
    requires !RoundDecided(nmt, ViewOf(S, wi), r)
    ensures !RoundDecided(nmt, ViewOf(S + {ev}, after), r)
  {
    hide Anc, Round, IsWitness;
    if RoundDecided(nmt, ViewOf(S + {ev}, after), r) {
      var W := Witnesses(nmt, S + {ev}, r);
      assert ev in wi[ev := info];
      forall w | w in W ensures w in Witnesses(nmt, S, r) && w in VerdictMap(wi) {
        assert w in VerdictMap(after) && w in wi[ev := info];
      }
    }
  }

  /** An event that is no witness changes no round. */
  lemma PlainKeepsRounds(nmt: nat, S: set<Event>, wi: Infos, ev: Event, r: nat)
    requires !IsWitness(nmt, ev)
    ensures RoundDecided(nmt, ViewOf(S + {ev}, wi), r) <==> RoundDecided(nmt, ViewOf(S, wi), r)
  {
    assert Witnesses(nmt, S + {ev}, r) == Witnesses(nmt, S, r);
  }
}
