/** The plain search for the highest event of every identity below an event, which the stored vectors
    replace. */
module KnownSearch {
  import opened Events
  import opened Ancestry
  import opened GraphColumns

  /** The search has entered the events of `found`, and will come to all other ancestors of `from`. */
  ghost predicate Searching(n: nat, from: Event, toCheck: seq<Event>, ret: Slots, found: set<Event>) {
    && found <= Anc(from) && Covers(n, found, ret)
    && (forall e :: e in toCheck ==> e in Anc(from))
    && (from in found || from in toCheck)
    && forall e, p :: e in found && p in Parents(e) ==> p in found || p in toCheck
  }

  lemma {:induction false} ClosedHoldsAncestors(found: set<Event>, e: Event)
    requires e in found && forall x, p :: x in found && p in Parents(x) ==> p in found
    ensures Anc(e) <= found
    decreases e
  {
    forall a | a in Anc(e) ensures a in found {
      AncCases(a, e);
      if a != e {
        var p :| p in Parents(e) && a in Anc(p);
        ClosedHoldsAncestors(found, p);
      }
    }
  }

  /** Takes the events one at a time, skips those found before, and queues the direct ancestors. */
  method ComputeKnownRec(n: nat, ghost D: set<Event>, ghost from: Event, toCheck: seq<Event>, ret: Slots, found: set<Event>)
    returns (out: Slots)
    requires Dag(n, D) && from in D && Searching(n, from, toCheck, ret, found)
    ensures IsKnownVector(n, from, out)
    decreases |Anc(from) - found|, |toCheck|
  {
    hide Anc, Covers, Dag;
    if toCheck == [] {
      ClosedHoldsAncestors(found, from);
      assert found == Anc(from);
      return ret;
    }
    var nxt, rest := toCheck[0], toCheck[1..];
    assert toCheck == [nxt] + rest;
    assert nxt in toCheck;
    if nxt in found {
      out := ComputeKnownRec(n, D, from, rest, ret, found);
      return;
    }
    InGraph(n, D, from, nxt);
    CheckEvCovers(n, found, ret, nxt);
    CoversLength(n, found, ret);
    var more := if nxt.index > 0 then rest + Parents(nxt) else rest;
    Queued(from, nxt, rest, found, toCheck, more);
    Fewer(Anc(from), found, nxt);
    out := ComputeKnownRec(n, D, from, more, CheckEv(ret, nxt), found + {nxt});
  }

  lemma CoversLength(n: nat, C: set<Event>, v: Slots)
    requires Covers(n, C, v)
    ensures |v| == n
  {
  }

  lemma InGraph(n: nat, D: set<Event>, from: Event, e: Event)
    requires Dag(n, D) && from in D && e in Anc(from)
    ensures e in D && e.id < n && (e.index > 0 <==> e.Derived?)
  {
    DagClosed(n, D, from);
  }

  lemma Fewer(A: set<Event>, found: set<Event>, e: Event)
    requires e in A && e !in found
    ensures |A - (found + {e})| < |A - found|
  {
    assert A - found == (A - (found + {e})) + {e};
  }

  lemma Queued(from: Event, nxt: Event, rest: seq<Event>, found: set<Event>, toCheck: seq<Event>, more: seq<Event>)
    requires toCheck == [nxt] + rest && nxt in Anc(from) && (nxt.index > 0 <==> nxt.Derived?)
    requires more == if nxt.index > 0 then rest + Parents(nxt) else rest
    requires forall e :: e in toCheck ==> e in Anc(from)
    requires from in found || from in toCheck
    requires forall e, p :: e in found && p in Parents(e) ==> p in found || p in toCheck
    ensures forall e :: e in more ==> e in Anc(from)
    ensures from in found + {nxt} || from in more
    ensures forall e, p :: e in found + {nxt} && p in Parents(e) ==> p in found + {nxt} || p in more
  {
    hide Anc;
    AncTransitive(nxt, from);
    forall p | p in Parents(nxt) ensures p in Anc(from) { ParentAnc(p, nxt); }
    forall e | e in more ensures e in Anc(from) {
      if e in rest { assert e in toCheck; }
    }
    forall e | e in toCheck && e != nxt ensures e in more { assert e in rest; }
  }

  /** There is only one such vector, so the search and the stored vector are the same. */
  lemma KnownIsUnique(n: nat, D: set<Event>, e: Event, v: Slots, w: Slots)
    requires Dag(n, D) && ForkFree(D) && e in D && IsKnownVector(n, e, v) && IsKnownVector(n, e, w)
    ensures v == w
  {
    hide Anc, Dag;
    DagClosed(n, D, e);
    forall i | 0 <= i < n ensures v[i] == w[i] {
      assert IsHighest(Anc(e), i, v[i]) && IsHighest(Anc(e), i, w[i]);
    }
  }
}
