/** Clearing views: which ones a call can take out, and what holds the others back. */
module ViewClearing {
  import opened Events
  import opened VersionChains
  import opened ViewTree

  /** Some view at or below `v` is still in use. */
  ghost predicate HasUndone<K>(vs: seq<View<K>>, v: nat) {
    exists x: nat :: x < |vs| && vs[x].done == NotDone && Below(vs, x, v)
  }

  /** A dependent of `p` older than `c` has a view in use. */
  ghost predicate EarlierUndone<K>(vs: seq<View<K>>, p: nat, c: nat) {
    exists d: nat :: d < c && Up(vs, d) == Some(p) && HasUndone(vs, d)
  }

  /** On the way from `w` up to `t`, some view comes after a dependent that has a view in use. */
  ghost predicate BlockedUnder<K>(vs: seq<View<K>>, t: nat, w: nat) {
    w != t && Up(vs, w).Some? && (EarlierUndone(vs, Up(vs, w).value, w) || BlockedUnder(vs, t, Up(vs, w).value))
  }

  /** The same, on the way up through the parents that are waiting to be cleared. */
  ghost predicate BlockedBefore<K>(vs: seq<View<K>>, w: nat) {
    && Up(vs, w).Some? && vs[Up(vs, w).value].done == ClearStart
    && (EarlierUndone(vs, Up(vs, w).value, w) || BlockedBefore(vs, Up(vs, w).value))
  }

  /** Every view that waits to be cleared is held back by one still in use, below it or before it. */
  ghost predicate Tidy<K>(vs: seq<View<K>>) {
    forall w: nat :: w < |vs| && vs[w].done == ClearStart ==> HasUndone(vs, w) || BlockedBefore(vs, w)
  }

  /** Once all views of a subtree have called DoneClear and nothing before it holds it back, all of
      them are cleared. */
  lemma SubtreeIsCleared<K>(vs: seq<View<K>>, s: nat, w: nat)
    requires TreeOk(vs) && Tidy(vs) && s < |vs| && w < |vs| && Below(vs, w, s)
    requires forall x: nat :: x < |vs| && Below(vs, x, s) ==> vs[x].done in {ClearStart, ClearFinish}
    requires !BlockedBefore(vs, s)
    ensures vs[w].done == ClearFinish
  {
    hide TreeOk;
    if vs[w].done == ClearStart {
      forall x: nat | Below(vs, x, w) ensures Below(vs, x, s) { BelowTransitive(vs, x, w, s); }
      assert !HasUndone(vs, w);
      NotBlockedInside(vs, s, w);
    }
  }

  lemma {:induction false} NotBlockedInside<K>(vs: seq<View<K>>, s: nat, w: nat)
    requires s < |vs| && Below(vs, w, s) && !BlockedBefore(vs, s)
    requires forall x: nat :: x < |vs| && Below(vs, x, s) ==> vs[x].done in {ClearStart, ClearFinish}
    ensures !BlockedBefore(vs, w)
  {
    if w != s {
      var p := Up(vs, w).value;
      NotBlockedInside(vs, s, p);
      forall d: nat, x: nat | Up(vs, d) == Some(p) && x < |vs| && Below(vs, x, d) ensures vs[x].done != NotDone {
        assert Below(vs, d, s);
        BelowTransitive(vs, x, d, s);
      }
    }
  }

  // ----- Views taken out -----

  /** `us`, `l` are `vs`, `m` after some views that were waiting were cleared. */
  ghost predicate Clears<K(!new), V>(vs: seq<View<K>>, m: Chains<K, V>, us: seq<View<K>>, l: Chains<K, V>) {
    && Settles(vs, us)
    && (forall k :: Base(ChainOf(l, k)) == Base(ChainOf(m, k)))
    && forall k, w: nat :: Live(us, w) ==> Find(ChainOf(l, k), w) == Find(ChainOf(m, k), w)
  }

  ghost predicate Settles<K>(vs: seq<View<K>>, us: seq<View<K>>) {
    |us| == |vs| && forall w: nat :: w < |vs| ==> SettledView(vs[w], us[w])
  }

  ghost predicate SettledView<K>(a: View<K>, b: View<K>) {
    && b == a.(done := b.done, dependents := b.dependents)
    && (b.done == a.done || (a.done == ClearStart && b.done == ClearFinish))
  }

  lemma ClearsNothing<K(!new), V>(vs: seq<View<K>>, m: Chains<K, V>)
    ensures Clears(vs, m, vs, m)
  {
  }

  lemma ClearsTwice<K(!new), V>(vs: seq<View<K>>, m: Chains<K, V>, us: seq<View<K>>, l: Chains<K, V>, ts: seq<View<K>>, j: Chains<K, V>)
    requires Clears(vs, m, us, l) && Clears(us, l, ts, j)
    ensures Clears(vs, m, ts, j)
  {
    hide Find, Base, ChainOf;
    forall w: nat | w < |vs| ensures SettledView(vs[w], ts[w]) {
      assert SettledView(vs[w], us[w]) && SettledView(us[w], ts[w]);
    }
    forall w: nat | Live(ts, w) ensures Live(us, w) {
      assert SettledView(us[w], ts[w]);
    }
  }

  lemma SettlesUp<K>(vs: seq<View<K>>, us: seq<View<K>>)
    requires Settles(vs, us)
    ensures forall w: nat :: Up(us, w) == Up(vs, w)
    ensures forall w: nat :: w < |vs| ==> (us[w].done == NotDone <==> vs[w].done == NotDone)
    ensures forall w: nat :: Live(us, w) ==> Live(vs, w)
  {
    forall w: nat | w < |vs| ensures us[w].parent == vs[w].parent && (us[w].done == NotDone <==> vs[w].done == NotDone) {
      assert SettledView(vs[w], us[w]);
    }
  }

  /** Which views are in use, and where, is not changed by clearing others. */
  lemma SettlesUndone<K>(vs: seq<View<K>>, us: seq<View<K>>, v: nat)
    requires Settles(vs, us)
    ensures HasUndone(us, v) <==> HasUndone(vs, v)
  {
    hide Settles;
    SettlesUp(vs, us);
    SettledSize(vs, us);
    forall x: nat ensures Below(us, x, v) <==> Below(vs, x, v) { BelowSame(vs, us, x, v); }
  }

  lemma SettledSize<K>(vs: seq<View<K>>, us: seq<View<K>>)
    requires Settles(vs, us)
    ensures |us| == |vs|
  {
  }

  lemma SettlesEarlier<K>(vs: seq<View<K>>, us: seq<View<K>>, p: nat, c: nat)
    requires Settles(vs, us)
    ensures EarlierUndone(us, p, c) <==> EarlierUndone(vs, p, c)
  {
    hide Settles, HasUndone;
    SettlesUp(vs, us);
    forall d: nat ensures HasUndone(us, d) <==> HasUndone(vs, d) { SettlesUndone(vs, us, d); }
  }

  lemma {:induction false} SettlesBlocked<K>(vs: seq<View<K>>, us: seq<View<K>>, t: nat, w: nat)
    requires Settles(vs, us)
    ensures BlockedUnder(us, t, w) <==> BlockedUnder(vs, t, w)
    decreases w
  {
    hide Settles, EarlierUndone;
    SettlesUp(vs, us);
    if Up(vs, w).Some? {
      SettlesEarlier(vs, us, Up(vs, w).value, w);
      SettlesBlocked(vs, us, t, Up(vs, w).value);
    }
  }

  /** No view that is left notices what was cleared. */
  lemma ClearsUnread<K(!new), V>(vs: seq<View<K>>, m: Chains<K, V>, us: seq<View<K>>, l: Chains<K, V>, u: nat, k: K)
    requires Clears(vs, m, us, l) && TreeOk(us) && Live(us, u)
    ensures Look(us, l, u, k) == Look(vs, m, u, k)
  {
    hide TreeOk, Settles, Find, Base, Live, ChainOf, Look;
    SettlesUp(vs, us);
    forall w: nat | Below(us, u, w) ensures Live(us, w) { AboveLive(us, u, w); }
    LookSame(us, l, vs, m, u, k);
  }

  // ----- Taking out one view -----

  function Dropped(ds: seq<Option<nat>>, v: nat): (r: seq<Option<nat>>)
    ensures |r| == |ds| && forall i :: 0 <= i < |ds| ==> r[i] == if ds[i] == Some(v) then None else ds[i]
  {
    if ds == [] then [] else Dropped(ds[..|ds| - 1], v) + [if ds[|ds| - 1] == Some(v) then None else ds[|ds| - 1]]
  }

  ghost predicate Finished<K>(vs: seq<View<K>>, us: seq<View<K>>, v: nat) {
    && v < |vs| && |us| == |vs| && us[v] == vs[v].(done := ClearFinish)
    && forall w: nat :: w < |vs| && w != v ==>
        us[w] == if vs[v].parent == Some(w) then vs[w].(dependents := Dropped(vs[w].dependents, v)) else vs[w]
  }

  ghost predicate Purged<K(!new), V>(m: Chains<K, V>, l: Chains<K, V>, v: nat) {
    forall k :: ChainOf(l, k) == Without(ChainOf(m, k), v)
  }

  /** A waiting view without dependents can be taken out: no other view notices. */
  lemma FinishStep<K(!new), V>(vs: seq<View<K>>, m: Chains<K, V>, us: seq<View<K>>, l: Chains<K, V>, v: nat)
    requires TreeOk(vs) && ItemsOk(vs, m) && v < |vs| && vs[v].done == ClearStart && (forall c: nat :: Some(c) !in vs[v].dependents)
    requires Finished(vs, us, v) && Purged(m, l, v)
    ensures TreeOk(us) && ItemsOk(us, l) && Clears(vs, m, us, l)
  {
    hide *;
    FinishLive(vs, us, v);
    PurgedFinds(vs, m, l, v);
    FinishTree(vs, us, v);
    FinishItems(vs, m, us, l, v);
    FinishClears(vs, m, us, l, v);
  }

  lemma FinishLive<K>(vs: seq<View<K>>, us: seq<View<K>>, v: nat)
    requires Finished(vs, us, v)
    ensures |us| == |vs| && forall u: nat :: Live(us, u) <==> Live(vs, u) && u != v
    ensures forall u: nat :: Up(us, u) == Up(vs, u)
    ensures Settles(vs, us) || vs[v].done != ClearStart
  {
  }

  lemma PurgedFinds<K(!new), V>(vs: seq<View<K>>, m: Chains<K, V>, l: Chains<K, V>, v: nat)
    requires ItemsOk(vs, m) && Purged(m, l, v)
    ensures forall k :: ChainOk(ChainOf(l, k)) && Base(ChainOf(l, k)) == Base(ChainOf(m, k))
    ensures forall k, w: nat :: Find(ChainOf(l, k), w) == if w == v then None else Find(ChainOf(m, k), w)
  {
    hide ChainOk, Find, ChainOf, Without, Live;
    forall k ensures ChainOk(ChainOf(l, k)) && Base(ChainOf(l, k)) == Base(ChainOf(m, k)) {
      WithoutOk(ChainOf(m, k), v);
      WithoutFind(ChainOf(m, k), v, COMMITTED);
    }
    forall k, w: nat ensures Find(ChainOf(l, k), w) == if w == v then None else Find(ChainOf(m, k), w) {
      WithoutFind(ChainOf(m, k), v, w);
    }
  }

  lemma FinishTree<K>(vs: seq<View<K>>, us: seq<View<K>>, v: nat)
    requires TreeOk(vs) && Finished(vs, us, v) && v < |vs| && (forall c: nat :: Some(c) !in vs[v].dependents)
    ensures TreeOk(us)
  {
    hide Path, ParentOk, IdsOk, DependentsOk, Finished;
    FinishLive(vs, us, v);
    forall u: nat | u < |us| ensures ViewOk(us, u) {
      assert ViewOk(vs, u);
      if Live(vs, u) && vs[u].parent == Some(v) { NoDependents(vs, v, u); }
      FinishParents(vs, us, v, u);
      PathSame(vs, us, u);
      FinishIds(vs, us, v, u);
      FinishDependents(vs, us, v, u);
    }
  }

  lemma NoDependents<K>(vs: seq<View<K>>, v: nat, u: nat)
    requires u < |vs| && ParentOk(vs, u) && v < |vs| && (forall c: nat :: Some(c) !in vs[v].dependents)
    ensures !(Live(vs, u) && vs[u].parent == Some(v))
  {
  }

  lemma FinishParents<K>(vs: seq<View<K>>, us: seq<View<K>>, v: nat, u: nat)
    requires Finished(vs, us, v) && u < |vs| == |us| && ParentOk(vs, u) && !(Live(vs, u) && vs[u].parent == Some(v))
    requires forall w: nat :: Live(us, w) <==> Live(vs, w) && w != v
    ensures ParentOk(us, u)
  {
    hide Live;
    if us[u].parent.Some? && Live(us, u) {
      var p := us[u].parent.value;
      var i :| 0 <= i < |vs[p].dependents| && vs[p].dependents[i] == Some(u);
      assert us[p].dependents[i] == Some(u);
    }
  }

  lemma FinishIds<K>(vs: seq<View<K>>, us: seq<View<K>>, v: nat, u: nat)
    requires Finished(vs, us, v) && u < |vs| == |us| && IdsOk(vs, u) && Path(us, u) == Path(vs, u)
    requires forall w: nat :: Live(us, w) <==> Live(vs, w) && w != v
    ensures IdsOk(us, u)
  {
    hide Live, Path;
  }

  lemma FinishDependents<K>(vs: seq<View<K>>, us: seq<View<K>>, v: nat, u: nat)
    requires Finished(vs, us, v) && u < |vs| == |us| && DependentsOk(vs, u) && (forall c: nat :: Some(c) !in vs[v].dependents)
    requires forall w: nat :: Live(us, w) <==> Live(vs, w) && w != v
    ensures DependentsOk(us, u)
  {
    forall c: nat | Some(c) in us[u].dependents ensures Live(us, c) && us[c].parent == Some(u) {
      var i :| 0 <= i < |us[u].dependents| && us[u].dependents[i] == Some(c);
      assert vs[u].dependents[i] == Some(c);
      assert Some(c) in vs[u].dependents;
      assert vs[c].parent == Some(u);
    }
    DroppedRises(vs[u].dependents, us[u].dependents, v);
  }

  lemma DroppedRises(ds: seq<Option<nat>>, es: seq<Option<nat>>, v: nat)
    requires Rising(ds) && (es == ds || es == Dropped(ds, v))
    ensures Rising(es)
  {
  }

  lemma FinishItems<K(!new), V>(vs: seq<View<K>>, m: Chains<K, V>, us: seq<View<K>>, l: Chains<K, V>, v: nat)
    requires ItemsOk(vs, m) && Finished(vs, us, v)
    requires forall k :: ChainOk(ChainOf(l, k))
    requires forall k, w: nat :: Find(ChainOf(l, k), w) == if w == v then None else Find(ChainOf(m, k), w)
    requires forall w: nat :: Live(us, w) <==> Live(vs, w) && w != v
    ensures ItemsOk(us, l)
  {
    hide ChainOk, Find, ChainOf, Live;
    forall w: nat | w < |vs| ensures us[w].myItems == vs[w].myItems { }
    forall w: nat, q ensures Find(ChainOf(l, q), w).Some? <==> w < |us| && Live(us, w) && q in us[w].myItems {
      assert Find(ChainOf(m, q), w).Some? <==> w < |vs| && Live(vs, w) && q in vs[w].myItems;
    }
  }

  lemma FinishClears<K(!new), V>(vs: seq<View<K>>, m: Chains<K, V>, us: seq<View<K>>, l: Chains<K, V>, v: nat)
    requires Settles(vs, us) && forall w: nat :: Live(us, w) <==> Live(vs, w) && w != v
    requires forall k :: Base(ChainOf(l, k)) == Base(ChainOf(m, k))
    requires forall k, w: nat :: Find(ChainOf(l, k), w) == if w == v then None else Find(ChainOf(m, k), w)
    ensures Clears(vs, m, us, l)
  {
    hide Find, ChainOf, Live, Settles, Base;
  }

  // ----- Clearing below a view -----

  /** The waiting view `w` was cleared exactly when no view in use is below it or before it under `t`. */
  ghost predicate Outcome<K>(vs: seq<View<K>>, us: seq<View<K>>, t: nat, w: nat)
    requires w < |us|
  {
    us[w].done == ClearFinish <==> !HasUndone(vs, w) && !BlockedUnder(vs, t, w)
  }

  ghost function OutsideView<K>(vs: seq<View<K>>, w: nat, v: nat, cleared: bool): View<K>
    requires w < |vs| && v < |vs|
  {
    if cleared && vs[v].parent == Some(w) then vs[w].(dependents := Dropped(vs[w].dependents, v)) else vs[w]
  }

  /** What clearing below `v` must do. */
  ghost predicate Recursed<K(!new), V>(vs: seq<View<K>>, m: Chains<K, V>, us: seq<View<K>>, l: Chains<K, V>, v: nat, cleared: bool) {
    && TreeOk(us) && ItemsOk(us, l) && Clears(vs, m, us, l) && v < |vs| == |us|
    && (cleared <==> !HasUndone(vs, v))
    && (forall w: nat :: w < |vs| && !Below(vs, w, v) ==> us[w] == OutsideView(vs, w, v, cleared))
    && forall w: nat :: w < |vs| && Below(vs, w, v) && vs[w].done == ClearStart ==> Outcome(vs, us, v, w)
  }

  /** The state after the first `i` dependents of `v` were cleared with everything below them. */
  ghost predicate Partly<K(!new), V>(vs: seq<View<K>>, m: Chains<K, V>, us: seq<View<K>>, l: Chains<K, V>, v: nat, i: nat) {
    && TreeOk(us) && ItemsOk(us, l) && Clears(vs, m, us, l) && v < |vs| == |us| && i <= |vs[v].dependents|
    && us[v] == vs[v].(dependents := us[v].dependents) && HalfDropped(vs[v].dependents, us[v].dependents, i)
    && NoneUndone(vs, v, i)
    && (forall w: nat :: w < |vs| && w != v && !Visited(vs, v, i, w) ==> us[w] == vs[w])
    && forall w: nat :: w < |vs| && w != v && Visited(vs, v, i, w) && vs[w].done == ClearStart ==> Outcome(vs, us, v, w)
  }

  ghost predicate HalfDropped(ds: seq<Option<nat>>, es: seq<Option<nat>>, i: nat) {
    |es| == |ds| && (forall j :: 0 <= j < i && j < |ds| ==> es[j].None?) && forall j :: i <= j < |ds| ==> es[j] == ds[j]
  }

  ghost predicate NoneUndone<K>(vs: seq<View<K>>, v: nat, i: nat)
    requires v < |vs|
  {
    forall j: nat :: j < i && j < |vs[v].dependents| && vs[v].dependents[j].Some? ==> !HasUndone(vs, vs[v].dependents[j].value)
  }

  lemma PartlyStart<K(!new), V>(vs: seq<View<K>>, m: Chains<K, V>, v: nat)
    requires TreeOk(vs) && ItemsOk(vs, m) && v < |vs|
    ensures Partly(vs, m, vs, m, v, 0)
  {
    hide TreeOk, ItemsOk, Clears, Outcome;
    ClearsNothing(vs, m);
  }

  lemma PartlySkip<K(!new), V>(vs: seq<View<K>>, m: Chains<K, V>, us: seq<View<K>>, l: Chains<K, V>, v: nat, i: nat)
    requires Partly(vs, m, us, l, v, i) && i < |vs[v].dependents| && vs[v].dependents[i].None?
    ensures Partly(vs, m, us, l, v, i + 1)
  {
    hide TreeOk, ItemsOk, Clears, Outcome, HasUndone, Below;
    forall x: nat ensures Visited(vs, v, i + 1, x) <==> Visited(vs, v, i, x) { }
  }

  lemma PartlyShape<K(!new), V>(vs: seq<View<K>>, m: Chains<K, V>, us: seq<View<K>>, l: Chains<K, V>, v: nat, i: nat)
    requires TreeOk(vs) && Partly(vs, m, us, l, v, i)
    ensures TreeOk(us) && ItemsOk(us, l) && v < |vs| == |us| && |us[v].dependents| == |vs[v].dependents|
    ensures i < |vs[v].dependents| ==> us[v].dependents[i] == vs[v].dependents[i]
    ensures i < |vs[v].dependents| && vs[v].dependents[i].Some? ==> Live(us, vs[v].dependents[i].value) && vs[v].dependents[i].value > v
    ensures i == |vs[v].dependents| ==> forall c: nat :: Some(c) !in us[v].dependents
    ensures us[v].done == vs[v].done
  {
    hide TreeOk, ItemsOk, Clears, Outcome, HasUndone, Below, Visited;
    if i < |vs[v].dependents| && vs[v].dependents[i].Some? {
      DependentUp(us, v, i);
    }
  }

  lemma NoEarlier<K>(vs: seq<View<K>>, v: nat, i: nat)
    requires TreeOk(vs) && v < |vs| && NoneUndone(vs, v, i) && i < |vs[v].dependents| && vs[v].dependents[i].Some?
    ensures !EarlierUndone(vs, v, vs[v].dependents[i].value)
  {
    hide TreeOk;
    var c := vs[v].dependents[i].value;
    forall d: nat | d < c && Up(vs, d) == Some(v) ensures !HasUndone(vs, d) {
      if HasUndone(vs, d) {
        var x: nat :| x < |vs| && vs[x].done == NotDone && Below(vs, x, d);
        AboveLive(vs, x, d);
        var j := DependentAt(vs, v, d);
        if j > i { OrderedDependents(vs, v, i, j); }
      }
    }
  }

  lemma DependentAt<K>(vs: seq<View<K>>, v: nat, d: nat) returns (j: nat)
    requires TreeOk(vs) && v < |vs| && Live(vs, d) && Up(vs, d) == Some(v)
    ensures j < |vs[v].dependents| && vs[v].dependents[j] == Some(d)
  {
    hide IdsOk, DependentsOk;
    assert ViewOk(vs, d);
    j :| 0 <= j < |vs[v].dependents| && vs[v].dependents[j] == Some(d);
  }

  /** What blocks `w` under `v` is what blocks it under the dependent above it, or that dependent. */
  lemma {:induction false} BlockedVia<K>(vs: seq<View<K>>, v: nat, c: nat, w: nat)
    requires Up(vs, c) == Some(v) && Below(vs, w, c)
    ensures BlockedUnder(vs, v, w) <==> BlockedUnder(vs, c, w) || EarlierUndone(vs, v, c)
    decreases w
  {
    hide EarlierUndone;
    BelowOlder(vs, w, c);
    if w != c {
      BlockedVia(vs, v, c, Up(vs, w).value);
    }
  }

  lemma OutcomeLift<K>(vs: seq<View<K>>, us: seq<View<K>>, ts: seq<View<K>>, v: nat, c: nat, w: nat)
    requires Settles(vs, us) && Up(vs, c) == Some(v) && Below(vs, w, c) && w < |ts| && !EarlierUndone(vs, v, c)
    requires Outcome(us, ts, c, w)
    ensures Outcome(vs, ts, v, w)
  {
    hide EarlierUndone, Settles, HasUndone, BlockedUnder;
    SettlesUndone(vs, us, w);
    SettlesBlocked(vs, us, c, w);
    BlockedVia(vs, v, c, w);
  }

  /** `ts` is the state after the dependent `c` of `v` was cleared, or not, in state `us`. */
  lemma Visiting<K(!new), V>(vs: seq<View<K>>, m: Chains<K, V>, us: seq<View<K>>, l: Chains<K, V>, ts: seq<View<K>>, j: Chains<K, V>, v: nat, i: nat, cleared: bool)
    requires TreeOk(vs) && Partly(vs, m, us, l, v, i) && i < |vs[v].dependents| && vs[v].dependents[i].Some?
    requires Recursed(us, l, ts, j, vs[v].dependents[i].value, cleared)
    ensures Clears(vs, m, ts, j) && |ts| == |vs| && TreeOk(ts) && ItemsOk(ts, j)
    ensures cleared <==> !HasUndone(vs, vs[v].dependents[i].value)
    ensures ts[v] == vs[v].(dependents := ts[v].dependents)
    ensures ts[v].dependents == if cleared then Dropped(us[v].dependents, vs[v].dependents[i].value) else us[v].dependents
    ensures forall w: nat :: w < |vs| && w != v && !Visited(vs, v, i + 1, w) ==> ts[w] == vs[w]
    ensures forall w: nat :: w < |vs| && w != v && Visited(vs, v, i + 1, w) && vs[w].done == ClearStart ==> Outcome(vs, ts, v, w)
  {
    hide *;
    PartlyFacts(vs, m, us, l, v, i);
    var c := vs[v].dependents[i].value;
    RecursedFacts(us, l, ts, j, c, cleared);
    ClearsTwice(vs, m, us, l, ts, j);
    SettlesUndone(vs, us, c);
    DependentUp(vs, v, i);
    DependentUp(us, v, i);
    ParentView(us, v, c, cleared);
    forall w: nat | w < |vs| && w != v && !Visited(vs, v, i + 1, w) ensures ts[w] == vs[w] {
      VisitedNext(vs, v, i, w);
      SettlesBelow(vs, us, w, c);
      OtherView(us, w, v, c, cleared);
    }
    forall w: nat | w < |vs| && w != v && Visited(vs, v, i + 1, w) && vs[w].done == ClearStart ensures Outcome(vs, ts, v, w) {
      VisitedNext(vs, v, i, w);
      SettlesBelow(vs, us, w, c);
      if Below(vs, w, c) {
        NotYetVisited(vs, v, i, w);
        NoEarlier(vs, v, i);
        OutcomeLift(vs, us, ts, v, c, w);
      } else {
        OtherView(us, w, v, c, cleared);
        SameOutcome(vs, us, ts, v, w);
      }
    }
  }

  lemma SameOutcome<K>(vs: seq<View<K>>, us: seq<View<K>>, ts: seq<View<K>>, v: nat, w: nat)
    requires w < |us| == |ts| && Outcome(vs, us, v, w) && ts[w].done == us[w].done
    ensures Outcome(vs, ts, v, w)
  {
    hide HasUndone, BlockedUnder;
  }

  lemma PartlyFacts<K(!new), V>(vs: seq<View<K>>, m: Chains<K, V>, us: seq<View<K>>, l: Chains<K, V>, v: nat, i: nat)
    requires Partly(vs, m, us, l, v, i)
    ensures TreeOk(us) && ItemsOk(us, l) && Clears(vs, m, us, l) && Settles(vs, us) && v < |vs| == |us|
    ensures us[v] == vs[v].(dependents := us[v].dependents) && HalfDropped(vs[v].dependents, us[v].dependents, i)
    ensures |us[v].dependents| == |vs[v].dependents| && (i < |vs[v].dependents| ==> us[v].dependents[i] == vs[v].dependents[i])
    ensures NoneUndone(vs, v, i)
    ensures forall w: nat :: w < |vs| && w != v && !Visited(vs, v, i, w) ==> us[w] == vs[w]
    ensures forall w: nat :: w < |vs| && w != v && Visited(vs, v, i, w) && vs[w].done == ClearStart ==> Outcome(vs, us, v, w)
  {
    hide TreeOk, ItemsOk, Outcome, Visited, NoneUndone, Settles;
  }

  lemma RecursedFacts<K(!new), V>(vs: seq<View<K>>, m: Chains<K, V>, us: seq<View<K>>, l: Chains<K, V>, v: nat, cleared: bool)
    requires Recursed(vs, m, us, l, v, cleared)
    ensures TreeOk(us) && ItemsOk(us, l) && Clears(vs, m, us, l) && v < |vs| == |us|
    ensures cleared <==> !HasUndone(vs, v)
    ensures forall w: nat :: w < |vs| && !Below(vs, w, v) ==> us[w] == OutsideView(vs, w, v, cleared)
    ensures forall w: nat :: w < |vs| && Below(vs, w, v) && vs[w].done == ClearStart ==> Outcome(vs, us, v, w)
  {
    hide TreeOk, ItemsOk, Outcome, Clears, HasUndone, Below, OutsideView;
  }

  lemma ParentView<K>(us: seq<View<K>>, v: nat, c: nat, cleared: bool)
    requires Up(us, c) == Some(v) && v < |us| && c < |us|
    ensures !Below(us, v, c)
    ensures OutsideView(us, v, c, cleared) == us[v].(dependents := if cleared then Dropped(us[v].dependents, c) else us[v].dependents)
  {
    if Below(us, v, c) { BelowOlder(us, v, c); }
  }

  lemma OtherView<K>(us: seq<View<K>>, w: nat, v: nat, c: nat, cleared: bool)
    requires Up(us, c) == Some(v) && c < |us| && w < |us| && w != v
    ensures OutsideView(us, w, c, cleared) == us[w]
  {
  }

  lemma SettlesBelow<K>(vs: seq<View<K>>, us: seq<View<K>>, x: nat, v: nat)
    requires Settles(vs, us)
    ensures Below(us, x, v) <==> Below(vs, x, v)
  {
    hide Settles;
    SettlesUp(vs, us);
    BelowSame(vs, us, x, v);
  }

  lemma VisitedNext<K>(vs: seq<View<K>>, v: nat, i: nat, x: nat)
    requires v < |vs| && i < |vs[v].dependents| && vs[v].dependents[i].Some?
    ensures Visited(vs, v, i + 1, x) <==> Visited(vs, v, i, x) || Below(vs, x, vs[v].dependents[i].value)
  {
    hide Below;
  }

  lemma PartlyNext<K(!new), V>(vs: seq<View<K>>, m: Chains<K, V>, us: seq<View<K>>, l: Chains<K, V>, ts: seq<View<K>>, j: Chains<K, V>, v: nat, i: nat)
    requires TreeOk(vs) && Partly(vs, m, us, l, v, i) && i < |vs[v].dependents| && vs[v].dependents[i].Some?
    requires Recursed(us, l, ts, j, vs[v].dependents[i].value, true)
    ensures Partly(vs, m, ts, j, v, i + 1)
  {
    hide TreeOk, ItemsOk, Clears, Outcome, HasUndone, Below, Recursed, Visited;
    Visiting(vs, m, us, l, ts, j, v, i, true);
    DropNext(vs, us, v, i);
  }

  lemma DropNext<K>(vs: seq<View<K>>, us: seq<View<K>>, v: nat, i: nat)
    requires TreeOk(vs) && v < |vs| == |us| && i < |vs[v].dependents| && vs[v].dependents[i].Some?
    requires HalfDropped(vs[v].dependents, us[v].dependents, i)
    ensures HalfDropped(vs[v].dependents, Dropped(us[v].dependents, vs[v].dependents[i].value), i + 1)
  {
    hide TreeOk;
    var c := vs[v].dependents[i].value;
    forall k: nat | i < k < |vs[v].dependents| ensures vs[v].dependents[k] != Some(c) {
      if vs[v].dependents[k].Some? { OrderedDependents(vs, v, i, k); }
    }
  }

  /** A dependent has a view in use: nothing after it is touched. */
  lemma PartlyStop<K(!new), V>(vs: seq<View<K>>, m: Chains<K, V>, us: seq<View<K>>, l: Chains<K, V>, ts: seq<View<K>>, j: Chains<K, V>, v: nat, i: nat)
    requires TreeOk(vs) && Partly(vs, m, us, l, v, i) && i < |vs[v].dependents| && vs[v].dependents[i].Some?
    requires Recursed(us, l, ts, j, vs[v].dependents[i].value, false)
    ensures Recursed(vs, m, ts, j, v, false)
  {
    hide TreeOk, ItemsOk, Clears, Outcome, HasUndone, Below, Recursed, Visited, HalfDropped, Partly;
    PartlyFacts(vs, m, us, l, v, i);
    Visiting(vs, m, us, l, ts, j, v, i, false);
    var c := vs[v].dependents[i].value;
    DependentUp(vs, v, i);
    SelfBelow(vs, c);
    NotYetVisited(vs, v, i, c);
    UndoneAbove(vs, c, v);
    assert us[v] == vs[v].(dependents := us[v].dependents);
    SelfBelow(vs, v);
    forall w: nat | w < |vs| && w != v && Visited(vs, v, i + 1, w) ensures Below(vs, w, v) { VisitedBelow(vs, v, i + 1, w); }
    forall w: nat | w < |vs| && Below(vs, w, v) && vs[w].done == ClearStart ensures Outcome(vs, ts, v, w) {
      if w == v {
        NotFinished(vs, ts, v, v);
      } else if !Visited(vs, v, i + 1, w) {
        LaterIsBlocked(vs, v, i, w);
        NotFinished(vs, ts, v, w);
      }
    }
    RecursedIf(vs, m, ts, j, v, false);
  }

  lemma RecursedIf<K(!new), V>(vs: seq<View<K>>, m: Chains<K, V>, us: seq<View<K>>, l: Chains<K, V>, v: nat, cleared: bool)
    requires TreeOk(us) && ItemsOk(us, l) && Clears(vs, m, us, l) && v < |vs| == |us|
    requires cleared <==> !HasUndone(vs, v)
    requires forall w: nat :: w < |vs| && !Below(vs, w, v) ==> us[w] == OutsideView(vs, w, v, cleared)
    requires forall w: nat :: w < |vs| && Below(vs, w, v) && vs[w].done == ClearStart ==> Outcome(vs, us, v, w)
    ensures Recursed(vs, m, us, l, v, cleared)
  {
    hide TreeOk, ItemsOk, Outcome, Clears, HasUndone, Below, OutsideView;
  }

  lemma UndoneAbove<K>(vs: seq<View<K>>, c: nat, v: nat)
    requires HasUndone(vs, c) && Below(vs, c, v)
    ensures HasUndone(vs, v)
  {
    var x: nat :| x < |vs| && vs[x].done == NotDone && Below(vs, x, c);
    BelowTransitive(vs, x, c, v);
  }

  lemma VisitedBelow<K>(vs: seq<View<K>>, v: nat, i: nat, w: nat)
    requires TreeOk(vs) && v < |vs| && Visited(vs, v, i, w)
    ensures Below(vs, w, v)
  {
    hide TreeOk;
    if w != v {
      var j: nat :| j < i && j < |vs[v].dependents| && vs[v].dependents[j].Some? && Below(vs, w, vs[v].dependents[j].value);
      NotYetVisited(vs, v, j, w);
    }
  }

  lemma NotFinished<K>(vs: seq<View<K>>, us: seq<View<K>>, t: nat, w: nat)
    requires w < |us| && us[w].done != ClearFinish && (HasUndone(vs, w) || BlockedUnder(vs, t, w))
    ensures Outcome(vs, us, t, w)
  {
    hide HasUndone, BlockedUnder;
  }

  lemma LaterIsBlocked<K>(vs: seq<View<K>>, v: nat, i: nat, w: nat)
    requires TreeOk(vs) && v < |vs| && i < |vs[v].dependents| && vs[v].dependents[i].Some?
    requires HasUndone(vs, vs[v].dependents[i].value)
    requires Live(vs, w) && Below(vs, w, v) && w != v && !Visited(vs, v, i + 1, w)
    ensures BlockedUnder(vs, v, w)
  {
    hide TreeOk, HasUndone, Below, BlockedUnder;
    var k := BelowDependent(vs, v, w);
    assert k > i;
    OrderedDependents(vs, v, i, k);
    DependentUp(vs, v, i);
    DependentUp(vs, v, k);
    assert EarlierUndone(vs, v, vs[v].dependents[k].value);
    BlockedVia(vs, v, vs[v].dependents[k].value, w);
  }

  lemma NoneLeftUndone<K>(vs: seq<View<K>>, v: nat)
    requires TreeOk(vs) && v < |vs| && NoneUndone(vs, v, |vs[v].dependents|) && vs[v].done != NotDone
    ensures !HasUndone(vs, v)
  {
    hide TreeOk;
    forall x: nat | x < |vs| && vs[x].done == NotDone ensures !Below(vs, x, v) {
      if Below(vs, x, v) {
        var j := BelowDependent(vs, v, x);
      }
    }
  }

  lemma AllVisited<K>(vs: seq<View<K>>, v: nat, w: nat)
    requires TreeOk(vs) && v < |vs| && Live(vs, w) && Below(vs, w, v)
    ensures Visited(vs, v, |vs[v].dependents|, w)
  {
    hide TreeOk, Below;
    if w != v { var j := BelowDependent(vs, v, w); }
  }

  lemma OutsideUnvisited<K>(vs: seq<View<K>>, v: nat, i: nat, w: nat)
    requires TreeOk(vs) && v < |vs| && !Below(vs, w, v)
    ensures w != v && !Visited(vs, v, i, w)
  {
    hide TreeOk, Below, Visited;
    SelfBelow(vs, v);
    if Visited(vs, v, i, w) { VisitedBelow(vs, v, i, w); }
  }

  /** All dependents are cleared but the view itself is in use. */
  lemma PartlyInUse<K(!new), V>(vs: seq<View<K>>, m: Chains<K, V>, us: seq<View<K>>, l: Chains<K, V>, v: nat)
    requires v < |vs| && TreeOk(vs) && Partly(vs, m, us, l, v, |vs[v].dependents|) && vs[v].done == NotDone
    requires forall c: nat :: Some(c) !in us[v].dependents
    ensures Recursed(vs, m, us, l, v, false)
  {
    hide *;
    PartlyFacts(vs, m, us, l, v, |vs[v].dependents|);
    InUse(vs, v);
    forall w: nat | w < |vs| && Below(vs, w, v) && vs[w].done == ClearStart ensures Outcome(vs, us, v, w) {
      IsLive(vs, w);
      AllVisited(vs, v, w);
    }
    forall w: nat | w < |vs| && !Below(vs, w, v) ensures us[w] == OutsideView(vs, w, v, false) {
      OutsideUnvisited(vs, v, |vs[v].dependents|, w);
      OutsideSame(vs, w, v);
    }
    RecursedIf(vs, m, us, l, v, false);
  }

  lemma IsLive<K>(vs: seq<View<K>>, w: nat)
    requires w < |vs| && vs[w].done in {NotDone, ClearStart}
    ensures Live(vs, w)
  {
  }

  lemma InUse<K>(vs: seq<View<K>>, v: nat)
    requires v < |vs| && vs[v].done == NotDone
    ensures HasUndone(vs, v)
  {
    SelfBelow(vs, v);
  }

  lemma OutsideSame<K>(vs: seq<View<K>>, w: nat, v: nat)
    requires w < |vs| && v < |vs|
    ensures OutsideView(vs, w, v, false) == vs[w]
  {
  }

  /** All dependents are cleared and so is the view. */
  lemma PartlyFinish<K(!new), V>(vs: seq<View<K>>, m: Chains<K, V>, us: seq<View<K>>, l: Chains<K, V>, ts: seq<View<K>>, j: Chains<K, V>, v: nat)
    requires v < |vs| && TreeOk(vs) && Partly(vs, m, us, l, v, |vs[v].dependents|) && vs[v].done == ClearStart
    requires v < |us| && forall c: nat :: Some(c) !in us[v].dependents
    requires Finished(us, ts, v) && Purged(l, j, v)
    ensures Recursed(vs, m, ts, j, v, true)
  {
    hide *;
    PartlyFacts(vs, m, us, l, v, |vs[v].dependents|);
    FinishStep(us, l, ts, j, v);
    FinishLive(us, ts, v);
    ClearsTwice(vs, m, us, l, ts, j);
    NoneLeftUndone(vs, v);
    forall w: nat | w < |vs| && Below(vs, w, v) && vs[w].done == ClearStart ensures Outcome(vs, ts, v, w) {
      if w == v {
        IsFinished(vs, us, ts, v);
      } else {
        IsLive(vs, w);
        AllVisited(vs, v, w);
        OthersStay(us, ts, v, w);
        SameOutcome(vs, us, ts, v, w);
      }
    }
    forall w: nat | w < |vs| && !Below(vs, w, v) ensures ts[w] == OutsideView(vs, w, v, true) {
      OutsideUnvisited(vs, v, |vs[v].dependents|, w);
      FinishedOutside(vs, us, ts, v, w);
    }
    RecursedIf(vs, m, ts, j, v, true);
  }

  lemma IsFinished<K>(vs: seq<View<K>>, us: seq<View<K>>, ts: seq<View<K>>, v: nat)
    requires Finished(us, ts, v) && !HasUndone(vs, v)
    ensures Outcome(vs, ts, v, v)
  {
  }

  lemma OthersStay<K>(us: seq<View<K>>, ts: seq<View<K>>, v: nat, w: nat)
    requires Finished(us, ts, v) && w < |us| && w != v
    ensures ts[w].done == us[w].done
  {
  }

  lemma FinishedOutside<K>(vs: seq<View<K>>, us: seq<View<K>>, ts: seq<View<K>>, v: nat, w: nat)
    requires Finished(us, ts, v) && |us| == |vs| && w < |us| && w != v && us[w] == vs[w] && us[v].parent == vs[v].parent
    ensures ts[w] == OutsideView(vs, w, v, true)
  {
  }
}
