/** Over every run: a view that waits to be cleared is held back by one still in use. */
module ClearingOrder {
  import opened Events
  import opened VersionChains
  import opened ViewTree
  import opened ViewClearing

  // ----- Marking a view and finding where to start -----

  ghost function Marked<K>(vs: seq<View<K>>, v: nat): seq<View<K>>
    requires v < |vs|
  {
    vs[v := vs[v].(done := ClearStart)]
  }

  lemma MarkStep<K(!new), V>(vs: seq<View<K>>, m: Chains<K, V>, v: nat)
    requires TreeOk(vs) && ItemsOk(vs, m) && v < |vs| && Live(vs, v)
    ensures TreeOk(Marked(vs, v)) && ItemsOk(Marked(vs, v), m)
    ensures forall u: nat :: Live(Marked(vs, v), u) <==> Live(vs, u)
    ensures forall u: nat, k :: Look(Marked(vs, v), m, u, k) == Look(vs, m, u, k)
  {
    hide Path, ParentOk, IdsOk, DependentsOk, Look, ChainOk, Find, ChainOf;
    var us := Marked(vs, v);
    MarkUp(vs, v);
    forall u: nat | u < |us| ensures ViewOk(us, u) {
      assert ViewOk(vs, u);
      PathSame(vs, us, u);
      MarkView(vs, us, v, u);
    }
    forall u: nat, k ensures Look(us, m, u, k) == Look(vs, m, u, k) { LookSame(vs, m, us, m, u, k); }
    forall w: nat, q ensures Find(ChainOf(m, q), w).Some? <==> w < |us| && Live(us, w) && q in us[w].myItems {
      assert Find(ChainOf(m, q), w).Some? <==> w < |vs| && Live(vs, w) && q in vs[w].myItems;
    }
  }

  lemma MarkUp<K>(vs: seq<View<K>>, v: nat)
    requires v < |vs|
    ensures forall u: nat :: Up(Marked(vs, v), u) == Up(vs, u)
    ensures Live(vs, v) ==> forall u: nat :: Live(Marked(vs, v), u) <==> Live(vs, u)
  {
  }

  lemma MarkView<K>(vs: seq<View<K>>, us: seq<View<K>>, v: nat, u: nat)
    requires v < |vs| && Live(vs, v) && us == Marked(vs, v) && u < |vs| && ViewOk(vs, u)
    requires (forall w: nat :: Live(us, w) <==> Live(vs, w)) && Path(us, u) == Path(vs, u)
    ensures ViewOk(us, u)
  {
    hide Path, Rising;
  }

  lemma MarkBelow<K>(vs: seq<View<K>>, v: nat, x: nat, w: nat)
    requires v < |vs|
    ensures Below(Marked(vs, v), x, w) <==> Below(vs, x, w)
  {
    MarkUp(vs, v);
    BelowSame(vs, Marked(vs, v), x, w);
  }

  /** The last of the waiting views on the way up from `v`. */
  ghost function TopView<K>(vs: seq<View<K>>, v: nat): nat {
    if Up(vs, v).Some? && vs[Up(vs, v).value].done == ClearStart then TopView(vs, Up(vs, v).value) else v
  }

  /** `t` is where clearing starts for `v`: the last of the waiting views above it. */
  ghost predicate IsTop<K>(vs: seq<View<K>>, v: nat, t: nat) {
    && t < |vs| && Below(vs, v, t)
    && (forall w: nat :: w < |vs| && Below(vs, v, w) && Below(vs, w, t) ==> vs[w].done == ClearStart)
    && (Up(vs, t).Some? ==> vs[Up(vs, t).value].done != ClearStart)
  }

  /** Below the start, being held back is the same thing for the recursion and for the whole tree. */
  lemma {:induction false} TopBlocked<K>(vs: seq<View<K>>, t: nat, w: nat)
    requires Below(vs, w, t) && (Up(vs, t).Some? ==> vs[Up(vs, t).value].done != ClearStart)
    requires forall y: nat :: y < |vs| && Below(vs, w, y) && Below(vs, y, t) ==> vs[y].done == ClearStart
    ensures BlockedUnder(vs, t, w) <==> BlockedBefore(vs, w)
  {
    if w != t {
      var p := Up(vs, w).value;
      assert Below(vs, p, p) && Below(vs, w, p);
      TopBlocked(vs, t, p);
    }
  }

  // ----- Clearing keeps the tree tidy -----

  lemma {:induction false} SettlesBefore<K>(vs: seq<View<K>>, us: seq<View<K>>, w: nat)
    requires Settles(vs, us) && TreeOk(us) && Live(us, w)
    ensures BlockedBefore(us, w) <==> BlockedBefore(vs, w)
  {
    hide EarlierUndone, IdsOk, DependentsOk, Path;
    SettlesUp(vs, us);
    if Up(vs, w).Some? {
      var p := Up(vs, w).value;
      assert ViewOk(us, w);
      assert SettledView(vs[p], us[p]);
      SettlesEarlier(vs, us, p, w);
      SettlesBefore(vs, us, p);
    }
  }

  /** A view in use above or beside the start keeps what is above held back. */
  lemma UndoneOutside<K>(vs: seq<View<K>>, v: nat, t: nat, d: nat)
    requires TreeOk(vs) && v < |vs| && vs[v].done == NotDone && IsTop(Marked(vs, v), v, t)
    requires HasUndone(vs, d) && !Below(vs, d, t)
    ensures HasUndone(Marked(vs, v), d)
  {
    hide TreeOk, Below;
    var x: nat :| x < |vs| && vs[x].done == NotDone && Below(vs, x, d);
    MarkBelow(vs, v, x, d);
    if x == v {
      MarkBelow(vs, v, v, t);
      BelowLinear(vs, v, t, d);
      AboveTop(vs, v, t, d);
    }
  }

  lemma AboveTop<K>(vs: seq<View<K>>, v: nat, t: nat, d: nat)
    requires TreeOk(vs) && v < |vs| && vs[v].done == NotDone && IsTop(Marked(vs, v), v, t) && Below(vs, t, d) && t != d
    ensures HasUndone(Marked(vs, v), d)
  {
    hide TreeOk;
    var y := Up(vs, t).value;
    MarkUp(vs, v);
    MarkBelow(vs, v, v, t);
    MarkBelow(vs, v, y, d);
    BelowOlder(vs, v, t);
    assert Below(vs, t, y) by { assert Below(vs, y, y); }
    BelowTransitive(vs, v, t, y);
    AboveLive(vs, v, y);
    assert Marked(vs, v)[y].done == NotDone;
  }

  lemma {:induction false} BlockedOutside<K>(vs: seq<View<K>>, v: nat, t: nat, w: nat)
    requires TreeOk(vs) && v < |vs| && vs[v].done == NotDone && IsTop(Marked(vs, v), v, t)
    requires BlockedBefore(vs, w) && !Below(vs, w, t)
    ensures BlockedBefore(Marked(vs, v), w)
    decreases w
  {
    hide TreeOk, HasUndone, IsTop;
    MarkUp(vs, v);
    var p := Up(vs, w).value;
    if EarlierUndone(vs, p, w) {
      var d: nat :| d < w && Up(vs, d) == Some(p) && HasUndone(vs, d);
      TopHasNoWaitingParent(vs, v, t, p);
      UndoneOutside(vs, v, t, d);
    } else {
      BlockedOutside(vs, v, t, p);
    }
  }

  lemma TopHasNoWaitingParent<K>(vs: seq<View<K>>, v: nat, t: nat, p: nat)
    requires v < |vs| && IsTop(Marked(vs, v), v, t) && p < |vs| && vs[p].done == ClearStart
    ensures Up(vs, t) != Some(p)
  {
    MarkUp(vs, v);
  }

  /** A view in use below another that is in use is not the one being marked. */
  lemma {:induction false} BlockedInside<K>(vs: seq<View<K>>, v: nat, y: nat, w: nat)
    requires v < |vs| && vs[v].done == NotDone && y < |vs| && vs[y].done == NotDone && !Below(vs, v, y)
    requires w < |vs| && vs[w].done == ClearStart && Below(vs, w, y) && BlockedBefore(vs, w)
    ensures BlockedBefore(Marked(vs, v), w)
    decreases w
  {
    MarkUp(vs, v);
    var p := Up(vs, w).value;
    if EarlierUndone(vs, p, w) {
      var d: nat :| d < w && Up(vs, d) == Some(p) && HasUndone(vs, d);
      assert Below(vs, d, y);
      UndoneInside(vs, v, y, d);
    } else {
      BlockedInside(vs, v, y, p);
    }
  }

  lemma UndoneInside<K>(vs: seq<View<K>>, v: nat, y: nat, d: nat)
    requires v < |vs| && !Below(vs, v, y) && Below(vs, d, y) && HasUndone(vs, d)
    ensures HasUndone(Marked(vs, v), d)
  {
    hide Below;
    var x: nat :| x < |vs| && vs[x].done == NotDone && Below(vs, x, d);
    if x == v { BelowTransitive(vs, v, d, y); }
    MarkBelow(vs, v, x, d);
    assert Marked(vs, v)[x].done == NotDone;
  }

  /** A waiting view that was not cleared is still held back. */
  lemma StillHeld<K>(vs: seq<View<K>>, v: nat, t: nat, w: nat)
    requires TreeOk(vs) && Tidy(vs) && v < |vs| && vs[v].done == NotDone && IsTop(Marked(vs, v), v, t)
    requires w < |vs| && Marked(vs, v)[w].done == ClearStart
    requires Below(vs, w, t) ==> HasUndone(Marked(vs, v), w) || BlockedUnder(Marked(vs, v), t, w)
    ensures HasUndone(Marked(vs, v), w) || BlockedBefore(Marked(vs, v), w)
  {
    hide TreeOk, HasUndone, BlockedBefore, BlockedUnder, Below;
    var us := Marked(vs, v);
    if !Below(vs, w, t) {
      if w == v { MarkBelow(vs, v, v, t); }
      if HasUndone(vs, w) { UndoneOutside(vs, v, t, w); } else { BlockedOutside(vs, v, t, w); }
    } else if y: nat :| y < |us| && Below(us, w, y) && Below(us, y, t) && us[y].done != ClearStart {
      BetweenIsUsed(vs, v, t, w, y);
      if HasUndone(vs, w) { UndoneInside(vs, v, y, w); } else { BlockedInside(vs, v, y, w); }
    } else if !HasUndone(us, w) {
      MarkBelow(vs, v, w, t);
      TopBlocked(us, t, w);
    }
  }

  lemma BetweenIsUsed<K>(vs: seq<View<K>>, v: nat, t: nat, w: nat, y: nat)
    requires TreeOk(vs) && v < |vs| && vs[v].done == NotDone && IsTop(Marked(vs, v), v, t)
    requires w < |vs| && Marked(vs, v)[w].done == ClearStart
    requires y < |vs| && Below(Marked(vs, v), w, y) && Below(Marked(vs, v), y, t) && Marked(vs, v)[y].done != ClearStart
    ensures vs[y].done == NotDone && !Below(vs, v, y) && Below(vs, w, y) && w != v && vs[w].done == ClearStart
  {
    hide TreeOk, Below;
    var us := Marked(vs, v);
    MarkBelow(vs, v, w, y);
    MarkBelow(vs, v, v, y);
    IsLive(vs, w);
    AboveLive(vs, w, y);
  }

  lemma TidyClear<K(!new), V>(vs: seq<View<K>>, v: nat, t: nat, m: Chains<K, V>, us: seq<View<K>>, l: Chains<K, V>, cleared: bool)
    requires TreeOk(vs) && Tidy(vs) && v < |vs| && Live(vs, v) && IsTop(Marked(vs, v), v, t)
    requires Recursed(Marked(vs, v), m, us, l, t, cleared)
    ensures Tidy(us)
  {
    hide TreeOk, HasUndone, BlockedBefore, BlockedUnder, Below, Recursed, IsTop, Marked, Settles, ItemsOk;
    var s1 := Marked(vs, v);
    RecursedFacts(s1, m, us, l, t, cleared);
    MarkedSize(vs, v);
    forall w: nat | w < |us| && us[w].done == ClearStart ensures HasUndone(us, w) || BlockedBefore(us, w) {
      SettledBack(s1, us, w);
      MarkBelow(vs, v, w, t);
      if vs[v].done == NotDone { StillHeld(vs, v, t, w); } else { MarkedAlready(vs, v); }
      SettlesUndone(s1, us, w);
      IsLive(us, w);
      SettlesBefore(s1, us, w);
    }
  }

  lemma MarkedAlready<K>(vs: seq<View<K>>, v: nat)
    requires v < |vs| && Live(vs, v) && vs[v].done != NotDone
    ensures Marked(vs, v) == vs
  {
  }

  lemma MarkedSize<K>(vs: seq<View<K>>, v: nat)
    requires v < |vs|
    ensures |Marked(vs, v)| == |vs|
  {
  }

  lemma SettledBack<K>(vs: seq<View<K>>, us: seq<View<K>>, w: nat)
    requires Settles(vs, us) && w < |us| && us[w].done == ClearStart
    ensures w < |vs| && vs[w].done == ClearStart
  {
    assert SettledView(vs[w], us[w]);
  }

  // ----- The other operations keep the tree tidy -----

  /** `us` has the same views with the same parents, and perhaps more views in use. */
  ghost predicate Grows<K>(vs: seq<View<K>>, us: seq<View<K>>) {
    && |vs| <= |us|
    && (forall w: nat :: w < |vs| ==> us[w].done == vs[w].done && Up(us, w) == Up(vs, w))
    && forall w: nat :: |vs| <= w < |us| ==> us[w].done == NotDone
  }

  lemma {:induction false} GrowsBelow<K>(vs: seq<View<K>>, us: seq<View<K>>, x: nat, w: nat)
    requires Grows(vs, us) && x < |vs| && Below(vs, x, w)
    ensures Below(us, x, w)
  {
    if x != w { GrowsBelow(vs, us, Up(vs, x).value, w); }
  }

  lemma GrowsUndone<K>(vs: seq<View<K>>, us: seq<View<K>>, w: nat)
    requires Grows(vs, us) && HasUndone(vs, w)
    ensures HasUndone(us, w)
  {
    var x: nat :| x < |vs| && vs[x].done == NotDone && Below(vs, x, w);
    GrowsBelow(vs, us, x, w);
  }

  lemma {:induction false} GrowsBlocked<K>(vs: seq<View<K>>, us: seq<View<K>>, w: nat)
    requires Grows(vs, us) && w < |vs| && BlockedBefore(vs, w)
    ensures BlockedBefore(us, w)
  {
    hide HasUndone;
    var p := Up(vs, w).value;
    if EarlierUndone(vs, p, w) {
      var d: nat :| d < w && Up(vs, d) == Some(p) && HasUndone(vs, d);
      GrowsUndone(vs, us, d);
    } else {
      GrowsBlocked(vs, us, p);
    }
  }

  lemma TidyGrows<K>(vs: seq<View<K>>, us: seq<View<K>>)
    requires Grows(vs, us) && Tidy(vs)
    ensures Tidy(us)
  {
    hide HasUndone, BlockedBefore;
    forall w: nat | w < |us| && us[w].done == ClearStart ensures HasUndone(us, w) || BlockedBefore(us, w) {
      if HasUndone(vs, w) { GrowsUndone(vs, us, w); } else { GrowsBlocked(vs, us, w); }
    }
  }

  lemma WriteGrows<K>(vs: seq<View<K>>, us: seq<View<K>>)
    requires SameTree(vs, us)
    ensures Grows(vs, us)
  {
  }

  lemma CopyGrows<K>(vs: seq<View<K>>, us: seq<View<K>>, v: nat)
    requires Copied(vs, us, v)
    ensures Grows(vs, us)
  {
  }

  lemma KeepUndone<K>(vs: seq<View<K>>, us: seq<View<K>>, v: nat, w: nat)
    requires TreeOk(vs) && Released(vs, us, v) && vs[v].parent.None? && vs[v].done == NotDone && w != v && HasUndone(vs, w)
    ensures HasUndone(us, w)
  {
    hide TreeOk, Released, Path;
    var x: nat :| x < |vs| && vs[x].done == NotDone && Below(vs, x, w);
    IsLive(vs, x);
    ReleasedPath(vs, us, v, x);
    ReleasedDone(vs, us, v, x);
  }

  lemma ReleasedDone<K>(vs: seq<View<K>>, us: seq<View<K>>, v: nat, w: nat)
    requires Released(vs, us, v) && w < |vs|
    ensures |us| == |vs| && us[w].done == if w == v then KeepDone else vs[w].done
  {
    hide Below;
    if w != v { assert us[w] == ReleasedView(vs, w, v); }
  }

  lemma {:induction false} KeepBlocked<K>(vs: seq<View<K>>, us: seq<View<K>>, v: nat, w: nat)
    requires TreeOk(vs) && Released(vs, us, v) && vs[v].parent.None? && vs[v].done == NotDone
    requires Live(vs, w) && w != v && BlockedBefore(vs, w)
    ensures BlockedBefore(us, w)
    decreases w
  {
    hide TreeOk, Released, Path, HasUndone, Below;
    var p := Up(vs, w).value;
    ReleasedPath(vs, us, v, w);
    ReleasedDone(vs, us, v, p);
    if EarlierUndone(vs, p, w) {
      var d: nat :| d < w && Up(vs, d) == Some(p) && HasUndone(vs, d);
      UndoneLive(vs, d);
      ReleasedPath(vs, us, v, d);
      KeepUndone(vs, us, v, d);
    } else {
      KeepBlocked(vs, us, v, p);
    }
  }

  lemma UndoneLive<K>(vs: seq<View<K>>, d: nat)
    requires TreeOk(vs) && HasUndone(vs, d)
    ensures Live(vs, d)
  {
    hide TreeOk;
    var x: nat :| x < |vs| && vs[x].done == NotDone && Below(vs, x, d);
    AboveLive(vs, x, d);
  }

  lemma TidyKeep<K>(vs: seq<View<K>>, us: seq<View<K>>, v: nat)
    requires TreeOk(vs) && Tidy(vs) && v < |vs| && Released(vs, us, v) && vs[v].parent.None? && vs[v].done == NotDone
    ensures Tidy(us)
  {
    hide TreeOk, Released, HasUndone, BlockedBefore;
    ReleasedDone(vs, us, v, v);
    forall w: nat | w < |us| && us[w].done == ClearStart ensures HasUndone(us, w) || BlockedBefore(us, w) {
      ReleasedDone(vs, us, v, w);
      if HasUndone(vs, w) { KeepUndone(vs, us, v, w); } else { KeepBlocked(vs, us, v, w); }
    }
  }
}
