/** Short runs that show where a view stops reading as its own map, or where versions stay behind. */
module CopyWriteLimits {
  import opened Events
  import opened VersionChains
  import opened ViewTree
  import opened ViewClearing
  import opened ClearingOrder
  import opened CopyWriteMap

  /** Keeping a view that deleted a committed key brings the key back for the views copied from it. */
  method TombstoneIsLost<K(==,!new), V>(k: K, x: V) returns (st: Store<K, V>, d: nat)
    ensures st.Valid() && d < |st.views| && st.views[d].done == NotDone
    ensures k !in st.model[d] && st.Reads(d, k) == Some(x)
  {
    hide TreeOk, ItemsOk, Tidy, Look, Find, Base, ChainOf, Shadowed, Unmoved, Written, Stored, BaseAfter;
    var c;
    st, c := OneCommitted(k, x);
    ghost var vs, m := st.views, st.theMap;
    st.Delete(c, k);
    WrittenView(vs, m, st.views, st.theMap, c, k, Tombstone);
    WrittenFinds(vs, m, st.views, st.theMap, c, k, Tombstone);
    d := st.Copy(c);
    Unwritten(st.views, st.theMap, d, k);
    OnlyRootWrote(st.views, st.theMap, d, c, k);
    st.DoneKeep(c);
  }

  /** A store whose first view committed `k`, and a fresh copy of it. */
  method OneCommitted<K(==,!new), V>(k: K, x: V) returns (st: Store<K, V>, c: nat)
    ensures fresh(st) && st.Valid() && c == 1 && |st.views| == 2
    ensures st.views[c] == View(NotDone, false, [], None, [], [c]) && st.views[0].done == KeepDone
    ensures Base(ChainOf(st.theMap, k)) == Some(x)
  {
    hide TreeOk, ItemsOk, Tidy, Look, Find, Base, ChainOf, Shadowed, Unmoved, Written, Stored;
    st := new Store();
    ghost var vs, m := st.views, st.theMap;
    st.Write(0, k, x);
    WrittenView(vs, m, st.views, st.theMap, 0, k, Put(x));
    WrittenFinds(vs, m, st.views, st.theMap, 0, k, Put(x));
    st.DoneKeep(0);
    st.ViewIds(0);
    c := st.Copy(0);
  }

  lemma WrittenView<K, V>(vs: seq<View<K>>, m: Chains<K, V>, us: seq<View<K>>, l: Chains<K, V>, v: nat, k: K, e: Entry<V>)
    requires Written(vs, m, us, l, v, k, e)
    ensures |us| == |vs| && us[v] == vs[v].(myItems := us[v].myItems) && forall u: nat :: u < |vs| && u != v ==> us[u] == vs[u]
  {
  }

  lemma Unwritten<K(!new), V>(vs: seq<View<K>>, m: Chains<K, V>, v: nat, k: K)
    requires ItemsOk(vs, m) && v < |vs| && vs[v].myItems == []
    ensures Find(ChainOf(m, k), v).None?
  {
    hide Find, ChainOf;
  }

  lemma OnlyRootWrote<K, V>(vs: seq<View<K>>, m: Chains<K, V>, u: nat, v: nat, k: K)
    requires u < |vs| && v < u && vs[u].parent == Some(v) && vs[v].parent.None? && Find(ChainOf(m, k), u).None?
    ensures !Shadowed(vs, m, u, v, k)
    ensures Find(ChainOf(m, k), v) == Some(Tombstone) ==> BaseAfter(m, v, k) == Base(ChainOf(m, k))
  {
    hide Find, Base, ChainOf;
    ShadowedStep(vs, m, u, v, k);
  }

  /** What one copy of a kept view commits shows up in the other copies. */
  method SiblingSeesCommit<K(==,!new), V>(k: K, x: V) returns (st: Store<K, V>, b: nat)
    ensures st.Valid() && b < |st.views| && st.views[b].done == NotDone
    ensures k !in st.model[b] && st.Reads(b, k) == Some(x)
  {
    hide TreeOk, ItemsOk, Tidy, Look, Find, Base, ChainOf, Shadowed, Unmoved, Written, Stored, BaseAfter;
    st := new Store();
    NothingYet(st.theMap, k);
    st.DoneKeep(0);
    var a := st.Copy(0);
    b := st.Copy(0);
    ghost var vs, m := st.views, st.theMap;
    Unwritten(vs, m, b, k);
    st.Write(a, k, x);
    WrittenView(vs, m, st.views, st.theMap, a, k, Put(x));
    WrittenFinds(vs, m, st.views, st.theMap, a, k, Put(x));
    NeverWrote(st.views, st.theMap, b, a, k, x);
    st.DoneKeep(a);
  }

  lemma NothingYet<K, V>(m: Chains<K, V>, k: K)
    requires m == map[]
    ensures BaseAfter(m, 0, k) == None
  {
  }

  lemma NeverWrote<K, V>(vs: seq<View<K>>, m: Chains<K, V>, u: nat, v: nat, k: K, x: V)
    requires u < |vs| && vs[u].parent.None? && u != v && Find(ChainOf(m, k), u).None? && Find(ChainOf(m, k), v) == Some(Put(x))
    ensures !Shadowed(vs, m, u, v, k) && BaseAfter(m, v, k) == Some(x)
  {
    hide Find, Base, ChainOf;
    ShadowedStep(vs, m, u, v, k);
  }

  /** A kept view cannot read a key that only its copies have written. */
  method KeptViewPanics<K(==,!new), V>(k: K, x: V) returns (st: Store<K, V>, r: ReadResult<V>)
    ensures st.Valid() && |st.views| > 0 && st.views[0].done == KeepDone && r == IndexPanic
  {
    hide TreeOk, ItemsOk, Tidy, Look, Find, Base, ChainOf, Shadowed, Unmoved, Written, Stored, BaseAfter;
    st := new Store();
    NothingYet(st.theMap, k);
    st.DoneKeep(0);
    var a := st.Copy(0);
    ghost var vs, m := st.views, st.theMap;
    st.Write(a, k, x);
    WrittenView(vs, m, st.views, st.theMap, a, k, Put(x));
    WrittenFinds(vs, m, st.views, st.theMap, a, k, Put(x));
    HeadNotCommitted(st.theMap, a, k);
    r := st.Read(0, k);
  }

  lemma HeadNotCommitted<K, V>(m: Chains<K, V>, v: nat, k: K)
    requires ChainOk(ChainOf(m, k)) && Base(ChainOf(m, k)) == None && Find(ChainOf(m, k), v).Some?
    ensures ChainOf(m, k) != [] && ChainOf(m, k)[0].id != COMMITTED
  {
    CommittedFirst(ChainOf(m, k));
  }

  /** The view `s` has called DoneClear and has no views below it, but an older copy of the same
      waiting parent is in use: the version `s` wrote stays in its chain. */
  method ClearIsHeldBack<K(==,!new), V>(k: K, x: V) returns (st: Store<K, V>, s: nat)
    ensures st.Valid() && s < |st.views| && st.views[s].done == ClearStart
    ensures (forall u: nat :: u < |st.views| && Below(st.views, u, s) ==> st.views[u].done != NotDone)
    ensures Find(ChainOf(st.theMap, k), s).Some?
  {
    hide TreeOk, ItemsOk, Tidy, Look, Find, Base, ChainOf, Written, Stored, HasUndone, BlockedBefore, Below;
    st := new Store();
    var a := st.Copy(0);
    s := st.Copy(0);
    ghost var vs, m := st.views, st.theMap;
    st.Write(s, k, x);
    WrittenView(vs, m, st.views, st.theMap, s, k, Put(x));
    assert k in st.views[s].myItems by { WroteIt(vs, m, st.views, st.theMap, s, k, Put(x)); }
    TwoCopies(Marked(st.views, 0));
    vs := st.views;
    st.DoneClear(0);
    Kin(Marked(vs, 0), st.views);
    vs := st.views;
    TwoCopies(Marked(vs, s));
    st.DoneClear(s);
    Kin(Marked(vs, s), st.views);
    StillThere(st.views, st.theMap, s, k);
  }

  ghost predicate Family<K>(vs: seq<View<K>>) {
    |vs| == 3 && vs[0].parent.None? && vs[1].parent == Some(0) && vs[2].parent == Some(0) && vs[1].done == NotDone
  }

  lemma TwoCopies<K>(vs: seq<View<K>>)
    requires Family(vs)
    ensures HasUndone(vs, 0) && (vs[0].done == ClearStart ==> BlockedBefore(vs, 2))
    ensures forall u: nat :: u < |vs| && Below(vs, u, 2) ==> u == 2
  {
    assert Below(vs, 1, 1) && Below(vs, 0, 0) && Below(vs, 1, 0);
    assert HasUndone(vs, 1);
    assert EarlierUndone(vs, 0, 2);
  }

  lemma Kin<K>(vs: seq<View<K>>, us: seq<View<K>>)
    requires Settles(vs, us) && Family(vs)
    ensures Family(us) && us[2].myItems == vs[2].myItems
    ensures forall u: nat :: u < |us| && Below(us, u, 2) ==> u == 2
    ensures forall u: nat :: u < |us| && us[u].done != ClearFinish ==> us[u].done == vs[u].done
  {
    assert SettledView(vs[0], us[0]) && SettledView(vs[1], us[1]) && SettledView(vs[2], us[2]);
  }

  lemma StillThere<K(!new), V>(vs: seq<View<K>>, m: Chains<K, V>, v: nat, k: K)
    requires ItemsOk(vs, m) && Live(vs, v) && k in vs[v].myItems
    ensures Find(ChainOf(m, k), v).Some?
  {
    hide Find, ChainOf;
  }

  lemma WroteIt<K, V>(vs: seq<View<K>>, m: Chains<K, V>, us: seq<View<K>>, l: Chains<K, V>, v: nat, k: K, e: Entry<V>)
    requires Written(vs, m, us, l, v, k, e)
    ensures k in us[v].myItems
  {
  }
}
