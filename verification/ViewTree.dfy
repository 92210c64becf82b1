/** The tree of views over one shared map, and what each view reads. */
module ViewTree {
  import opened Events
  import opened VersionChains

  datatype Done = NotDone | KeepDone | ClearStart | ClearFinish

  /** Views are numbered in the order they were made; the number of a view is also its id. */
  datatype View<K> = View(
    done: Done, copied: bool, dependents: seq<Option<nat>>, parent: Option<nat>, myItems: seq<K>, myIDs: seq<nat>)

  type Chains<K, V> = map<K, seq<Item<V>>>

  function ChainOf<K, V>(m: Chains<K, V>, k: K): seq<Item<V>> {
    if k in m then m[k] else []
  }

  ghost function Up<K>(vs: seq<View<K>>, v: nat): Option<nat> {
    if v < |vs| && vs[v].parent.Some? && vs[v].parent.value < v then vs[v].parent else None
  }

  /** `v` and its ancestors, youngest first. */
  ghost function Path<K>(vs: seq<View<K>>, v: nat): seq<nat> {
    [v] + if Up(vs, v).Some? then Path(vs, Up(vs, v).value) else []
  }

  /** `x` is `v` or was copied, over some steps, from `v`. */
  ghost predicate Below<K>(vs: seq<View<K>>, x: nat, v: nat) {
    x == v || (Up(vs, x).Some? && Below(vs, Up(vs, x).value, v))
  }

  ghost predicate Live<K>(vs: seq<View<K>>, v: nat) {
    v < |vs| && (vs[v].done == NotDone || vs[v].done == ClearStart)
  }

  /** What view `v` reads for `k`: its own write, else what its parent reads, else the committed value. */
  ghost function Look<K, V>(vs: seq<View<K>>, m: Chains<K, V>, v: nat, k: K): Option<V> {
    var own := Find(ChainOf(m, k), v);
    if own.Some? then ValueOf(own.value)
    else if Up(vs, v).Some? then Look(vs, m, Up(vs, v).value, k)
    else Base(ChainOf(m, k))
  }

  // ----- Invariants -----

  ghost predicate ViewOk<K>(vs: seq<View<K>>, v: nat)
    requires v < |vs|
  {
    ParentOk(vs, v) && IdsOk(vs, v) && DependentsOk(vs, v)
  }

  ghost predicate ParentOk<K>(vs: seq<View<K>>, v: nat)
    requires v < |vs|
  {
    && (vs[v].parent.Some? ==> vs[v].parent.value < v && vs[vs[v].parent.value].copied)
    && (Live(vs, v) && vs[v].parent.Some? ==> Live(vs, vs[v].parent.value) && Some(v) in vs[vs[v].parent.value].dependents)
    && (vs[v].done == KeepDone ==> vs[v].parent.None?)
  }

  ghost predicate IdsOk<K>(vs: seq<View<K>>, v: nat)
    requires v < |vs|
  {
    (Live(vs, v) ==> vs[v].myIDs == Path(vs, v)) && (vs[v].done == KeepDone ==> vs[v].myIDs == [])
  }

  ghost predicate DependentsOk<K>(vs: seq<View<K>>, v: nat)
    requires v < |vs|
  {
    && (forall c: nat :: Some(c) in vs[v].dependents ==> Live(vs, c) && vs[c].parent == Some(v))
    && Rising(vs[v].dependents)
  }

  ghost predicate Rising(ds: seq<Option<nat>>) {
    forall i, j :: 0 <= i < j < |ds| && ds[i].Some? && ds[j].Some? ==> ds[i].value < ds[j].value
  }

  ghost predicate TreeOk<K>(vs: seq<View<K>>) {
    forall v: nat :: v < |vs| ==> ViewOk(vs, v)
  }

  /** A version is in a chain exactly when its view is live and lists the key. */
  ghost predicate ItemsOk<K(!new), V>(vs: seq<View<K>>, m: Chains<K, V>) {
    && (forall k :: ChainOk(ChainOf(m, k)))
    && (forall v: nat, k :: Find(ChainOf(m, k), v).Some? <==> v < |vs| && Live(vs, v) && k in vs[v].myItems)
    && forall v: nat, i, j :: v < |vs| && Live(vs, v) && 0 <= i < j < |vs[v].myItems| ==> vs[v].myItems[i] != vs[v].myItems[j]
  }

  // ----- Paths -----

  lemma {:induction false} PathMembers<K>(vs: seq<View<K>>, v: nat, w: nat)
    ensures w in Path(vs, v) <==> Below(vs, v, w)
    ensures w in Path(vs, v) ==> w <= v
  {
    if Up(vs, v).Some? { PathMembers(vs, Up(vs, v).value, w); }
  }

  lemma {:induction false} PathFalls<K>(vs: seq<View<K>>, v: nat)
    ensures forall i, j :: 0 <= i < j < |Path(vs, v)| ==> Path(vs, v)[i] > Path(vs, v)[j]
  {
    if Up(vs, v).Some? {
      var p := Up(vs, v).value;
      PathFalls(vs, p);
      forall w | w in Path(vs, p) ensures w < v { PathMembers(vs, p, w); }
      var q, t := Path(vs, v), Path(vs, p);
      forall i, j | 0 <= i < j < |q| ensures q[i] > q[j] {
        assert q[j] == t[j - 1] && t[j - 1] in t;
        assert i > 0 ==> q[i] == t[i - 1];
      }
    }
  }

  /** The reading rule of the program, the largest id of the view's ids, is the reading rule of the tree. */
  lemma {:induction false} LookResolves<K, V>(vs: seq<View<K>>, m: Chains<K, V>, v: nat, k: K)
    ensures Look(vs, m, v, k) == Resolve(Path(vs, v), ChainOf(m, k))
  {
    if Up(vs, v).Some? {
      LookResolves(vs, m, Up(vs, v).value, k);
      assert Path(vs, v)[1..] == Path(vs, Up(vs, v).value);
    } else {
      assert Path(vs, v)[1..] == [];
    }
  }

  /** A view reads the same when nothing changed along its path. */
  lemma {:induction false} LookSame<K, V>(vs: seq<View<K>>, m: Chains<K, V>, us: seq<View<K>>, l: Chains<K, V>, v: nat, k: K)
    requires forall w: nat :: Below(vs, v, w) ==> Up(us, w) == Up(vs, w) && Find(ChainOf(l, k), w) == Find(ChainOf(m, k), w)
    requires Base(ChainOf(l, k)) == Base(ChainOf(m, k))
    ensures Look(us, l, v, k) == Look(vs, m, v, k)
  {
    assert Below(vs, v, v);
    if Up(vs, v).Some? {
      LookSame(vs, m, us, l, Up(vs, v).value, k);
    }
  }

  lemma {:induction false} PathSame<K>(vs: seq<View<K>>, us: seq<View<K>>, v: nat)
    requires forall w: nat :: Below(vs, v, w) ==> Up(us, w) == Up(vs, w)
    ensures Path(us, v) == Path(vs, v)
  {
    assert Below(vs, v, v);
    if Up(vs, v).Some? { PathSame(vs, us, Up(vs, v).value); }
  }

  lemma {:induction false} BelowSame<K>(vs: seq<View<K>>, us: seq<View<K>>, x: nat, v: nat)
    requires forall w: nat :: Below(vs, x, w) ==> Up(us, w) == Up(vs, w)
    ensures Below(us, x, v) <==> Below(vs, x, v)
  {
    assert Below(vs, x, x);
    if Up(vs, x).Some? { BelowSame(vs, us, Up(vs, x).value, v); }
  }

  lemma {:induction false} BelowTransitive<K>(vs: seq<View<K>>, x: nat, y: nat, z: nat)
    requires Below(vs, x, y) && Below(vs, y, z)
    ensures Below(vs, x, z)
  {
    if x != y { BelowTransitive(vs, Up(vs, x).value, y, z); }
  }

  /** Ancestors of one view are in one line. */
  lemma {:induction false} BelowLinear<K>(vs: seq<View<K>>, x: nat, y: nat, z: nat)
    requires Below(vs, x, y) && Below(vs, x, z)
    ensures Below(vs, y, z) || Below(vs, z, y)
  {
    if x != y && x != z { BelowLinear(vs, Up(vs, x).value, y, z); }
  }

  lemma {:induction false} BelowOlder<K>(vs: seq<View<K>>, x: nat, y: nat)
    requires Below(vs, x, y)
    ensures y <= x
  {
    if x != y { BelowOlder(vs, Up(vs, x).value, y); }
  }

  /** The parents of a live view are live. */
  lemma {:induction false} AboveLive<K>(vs: seq<View<K>>, x: nat, y: nat)
    requires TreeOk(vs) && Live(vs, x) && Below(vs, x, y)
    ensures Live(vs, y)
  {
    if x != y {
      assert ViewOk(vs, x);
      AboveLive(vs, Up(vs, x).value, y);
    }
  }

  /** A view that was never copied has nothing below it. */
  lemma {:induction false} UncopiedIsLeaf<K>(vs: seq<View<K>>, x: nat, v: nat)
    requires TreeOk(vs) && v < |vs| && !vs[v].copied && Below(vs, x, v)
    ensures x == v
  {
    if x != v {
      assert ViewOk(vs, x);
      UncopiedIsLeaf(vs, Up(vs, x).value, v);
    }
  }

  // ----- Writing -----

  function Listed<K(==)>(items: seq<K>, k: K): seq<K> {
    if k in items then items else items + [k]
  }

  /** Only the lists of written keys differ. */
  ghost predicate SameTree<K>(vs: seq<View<K>>, us: seq<View<K>>) {
    |us| == |vs| && forall v: nat :: v < |vs| ==> us[v] == vs[v].(myItems := us[v].myItems)
  }

  lemma SameTreeOk<K>(vs: seq<View<K>>, us: seq<View<K>>)
    requires TreeOk(vs) && SameTree(vs, us)
    ensures TreeOk(us) && forall v: nat :: Live(us, v) <==> Live(vs, v)
    ensures forall v: nat :: Up(us, v) == Up(vs, v)
  {
    hide Path, Rising;
    forall v: nat | v < |vs| ensures ViewOk(us, v) {
      assert ViewOk(vs, v);
      PathSame(vs, us, v);
    }
  }

  ghost predicate Written<K, V>(vs: seq<View<K>>, m: Chains<K, V>, us: seq<View<K>>, l: Chains<K, V>, v: nat, k: K, e: Entry<V>)
  {
    && v < |vs| && us == vs[v := vs[v].(myItems := Listed(vs[v].myItems, k))]
    && l == m[k := Stored(ChainOf(m, k), v, e)]
  }

  /** A write is seen by its view alone. */
  lemma WriteStep<K(!new), V>(vs: seq<View<K>>, m: Chains<K, V>, us: seq<View<K>>, l: Chains<K, V>, v: nat, k: K, e: Entry<V>)
    requires TreeOk(vs) && ItemsOk(vs, m) && Written(vs, m, us, l, v, k, e) && v < |vs| && Live(vs, v) && !vs[v].copied
    ensures TreeOk(us) && ItemsOk(us, l)
    ensures forall u: nat :: Live(us, u) <==> Live(vs, u)
    ensures forall u: nat, q :: Look(us, l, u, q) == if u == v && q == k then ValueOf(e) else Look(vs, m, u, q)
  {
    hide *;
    WrittenFinds(vs, m, us, l, v, k, e);
    SameTreeOk(vs, us);
    WrittenItems(vs, m, us, l, v, k, e);
    forall u: nat, q ensures Look(us, l, u, q) == if u == v && q == k then ValueOf(e) else Look(vs, m, u, q) {
      if u == v && q == k {
        OwnWrite(us, l, v, k, e);
      } else {
        if q == k && Below(vs, u, v) { UncopiedIsLeaf(vs, u, v); }
        LookSame(vs, m, us, l, u, q);
      }
    }
  }

  lemma OwnWrite<K, V>(vs: seq<View<K>>, m: Chains<K, V>, v: nat, k: K, e: Entry<V>)
    requires Find(ChainOf(m, k), v) == Some(e)
    ensures Look(vs, m, v, k) == ValueOf(e)
  {
  }

  lemma WrittenFinds<K(!new), V>(vs: seq<View<K>>, m: Chains<K, V>, us: seq<View<K>>, l: Chains<K, V>, v: nat, k: K, e: Entry<V>)
    requires ItemsOk(vs, m) && Written(vs, m, us, l, v, k, e)
    ensures SameTree(vs, us)
    ensures forall q :: ChainOk(ChainOf(l, q)) && Base(ChainOf(l, q)) == Base(ChainOf(m, q))
    ensures forall w: nat, q :: Find(ChainOf(l, q), w) == if w == v && q == k then Some(e) else Find(ChainOf(m, q), w)
  {
    hide ChainOk, Stored, Find, Live;
    var c := ChainOf(m, k);
    assert ChainOk(c);
    StoredOk(c, v, e);
    StoredFind(c, v, e, COMMITTED);
    assert Base(Stored(c, v, e)) == Base(c);
    forall w: nat ensures Find(Stored(c, v, e), w) == if w == v then Some(e) else Find(c, w) {
      StoredFind(c, v, e, w);
    }
    assert forall q :: q != k ==> ChainOf(l, q) == ChainOf(m, q);
    assert ChainOf(l, k) == Stored(c, v, e);
  }

  lemma WrittenItems<K(!new), V>(vs: seq<View<K>>, m: Chains<K, V>, us: seq<View<K>>, l: Chains<K, V>, v: nat, k: K, e: Entry<V>)
    requires ItemsOk(vs, m) && Written(vs, m, us, l, v, k, e) && Live(vs, v)
    requires forall u: nat :: Live(us, u) <==> Live(vs, u)
    requires forall q :: ChainOk(ChainOf(l, q))
    requires forall w: nat, q :: Find(ChainOf(l, q), w) == if w == v && q == k then Some(e) else Find(ChainOf(m, q), w)
    ensures ItemsOk(us, l)
  {
    hide ChainOk, Stored, Find, Live, ChainOf;
    forall w: nat, q ensures Find(ChainOf(l, q), w).Some? <==> w < |us| && Live(us, w) && q in us[w].myItems {
      assert Find(ChainOf(m, q), w).Some? <==> w < |vs| && Live(vs, w) && q in vs[w].myItems;
    }
  }

  // ----- Copying -----

  /** `us` is `vs` after `v` was copied. */
  ghost predicate Copied<K>(vs: seq<View<K>>, us: seq<View<K>>, v: nat) {
    && v < |vs| && |us| == |vs| + 1
    && (forall w: nat :: w < |vs| && w != v ==> us[w] == vs[w])
    && us[v] == vs[v].(copied := true, dependents := us[v].dependents)
    && us[v].dependents == vs[v].dependents + (if vs[v].done == NotDone then [Some(|vs|)] else [])
    && us[|vs|] == View(NotDone, false, [], if vs[v].done == NotDone then Some(v) else None, [], [|vs|] + vs[v].myIDs)
  }

  /** The copy reads what the copied view reads; nothing else changes. */
  lemma CopyStep<K(!new), V>(vs: seq<View<K>>, m: Chains<K, V>, us: seq<View<K>>, v: nat)
    requires TreeOk(vs) && ItemsOk(vs, m) && Copied(vs, us, v) && vs[v].done in {NotDone, KeepDone}
    ensures TreeOk(us) && ItemsOk(us, m)
    ensures forall u: nat :: u < |vs| ==> (Live(us, u) <==> Live(vs, u))
    ensures forall u: nat, k :: u < |vs| ==> Look(us, m, u, k) == Look(vs, m, u, k)
    ensures forall k :: Look(us, m, |vs|, k) == if vs[v].done == NotDone then Look(vs, m, v, k) else Base(ChainOf(m, k))
  {
    hide Path, ViewOk, Look, TreeOk;
    CopyKeepsPaths(vs, us, v);
    CopyTree(vs, us, v);
    CopyItems(vs, m, us, v);
    forall u: nat, k | u < |vs| ensures Look(us, m, u, k) == Look(vs, m, u, k) {
      LookCopied(vs, m, us, v, u, k);
    }
    forall k ensures Look(us, m, |vs|, k) == if vs[v].done == NotDone then Look(vs, m, v, k) else Base(ChainOf(m, k)) {
      assert Find(ChainOf(m, k), |vs|).None?;
      LookNew(us, m, |vs|, k);
    }
  }

  lemma LookNew<K, V>(vs: seq<View<K>>, m: Chains<K, V>, v: nat, k: K)
    requires Find(ChainOf(m, k), v).None?
    ensures Look(vs, m, v, k) == if Up(vs, v).Some? then Look(vs, m, Up(vs, v).value, k) else Base(ChainOf(m, k))
  {
  }

  lemma CopyKeepsPaths<K>(vs: seq<View<K>>, us: seq<View<K>>, v: nat)
    requires Copied(vs, us, v)
    ensures forall u: nat :: u < |vs| ==> Up(us, u) == Up(vs, u) && Path(us, u) == Path(vs, u)
  {
    hide Path;
    forall u: nat | u < |vs| ensures Path(us, u) == Path(vs, u) {
      forall w: nat | Below(vs, u, w) ensures Up(us, w) == Up(vs, w) { BelowOlder(vs, u, w); }
      PathSame(vs, us, u);
    }
  }

  lemma LookCopied<K, V>(vs: seq<View<K>>, m: Chains<K, V>, us: seq<View<K>>, v: nat, u: nat, k: K)
    requires Copied(vs, us, v) && u < |vs|
    ensures Look(us, m, u, k) == Look(vs, m, u, k)
  {
    hide Look;
    forall w: nat | Below(vs, u, w) ensures Up(us, w) == Up(vs, w) { BelowOlder(vs, u, w); }
    LookSame(vs, m, us, m, u, k);
  }

  lemma CopyTree<K>(vs: seq<View<K>>, us: seq<View<K>>, v: nat)
    requires TreeOk(vs) && Copied(vs, us, v) && vs[v].done in {NotDone, KeepDone}
    requires forall u: nat :: u < |vs| ==> Path(us, u) == Path(vs, u)
    ensures TreeOk(us)
  {
    hide Path, ParentOk, IdsOk, DependentsOk, Copied;
    CopiedSize(vs, us, v);
    forall u: nat | u < |us| ensures ViewOk(us, u) {
      if u < |vs| {
        assert ViewOk(vs, u);
        CopyParents(vs, us, v, u);
        CopyIds(vs, us, v, u);
        CopyDependents(vs, us, v, u);
      } else {
        assert ViewOk(vs, v);
        CopyIsOk(vs, us, v);
      }
    }
  }

  lemma CopiedSize<K>(vs: seq<View<K>>, us: seq<View<K>>, v: nat)
    requires Copied(vs, us, v)
    ensures |us| == |vs| + 1 && v < |vs|
  {
  }

  lemma CopyIsOk<K>(vs: seq<View<K>>, us: seq<View<K>>, v: nat)
    requires Copied(vs, us, v) && IdsOk(vs, v) && vs[v].done in {NotDone, KeepDone} && Path(us, v) == Path(vs, v)
    ensures ViewOk(us, |vs|)
  {
    hide Path;
    NewPath(vs, us, v);
    assert vs[v].done == NotDone ==> us[v].dependents[|vs[v].dependents|] == Some(|vs|);
  }

  lemma CopyParents<K>(vs: seq<View<K>>, us: seq<View<K>>, v: nat, u: nat)
    requires Copied(vs, us, v) && u < |vs| && ParentOk(vs, u)
    ensures ParentOk(us, u)
  {
  }

  lemma CopyIds<K>(vs: seq<View<K>>, us: seq<View<K>>, v: nat, u: nat)
    requires Copied(vs, us, v) && u < |vs| && IdsOk(vs, u) && Path(us, u) == Path(vs, u)
    ensures IdsOk(us, u)
  {
    hide Path;
  }

  lemma CopyDependents<K>(vs: seq<View<K>>, us: seq<View<K>>, v: nat, u: nat)
    requires Copied(vs, us, v) && u < |vs| && DependentsOk(vs, u) && vs[v].done in {NotDone, KeepDone}
    ensures DependentsOk(us, u)
  {
    hide Rising;
    if u == v { RisingMore(vs[v].dependents, us[v].dependents, |vs|); }
  }

  lemma NewPath<K>(vs: seq<View<K>>, us: seq<View<K>>, v: nat)
    requires Copied(vs, us, v) && IdsOk(vs, v) && vs[v].done in {NotDone, KeepDone} && Path(us, v) == Path(vs, v)
    ensures us[|vs|].myIDs == Path(us, |vs|)
  {
  }

  lemma RisingMore(ds: seq<Option<nat>>, es: seq<Option<nat>>, c: nat)
    requires Rising(ds) && (es == ds || es == ds + [Some(c)]) && forall d: nat :: Some(d) in ds ==> d < c
    ensures Rising(es)
  {
    forall i, j | 0 <= i < j < |es| && es[i].Some? && es[j].Some? ensures es[i].value < es[j].value {
      assert Some(es[i].value) in ds;
    }
  }

  lemma CopyItems<K(!new), V>(vs: seq<View<K>>, m: Chains<K, V>, us: seq<View<K>>, v: nat)
    requires ItemsOk(vs, m) && Copied(vs, us, v)
    ensures ItemsOk(us, m)
  {
    hide ChainOk, Find, ChainOf;
    forall w: nat, q ensures Find(ChainOf(m, q), w).Some? <==> w < |us| && Live(us, w) && q in us[w].myItems {
      assert Find(ChainOf(m, q), w).Some? <==> w < |vs| && Live(vs, w) && q in vs[w].myItems;
    }
  }

  // ----- Committing a view -----

  /** Below `v`, a view older than the reader but younger than `v` wrote `k`; elsewhere any view on
      the reader's path did. */
  ghost predicate Shadowed<K, V>(vs: seq<View<K>>, m: Chains<K, V>, u: nat, v: nat, k: K) {
    exists w: nat :: w != v && Below(vs, u, w) && Find(ChainOf(m, k), w).Some?
  }

  /** What `u` gets for `k` when no view on its path but perhaps the root `v` wrote it. */
  ghost function Inherited<K, V>(vs: seq<View<K>>, m: Chains<K, V>, u: nat, v: nat, k: K): Option<V> {
    if Below(vs, u, v) && Find(ChainOf(m, k), v).Some? then ValueOf(Find(ChainOf(m, k), v).value) else Base(ChainOf(m, k))
  }

  /** The value committed for `k` once `v` is kept: a tombstone of `v` changes nothing. */
  ghost function BaseAfter<K, V>(m: Chains<K, V>, v: nat, k: K): Option<V> {
    var e := Find(ChainOf(m, k), v);
    if e.Some? && e.value.Put? then Some(e.value.value) else Base(ChainOf(m, k))
  }

  /** Keeping `v` does not change what `u` reads for `k`. */
  ghost predicate Unmoved<K, V>(vs: seq<View<K>>, m: Chains<K, V>, u: nat, v: nat, k: K) {
    || Shadowed(vs, m, u, v, k)
    || match Find(ChainOf(m, k), v)
       case None => true
       case Some(Tombstone) => !Below(vs, u, v) || Base(ChainOf(m, k)).None?
       case Some(Put(x)) => Below(vs, u, v) || Base(ChainOf(m, k)) == Some(x)
  }

  /** `us` is `vs` after `v`, which has no parent, was kept: it is a leaf without ids, and its id is
      gone from every live view below it. */
  ghost predicate Released<K>(vs: seq<View<K>>, us: seq<View<K>>, v: nat) {
    && v < |vs| && |us| == |vs|
    && us[v] == vs[v].(done := KeepDone, myIDs := [], dependents := us[v].dependents)
    && (forall c: nat :: Some(c) !in us[v].dependents)
    && forall w: nat :: w < |vs| && w != v ==> us[w] == ReleasedView(vs, w, v)
  }

  ghost function ReleasedView<K>(vs: seq<View<K>>, w: nat, v: nat): View<K>
    requires w < |vs|
  {
    if Live(vs, w) && Below(vs, w, v) then
      vs[w].(myIDs := Shorter(vs[w].myIDs), parent := if vs[w].parent == Some(v) then None else vs[w].parent)
    else vs[w]
  }

  ghost function Shorter(ids: seq<nat>): seq<nat> {
    if ids == [] then [] else ids[..|ids| - 1]
  }

  ghost predicate KeptChains<K(!new), V>(m: Chains<K, V>, l: Chains<K, V>, items: seq<K>, v: nat) {
    forall k :: ChainOf(l, k) == AfterKeep(m, k, items, v)
  }

  ghost function AfterKeep<K, V>(m: Chains<K, V>, k: K, items: seq<K>, v: nat): seq<Item<V>> {
    var c := ChainOf(m, k);
    if k in items && Find(c, v).Some? then Kept(c, v, Find(c, v).value) else c
  }

  /** What is read after `v` was kept, and exactly when that is what was read before. */
  lemma KeepStep<K(!new), V>(vs: seq<View<K>>, m: Chains<K, V>, us: seq<View<K>>, l: Chains<K, V>, v: nat)
    requires TreeOk(vs) && ItemsOk(vs, m) && v < |vs| && vs[v].done == NotDone && vs[v].parent.None?
    requires Released(vs, us, v) && KeptChains(m, l, vs[v].myItems, v)
    ensures TreeOk(us) && ItemsOk(us, l)
    ensures forall u: nat :: Live(us, u) <==> Live(vs, u) && u != v
    ensures forall k :: Base(ChainOf(l, k)) == BaseAfter(m, v, k)
    ensures forall u: nat, k :: Live(us, u) ==>
      Look(us, l, u, k) == if Shadowed(vs, m, u, v, k) then Look(vs, m, u, k) else BaseAfter(m, v, k)
    ensures forall u: nat, k :: Live(us, u) ==> (Look(us, l, u, k) == Look(vs, m, u, k) <==> Unmoved(vs, m, u, v, k))
  {
    hide *;
    KeptFinds(vs, m, l, v);
    ReleasedLive(vs, us, v);
    ReleasedTree(vs, us, v);
    ReleasedItems(vs, m, us, l, v);
    forall u: nat, k | Live(us, u)
      ensures Look(us, l, u, k) == if Shadowed(vs, m, u, v, k) then Look(vs, m, u, k) else BaseAfter(m, v, k)
      ensures Look(us, l, u, k) == Look(vs, m, u, k) <==> Unmoved(vs, m, u, v, k)
    {
      LookKept(vs, m, us, l, v, u, k);
      if !Shadowed(vs, m, u, v, k) { LookUnshadowed(vs, m, u, v, k); }
      UnmovedCases(vs, m, u, v, k);
    }
  }

  lemma KeptFinds<K(!new), V>(vs: seq<View<K>>, m: Chains<K, V>, l: Chains<K, V>, v: nat)
    requires ItemsOk(vs, m) && v < |vs| && vs[v].done == NotDone && KeptChains(m, l, vs[v].myItems, v)
    ensures forall k :: ChainOk(ChainOf(l, k)) && Base(ChainOf(l, k)) == BaseAfter(m, v, k)
    ensures forall k, w: nat :: Find(ChainOf(l, k), w) == if w == v then None else Find(ChainOf(m, k), w)
  {
    hide ChainOk, Kept, Find, ChainOf, Base;
    forall k, w: nat
      ensures ChainOk(ChainOf(l, k)) && Base(ChainOf(l, k)) == BaseAfter(m, v, k)
      ensures Find(ChainOf(l, k), w) == if w == v then None else Find(ChainOf(m, k), w)
    {
      var c := ChainOf(m, k);
      assert ChainOf(l, k) == AfterKeep(m, k, vs[v].myItems, v);
      assert Find(c, v).Some? <==> k in vs[v].myItems;
      if Find(c, v).Some? {
        KeptOk(c, v, Find(c, v).value);
        KeptFind(c, v, Find(c, v).value, w);
        KeptBase(c, v, Find(c, v).value);
      }
    }
  }

  lemma ReleasedLive<K>(vs: seq<View<K>>, us: seq<View<K>>, v: nat)
    requires Released(vs, us, v) && v < |vs| && vs[v].done == NotDone
    ensures |us| == |vs| && forall u: nat :: Live(us, u) <==> Live(vs, u) && u != v
  {
    hide Below, Shorter;
    forall u: nat | u < |vs| && u != v ensures us[u].done == vs[u].done { assert us[u] == ReleasedView(vs, u, v); }
  }

  /** The path of a live view loses its last element, `v`. */
  lemma {:induction false} ReleasedPath<K>(vs: seq<View<K>>, us: seq<View<K>>, v: nat, u: nat)
    requires TreeOk(vs) && Released(vs, us, v) && vs[v].parent.None? && Live(vs, u) && u != v
    ensures Up(us, u) == if Up(vs, u) == Some(v) then None else Up(vs, u)
    ensures Path(us, u) == if Below(vs, u, v) then Shorter(Path(vs, u)) else Path(vs, u)
    ensures forall w: nat :: Below(us, u, w) <==> Below(vs, u, w) && w != v
  {
    hide IdsOk, DependentsOk;
    assert us[u] == ReleasedView(vs, u, v);
    assert ViewOk(vs, u);
    if Up(vs, u).Some? {
      var p := Up(vs, u).value;
      if p == v {
        assert Path(vs, v) == [v] && Path(vs, u) == [u, v];
        assert forall w: nat :: Below(vs, v, w) <==> w == v;
      } else {
        ReleasedPath(vs, us, v, p);
      }
    }
  }

  lemma ReleasedTree<K>(vs: seq<View<K>>, us: seq<View<K>>, v: nat)
    requires TreeOk(vs) && Released(vs, us, v) && v < |vs| && vs[v].done == NotDone && vs[v].parent.None?
    ensures TreeOk(us)
  {
    hide Path, ParentOk, IdsOk, DependentsOk, Released;
    ReleasedLive(vs, us, v);
    forall u: nat | u < |us| ensures ViewOk(us, u) {
      assert ViewOk(vs, u);
      ReleasedParents(vs, us, v, u);
      if Live(vs, u) && u != v { ReleasedPath(vs, us, v, u); }
      ReleasedIds(vs, us, v, u);
      ReleasedDependents(vs, us, v, u);
    }
  }

  lemma ReleasedParents<K>(vs: seq<View<K>>, us: seq<View<K>>, v: nat, u: nat)
    requires Released(vs, us, v) && u < |vs| == |us| && ParentOk(vs, u) && vs[v].parent.None? && vs[v].done == NotDone
    requires forall w: nat :: Live(us, w) <==> Live(vs, w) && w != v
    ensures ParentOk(us, u)
  {
    hide Shorter;
    if u != v {
      assert us[u] == ReleasedView(vs, u, v);
      if us[u].parent.Some? {
        var p := us[u].parent.value;
        if p != v { assert us[p] == ReleasedView(vs, p, v); }
        if Live(vs, u) && p == v { assert Below(vs, u, v); }
      }
    }
  }

  lemma ReleasedIds<K>(vs: seq<View<K>>, us: seq<View<K>>, v: nat, u: nat)
    requires Released(vs, us, v) && u < |vs| == |us| && IdsOk(vs, u)
    requires forall w: nat :: Live(us, w) <==> Live(vs, w) && w != v
    requires Live(vs, u) && u != v ==> Path(us, u) == if Below(vs, u, v) then Shorter(Path(vs, u)) else Path(vs, u)
    ensures IdsOk(us, u)
  {
    hide Shorter, Path, Below;
    if u != v { assert us[u] == ReleasedView(vs, u, v); }
  }

  lemma ReleasedDependents<K>(vs: seq<View<K>>, us: seq<View<K>>, v: nat, u: nat)
    requires Released(vs, us, v) && u < |vs| == |us| && DependentsOk(vs, u) && vs[v].parent.None?
    requires forall w: nat :: Live(us, w) <==> Live(vs, w) && w != v
    ensures DependentsOk(us, u)
  {
    hide Shorter, Below;
    if u != v {
      assert us[u] == ReleasedView(vs, u, v);
      forall c: nat | Some(c) in us[u].dependents ensures Live(us, c) && us[c].parent == Some(u) {
        assert Live(vs, c) && vs[c].parent == Some(u);
        assert us[c] == ReleasedView(vs, c, v);
      }
    }
  }

  lemma ReleasedItems<K(!new), V>(vs: seq<View<K>>, m: Chains<K, V>, us: seq<View<K>>, l: Chains<K, V>, v: nat)
    requires ItemsOk(vs, m) && Released(vs, us, v)
    requires forall k :: ChainOk(ChainOf(l, k))
    requires forall k, w: nat :: Find(ChainOf(l, k), w) == if w == v then None else Find(ChainOf(m, k), w)
    requires forall w: nat :: Live(us, w) <==> Live(vs, w) && w != v
    ensures ItemsOk(us, l)
  {
    hide ChainOk, Find, ChainOf, Live, Below, Shorter;
    forall w: nat | w < |vs| && w != v ensures us[w].myItems == vs[w].myItems { assert us[w] == ReleasedView(vs, w, v); }
    forall w: nat, q ensures Find(ChainOf(l, q), w).Some? <==> w < |us| && Live(us, w) && q in us[w].myItems {
      assert Find(ChainOf(m, q), w).Some? <==> w < |vs| && Live(vs, w) && q in vs[w].myItems;
    }
  }

  lemma {:induction false} LookKept<K, V>(vs: seq<View<K>>, m: Chains<K, V>, us: seq<View<K>>, l: Chains<K, V>, v: nat, u: nat, k: K)
    requires TreeOk(vs) && Released(vs, us, v) && v < |vs| && vs[v].parent.None? && Live(vs, u) && u != v
    requires forall w: nat :: Find(ChainOf(l, k), w) == if w == v then None else Find(ChainOf(m, k), w)
    requires Base(ChainOf(l, k)) == BaseAfter(m, v, k)
    ensures Look(us, l, u, k) == if Shadowed(vs, m, u, v, k) then Look(vs, m, u, k) else BaseAfter(m, v, k)
  {
    hide Path, Released, BaseAfter, Base, IdsOk, DependentsOk, Shadowed;
    ReleasedPath(vs, us, v, u);
    ShadowedStep(vs, m, u, v, k);
    if Up(us, u).Some? {
      assert ViewOk(vs, u);
      LookKept(vs, m, us, l, v, Up(us, u).value, k);
    }
  }

  lemma ShadowedStep<K, V>(vs: seq<View<K>>, m: Chains<K, V>, u: nat, v: nat, k: K)
    requires u != v
    ensures Shadowed(vs, m, u, v, k) <==>
      Find(ChainOf(m, k), u).Some? || (Up(vs, u).Some? && Shadowed(vs, m, Up(vs, u).value, v, k))
    ensures Up(vs, v).None? ==> !Shadowed(vs, m, v, v, k)
  {
    if Up(vs, u).Some? {
      if w: nat :| w != v && Below(vs, Up(vs, u).value, w) && Find(ChainOf(m, k), w).Some? {
        assert Below(vs, u, w);
      }
    }
  }

  lemma {:induction false} LookUnshadowed<K, V>(vs: seq<View<K>>, m: Chains<K, V>, u: nat, v: nat, k: K)
    requires u != v && v < |vs| && vs[v].parent.None? && !Shadowed(vs, m, u, v, k)
    ensures Look(vs, m, u, k) == Inherited(vs, m, u, v, k)
  {
    hide Base, Shadowed;
    ShadowedStep(vs, m, u, v, k);
    if Up(vs, u).Some? && Up(vs, u).value != v {
      LookUnshadowed(vs, m, Up(vs, u).value, v, k);
    } else if Up(vs, u).Some? {
      assert Below(vs, v, v) && Below(vs, u, v);
      assert Look(vs, m, v, k) == Inherited(vs, m, v, v, k);
    }
  }

  lemma UnmovedCases<K, V>(vs: seq<View<K>>, m: Chains<K, V>, u: nat, v: nat, k: K)
    requires !Shadowed(vs, m, u, v, k) ==> Look(vs, m, u, k) == Inherited(vs, m, u, v, k)
    ensures Unmoved(vs, m, u, v, k) <==> Shadowed(vs, m, u, v, k) || Look(vs, m, u, k) == BaseAfter(m, v, k)
  {
    hide Shadowed, Below, Look, Base;
  }

  lemma {:induction false} PathEnds<K>(vs: seq<View<K>>, w: nat, v: nat)
    requires Below(vs, w, v) && Up(vs, v).None?
    ensures Path(vs, w) != [] && Path(vs, w)[|Path(vs, w)| - 1] == v
  {
    if w != v { PathEnds(vs, Up(vs, w).value, v); }
  }

  // ----- Taking a committed id off the views below -----

  /** The views visited below `w` once its first `i` dependents are done. */
  ghost predicate Visited<K>(vs: seq<View<K>>, w: nat, i: nat, x: nat)
    requires w < |vs|
  {
    x == w || exists j: nat :: j < i && j < |vs[w].dependents| && vs[w].dependents[j].Some? && Below(vs, x, vs[w].dependents[j].value)
  }

  ghost predicate PartTrimmed<K(!new)>(vs: seq<View<K>>, a: seq<View<K>>, b: seq<View<K>>, w: nat, i: nat)
    requires w < |vs|
  {
    && |a| == |b| == |vs|
    && forall x: nat :: x < |vs| ==> b[x] == if Live(vs, x) && Visited(vs, w, i, x) then a[x].(myIDs := Shorter(a[x].myIDs)) else a[x]
  }

  ghost predicate Trimmed<K(!new)>(vs: seq<View<K>>, a: seq<View<K>>, b: seq<View<K>>, w: nat) {
    && |a| == |b| == |vs|
    && forall x: nat :: x < |vs| ==> b[x] == if Live(vs, x) && Below(vs, x, w) then a[x].(myIDs := Shorter(a[x].myIDs)) else a[x]
  }

  lemma FirstTrimmed<K(!new)>(vs: seq<View<K>>, a: seq<View<K>>, w: nat)
    requires |a| == |vs| && w < |vs| && Live(vs, w)
    ensures PartTrimmed(vs, a, a[w := a[w].(myIDs := Shorter(a[w].myIDs))], w, 0)
  {
    hide Shorter;
  }

  lemma EmptySlot<K(!new)>(vs: seq<View<K>>, a: seq<View<K>>, b: seq<View<K>>, w: nat, i: nat)
    requires w < |vs| && i < |vs[w].dependents| && vs[w].dependents[i].None? && PartTrimmed(vs, a, b, w, i)
    ensures PartTrimmed(vs, a, b, w, i + 1)
  {
    hide Shorter, Live, Below;
    forall x: nat ensures Visited(vs, w, i + 1, x) <==> Visited(vs, w, i, x) { }
  }

  /** Subtrees of different dependents are apart. */
  lemma Apart<K>(vs: seq<View<K>>, w: nat, c: nat, d: nat, x: nat)
    requires Up(vs, c) == Some(w) && Up(vs, d) == Some(w) && Below(vs, x, c) && Below(vs, x, d)
    ensures c == d
  {
    BelowLinear(vs, x, c, d);
    if c != d {
      if Below(vs, c, d) { BelowOlder(vs, w, d); } else { BelowOlder(vs, w, c); }
    }
  }

  lemma DependentUp<K>(vs: seq<View<K>>, w: nat, i: nat)
    requires TreeOk(vs) && w < |vs| && i < |vs[w].dependents| && vs[w].dependents[i].Some?
    ensures var c := vs[w].dependents[i].value; Live(vs, c) && Up(vs, c) == Some(w) && c > w
  {
    hide Path, IdsOk, Rising;
    assert ViewOk(vs, w);
    assert Some(vs[w].dependents[i].value) in vs[w].dependents;
    assert ViewOk(vs, vs[w].dependents[i].value);
  }

  lemma NotYetVisited<K>(vs: seq<View<K>>, w: nat, i: nat, x: nat)
    requires TreeOk(vs) && w < |vs| && i < |vs[w].dependents| && vs[w].dependents[i].Some?
    requires Below(vs, x, vs[w].dependents[i].value)
    ensures !Visited(vs, w, i, x) && Below(vs, x, w)
  {
    hide TreeOk;
    var c := vs[w].dependents[i].value;
    DependentUp(vs, w, i);
    assert Below(vs, c, w) by { assert Below(vs, w, w); }
    BelowTransitive(vs, x, c, w);
    BelowOlder(vs, x, c);
    forall j: nat | j < i && vs[w].dependents[j].Some? ensures !Below(vs, x, vs[w].dependents[j].value) {
      DependentUp(vs, w, j);
      OrderedDependents(vs, w, j, i);
      if Below(vs, x, vs[w].dependents[j].value) { Apart(vs, w, c, vs[w].dependents[j].value, x); }
    }
  }

  lemma OrderedDependents<K>(vs: seq<View<K>>, w: nat, j: nat, i: nat)
    requires TreeOk(vs) && w < |vs| && j < i < |vs[w].dependents| && vs[w].dependents[i].Some? && vs[w].dependents[j].Some?
    ensures vs[w].dependents[j].value < vs[w].dependents[i].value
  {
    hide Path, IdsOk, ParentOk;
    assert ViewOk(vs, w);
  }

  lemma NextTrimmed<K(!new)>(vs: seq<View<K>>, a: seq<View<K>>, b: seq<View<K>>, c: seq<View<K>>, w: nat, i: nat)
    requires TreeOk(vs) && w < |vs| && i < |vs[w].dependents| && vs[w].dependents[i].Some?
    requires PartTrimmed(vs, a, b, w, i) && Trimmed(vs, b, c, vs[w].dependents[i].value)
    ensures PartTrimmed(vs, a, c, w, i + 1)
  {
    hide Shorter, Live, TreeOk, Below;
    var d := vs[w].dependents[i].value;
    forall x: nat ensures Visited(vs, w, i + 1, x) <==> Visited(vs, w, i, x) || Below(vs, x, d) { }
    forall x: nat | x < |vs|
      ensures c[x] == if Live(vs, x) && Visited(vs, w, i + 1, x) then a[x].(myIDs := Shorter(a[x].myIDs)) else a[x]
    {
      if Below(vs, x, d) { NotYetVisited(vs, w, i, x); }
    }
  }

  /** A live view strictly below `w` is below one of its dependents. */
  lemma {:induction false} BelowDependent<K>(vs: seq<View<K>>, w: nat, x: nat) returns (i: nat)
    requires TreeOk(vs) && w < |vs| && Live(vs, x) && Below(vs, x, w) && x != w
    ensures i < |vs[w].dependents| && vs[w].dependents[i].Some? && Below(vs, x, vs[w].dependents[i].value)
    decreases x
  {
    hide Path, IdsOk;
    assert ViewOk(vs, x);
    var p := Up(vs, x).value;
    if p == w {
      assert Below(vs, x, x);
      i :| 0 <= i < |vs[w].dependents| && vs[w].dependents[i] == Some(x);
    } else {
      i := BelowDependent(vs, w, p);
    }
  }

  lemma AllTrimmed<K(!new)>(vs: seq<View<K>>, a: seq<View<K>>, b: seq<View<K>>, w: nat)
    requires TreeOk(vs) && w < |vs| && PartTrimmed(vs, a, b, w, |vs[w].dependents|)
    ensures Trimmed(vs, a, b, w)
  {
    hide Shorter, Live, TreeOk, Below;
    forall x: nat | x < |vs| && Live(vs, x) ensures Visited(vs, w, |vs[w].dependents|, x) <==> Below(vs, x, w) {
      if Below(vs, x, w) && x != w {
        var i := BelowDependent(vs, w, x);
        assert Visited(vs, w, |vs[w].dependents|, x);
      }
      if Visited(vs, w, |vs[w].dependents|, x) {
        if x != w {
          var j: nat :| j < |vs[w].dependents| && vs[w].dependents[j].Some? && Below(vs, x, vs[w].dependents[j].value);
          NotYetVisited(vs, w, j, x);
        } else {
          SelfBelow(vs, w);
        }
      }
    }
  }

  lemma SelfBelow<K>(vs: seq<View<K>>, w: nat)
    ensures Below(vs, w, w)
  {
  }
}
