/** A map shared by a tree of views: each view reads its parent's contents as they were when it
    was copied, plus its own writes, until it is committed or cleared. */
module CopyWriteMap {
  import opened Events
  import opened VersionChains
  import opened ViewTree
  import opened ViewClearing
  import opened ClearingOrder

  /** Reading a key through a committed view indexes an empty list when the key has only
      uncommitted versions. */
  datatype ReadResult<V> = Found(value: Option<V>) | IndexPanic

  ghost function Get<K, V>(m: map<K, V>, k: K): Option<V> {
    if k in m then Some(m[k]) else None
  }

  ghost function CommittedOf<K, V>(m: Chains<K, V>): map<K, V> {
    map k | k in m && Base(ChainOf(m, k)).Some? :: Base(ChainOf(m, k)).value
  }

  /** What is read through a kept view: the committed value, unless there are only uncommitted versions. */
  ghost function KeptReads<V>(c: seq<Item<V>>): ReadResult<V> {
    if c == [] || c[0].id == COMMITTED then Found(Base(c)) else IndexPanic
  }

  class Store<K(==,!new), V> {
    var nxtID: nat
    var theMap: Chains<K, V>
    var views: seq<View<K>>
    /** The map each view stands for. */
    ghost var model: seq<map<K, V>>

    ghost predicate Valid()
      reads this
    {
      nxtID + 1 == |views| == |model| && TreeOk(views) && ItemsOk(views, theMap) && Tidy(views)
    }

    ghost function Reads(v: nat, k: K): Option<V>
      reads this`views, this`theMap
    {
      Look(views, theMap, v, k)
    }

    /** Every live view reads the map it stands for. */
    ghost predicate Agrees()
      reads this
    {
      forall v: nat, k :: v < |model| && Live(views, v) ==> Reads(v, k) == Get(model[v], k)
    }

    constructor ()
      ensures Valid() && Agrees() && theMap == map[] && views == [View(NotDone, false, [], None, [], [0])] && model == [map[]]
    {
      nxtID := 0;
      theMap := map[];
      views := [View(NotDone, false, [], None, [], [0])];
      model := [map[]];
    }

    /** Finds the newest version among those of the view's own id and its ancestors' ids. */
    method CheckItem(ids: seq<nat>, chain: seq<Item<V>>) returns (r: ReadResult<V>)
      requires ChainOk(chain) && chain != [] && forall i, j :: 0 <= i < j < |ids| ==> ids[i] > ids[j]
      ensures ids != [] ==> r == Found(Resolve(ids, chain))
      ensures ids == [] ==> r == if chain[0].id == COMMITTED then Found(Base(chain)) else IndexPanic
    {
      hide ChainOk, Resolve;
      CommittedFirst(chain);
      var value: Option<V> := None;
      if chain[0].id == COMMITTED {
        value := ValueOf(chain[0].entry);
        if ids == [] { return Found(value); }
      }
      var maxID := COMMITTED;
      var j := 0;
      while j < |chain|
        invariant 0 <= j <= |chain| && (ids == [] ==> j == 0)
        invariant forall i :: 0 <= i < j && chain[i].id in ids ==> chain[i].id <= maxID
        invariant if maxID == COMMITTED then value == Base(chain) else
            maxID >= 0 && maxID in ids && Find(chain, maxID).Some? && value == ValueOf(Find(chain, maxID).value)
      {
        if chain[j].id > maxID {
          if ids == [] { return IndexPanic; }
          if chain[j].id <= ids[0] && chain[j].id in ids {
            DistinctBefore(chain, j);
            FindAt(chain, j);
            value, maxID := ValueOf(chain[j].entry), chain[j].id;
          }
        }
        j := j + 1;
      }
      Newest(ids, chain, maxID);
      r := Found(value);
    }

    method Read(v: nat, k: K) returns (r: ReadResult<V>)
      requires Valid() && v < |views| && views[v].done in {NotDone, KeepDone}
      ensures views[v].done == NotDone ==> r == Found(Reads(v, k))
      ensures views[v].done == KeepDone ==> r == KeptReads(ChainOf(theMap, k))
    {
      hide TreeOk, ItemsOk, Look, Resolve, Path, ChainOk;
      ViewIds(v);
      OwnIdFirst(v);
      LookResolves(views, theMap, v, k);
      PathFalls(views, v);
      ChainIsOk(k);
      if k in theMap && theMap[k] != [] {
        r := CheckItem(views[v].myIDs, theMap[k]);
      } else {
        EmptyChain(views[v].myIDs);
        r := Found(None);
      }
    }

    lemma ViewIds(v: nat)
      requires TreeOk(views) && v < |views|
      ensures Live(views, v) ==> views[v].myIDs == Path(views, v)
      ensures views[v].done == KeepDone ==> views[v].myIDs == [] && views[v].parent.None?
    {
      assert ViewOk(views, v);
    }

    lemma ChainIsOk(k: K)
      requires ItemsOk(views, theMap)
      ensures ChainOk(ChainOf(theMap, k))
    {
    }

    lemma EmptyChain(ids: seq<nat>)
      ensures Resolve<V>(ids, []) == None
    {
      ResolveNone<V>(ids, []);
    }

    method Write(v: nat, k: K, x: V)
      requires Valid() && v < |views| && !views[v].copied && views[v].done == NotDone
      modifies this
      ensures Valid() && |views| == old(|views|) && forall u: nat :: Live(views, u) == old(Live(views, u))
      ensures forall u: nat, q :: Reads(u, q) == if u == v && q == k then Some(x) else old(Reads(u, q))
      ensures Written(old(views), old(theMap), views, theMap, v, k, Put(x))
      ensures model == old(model)[v := old(model[v])[k := x]]
      ensures old(Agrees()) ==> Agrees()
    {
      hide TreeOk, ItemsOk, Look, Written, Tidy;
      InternalWrite(v, k, Put(x));
      model := model[v := model[v][k := x]];
      WriteStep(old(views), old(theMap), views, theMap, v, k, Put(x));
      WriteTidy(old(views), old(theMap), views, theMap, v, k, Put(x));
    }

    method Delete(v: nat, k: K)
      requires Valid() && v < |views| && !views[v].copied && views[v].done == NotDone
      modifies this
      ensures Valid() && |views| == old(|views|) && forall u: nat :: Live(views, u) == old(Live(views, u))
      ensures forall u: nat, q :: Reads(u, q) == if u == v && q == k then None else old(Reads(u, q))
      ensures Written(old(views), old(theMap), views, theMap, v, k, Tombstone)
      ensures model == old(model)[v := old(model[v]) - {k}]
      ensures old(Agrees()) ==> Agrees()
    {
      hide TreeOk, ItemsOk, Look, Written, Tidy;
      InternalWrite(v, k, Tombstone);
      model := model[v := model[v] - {k}];
      WriteStep(old(views), old(theMap), views, theMap, v, k, Tombstone);
      WriteTidy(old(views), old(theMap), views, theMap, v, k, Tombstone);
    }

    /** Overwrites the view's own version of `k`, or puts one at the end of the chain. */
    method InternalWrite(v: nat, k: K, e: Entry<V>)
      requires TreeOk(views) && ItemsOk(views, theMap) && v < |views| && Live(views, v)
      modifies this`theMap, this`views
      ensures Written(old(views), old(theMap), views, theMap, v, k, e) && |views| == old(|views|)
    {
      hide TreeOk, ItemsOk, ChainOk, Path, Stored;
      OwnItem(v, k);
      ViewIds(v);
      OwnIdFirst(v);
      var chain := if k in theMap then theMap[k] else [];
      var j := 0;
      while j < |chain|
        invariant 0 <= j <= |chain| && forall i :: 0 <= i < j ==> chain[i].id != v
        invariant theMap == old(theMap) && views == old(views)
      {
        if chain[j].id == views[v].myIDs[0] {
          StoredAt(chain, v, e, j);
          FindWhere(chain, v);
          theMap := theMap[k := chain[j := Item(v, e)]];
          assert views == views[v := views[v].(myItems := Listed(views[v].myItems, k))];
          return;
        }
        j := j + 1;
      }
      StoredNew(chain, v, e);
      FindWhere(chain, v);
      theMap := theMap[k := chain + [Item(v, e)]];
      views := views[v := views[v].(myItems := views[v].myItems + [k])];
    }

    lemma OwnItem(v: nat, k: K)
      requires ItemsOk(views, theMap) && v < |views| && Live(views, v)
      ensures Find(ChainOf(theMap, k), v).Some? <==> k in views[v].myItems
    {
    }

    lemma OwnIdFirst(v: nat)
      ensures Path(views, v) != [] && Path(views, v)[0] == v
    {
    }

    /** The committed contents. */
    ghost function Committed(): map<K, V>
      reads this`theMap
    {
      CommittedOf(theMap)
    }

    method Copy(v: nat) returns (c: nat)
      requires Valid() && v < |views| && views[v].done in {NotDone, KeepDone}
      modifies this
      ensures Valid() && c == old(|views|) && |views| == c + 1 && views[c].done == NotDone && !views[c].copied
      ensures Copied(old(views), views, v) && theMap == old(theMap)
      ensures forall u: nat :: u < c ==> Live(views, u) == old(Live(views, u))
      ensures forall u: nat, k :: u < c ==> Reads(u, k) == old(Reads(u, k))
      ensures forall k :: Reads(c, k) == if old(views[v].done) == NotDone then old(Reads(v, k)) else Base(ChainOf(theMap, k))
      ensures model == old(model) + [if old(views[v].done) == NotDone then old(model[v]) else Committed()]
      ensures old(Agrees()) ==> Agrees()
    {
      hide TreeOk, ItemsOk, Look, Base, Tidy, Grows;
      c := |views|;
      ghost var m := if views[v].done == NotDone then model[v] else Committed();
      var parent := None;
      views := views[v := views[v].(copied := true)];
      if views[v].done == NotDone {
        views := views[v := views[v].(dependents := views[v].dependents + [Some(nxtID + 1)])];
        parent := Some(v);
      }
      nxtID := nxtID + 1;
      views := views + [View(NotDone, false, [], parent, [], [nxtID] + views[v].myIDs)];
      model := model + [m];
      CopyStep(old(views), theMap, views, v);
      CopyGrows(old(views), views, v);
      TidyGrows(old(views), views);
      BaseAbsent();
    }

    // ----- Committing a view -----

    /** No live view but `v` would notice that `v` is kept. */
    ghost predicate Clean(v: nat)
      reads this`views, this`theMap
    {
      forall u: nat, k :: Live(views, u) && u != v ==> Unmoved(views, theMap, u, v, k)
    }

    method DoneKeep(v: nat)
      requires Valid() && v < |views| && views[v].done == NotDone && views[v].parent.None?
      modifies this`views, this`theMap
      ensures Valid() && |views| == old(|views|) && views[v].done == KeepDone && Released(old(views), views, v)
      ensures forall u: nat :: Live(views, u) ==> SameButParent(old(views[u]), views[u], v)
      ensures forall u: nat :: Live(views, u) <==> old(Live(views, u)) && u != v
      ensures forall k :: Base(ChainOf(theMap, k)) == old(BaseAfter(theMap, v, k))
      ensures forall u: nat, k :: Live(views, u) ==>
        Reads(u, k) == if old(Shadowed(views, theMap, u, v, k)) then old(Reads(u, k)) else old(BaseAfter(theMap, v, k))
      ensures forall u: nat, k :: Live(views, u) ==> (Reads(u, k) == old(Reads(u, k)) <==> old(Unmoved(views, theMap, u, v, k)))
      ensures old(Agrees()) ==> (Agrees() <==> old(Clean(v)))
    {
      hide TreeOk, ItemsOk, Look, Unmoved, Shadowed, BaseAfter, Released, KeptChains, Path, Below, ChainOk, Find, ChainOf, Trimmed, Get, Tidy;
      ghost var vs, m := views, theMap;
      OnlyOwnId(v);
      ItemsFacts(v);
      views := views[v := views[v].(done := KeepDone)];
      CommitItems(v, views[v].myItems);
      // the view has only its own id
      assert |views[v].myIDs| == 1;
      ghost var a := views;
      IdsAre(vs);
      SelfBelow(vs, v);
      RecRemoveID(v, v, vs);
      ghost var b := views;
      TrimmedKeeps(vs, a, b, v);
      ReleaseDependents(v, vs);
      KeepIsReleased(vs, a, b, views, v);
      KeepStep(vs, m, views, theMap, v);
      TidyKeep(vs, views, v);
      KeptParents(vs, views, v);
      if old(Agrees()) { KeepAgrees(v, vs, m); }
    }

    /** Commits the versions of view `v`, one key after the other. */
    method CommitItems(v: nat, items: seq<K>)
      requires forall k :: ChainOk(ChainOf(theMap, k))
      requires forall k :: k in items ==> Find(ChainOf(theMap, k), v).Some?
      requires forall i, j :: 0 <= i < j < |items| ==> items[i] != items[j]
      modifies this`theMap
      ensures KeptChains(old(theMap), theMap, items, v)
    {
      hide ChainOk, Find, ChainOf, Kept;
      ghost var m := theMap;
      var j := 0;
      while j < |items|
        invariant 0 <= j <= |items| && KeptChains(m, theMap, items[..j], v)
      {
        var k := items[j];
        assert k !in items[..j];
        assert ChainOf(theMap, k) == AfterKeep(m, k, items[..j], v);
        ghost var l := theMap;
        CommitItem(v, k);
        assert items[..j + 1] == items[..j] + [k];
        forall q ensures ChainOf(theMap, q) == AfterKeep(m, q, items[..j + 1], v) {
          assert ChainOf(l, q) == AfterKeep(m, q, items[..j], v);
        }
        j := j + 1;
      }
      assert items[..j] == items;
    }

    method CommitItem(v: nat, k: K)
      requires ChainOk(ChainOf(theMap, k)) && Find(ChainOf(theMap, k), v).Some?
      modifies this`theMap
      ensures ChainOf(theMap, k) == Kept(old(ChainOf(theMap, k)), v, old(Find(ChainOf(theMap, k), v).value))
      ensures forall q :: q != k ==> ChainOf(theMap, q) == old(ChainOf(theMap, q))
    {
      hide ChainOk;
      ghost var c := ChainOf(theMap, k);
      FindWhere(c, v);
      var first := theMap[k][0];
      if first.id == v {
        // fast path: change the id in place, or unlink
        HeadApart(c);
        if first.entry.Tombstone? {
          theMap := theMap[k := theMap[k][1..]];
        } else {
          theMap := theMap[k := [Item(COMMITTED, first.entry)] + theMap[k][1..]];
        }
        return;
      }
      var my := RemoveID(k, v);
      if my.Put? {
        var rest := theMap[k];
        if rest[0].id == COMMITTED {
          theMap := theMap[k := [Item(COMMITTED, my)] + rest[1..]];
        } else {
          theMap := theMap[k := [Item(COMMITTED, my)] + rest];
        }
      }
    }

    /** Unlinks the version of `id`; the search always finds it. */
    method RemoveID(k: K, id: nat) returns (e: Entry<V>)
      requires Find(ChainOf(theMap, k), id).Some?
      modifies this`theMap
      ensures ChainOf(theMap, k) == Without(old(ChainOf(theMap, k)), id)
      ensures e == old(Find(ChainOf(theMap, k), id).value)
      ensures old(ChainOf(theMap, k))[0].id != id ==> k in theMap && theMap[k] != [] && theMap[k][0] == old(theMap[k])[0]
      ensures forall q :: q != k ==> ChainOf(theMap, q) == old(ChainOf(theMap, q))
    {
      var c := theMap[k];
      if c[0].id == id {
        e := c[0].entry;
        if |c| == 1 {
          theMap := theMap - {k};
        } else {
          theMap := theMap[k := c[1..]];
        }
        return;
      }
      FindWhere(c, id);
      var j := 0;
      while c[j + 1].id != id
        invariant 0 <= j < |c| - 1 && forall i :: 0 <= i <= j ==> c[i].id != id
        decreases |c| - j
      {
        j := j + 1;
      }
      FindAt(c, j + 1);
      WithoutAt(c, id, j + 1);
      e := c[j + 1].entry;
      theMap := theMap[k := c[..j + 1] + c[j + 2..]];
    }

    /** Takes `id` off the ids of `w` and all views below it. */
    method RecRemoveID(w: nat, id: nat, ghost vs: seq<View<K>>)
      requires TreeOk(vs) && |views| == |vs| && Live(vs, w) && Below(vs, w, id) && Up(vs, id).None?
      requires forall x: nat :: x < |vs| ==> views[x].dependents == vs[x].dependents
      requires forall x: nat :: x < |vs| && Live(vs, x) && Below(vs, x, w) ==> views[x].myIDs == Path(vs, x)
      modifies this`views
      ensures Trimmed(vs, old(views), views, w)
      decreases |vs| - w
    {
      hide TreeOk, Path, Below, Visited, Shorter, Up;
      ghost var a := views;
      SelfBelow(vs, w);
      var ids := RemoveLast(w, id, vs);
      views := views[w := views[w].(myIDs := ids)];
      FirstTrimmed(vs, a, w);
      var i := 0;
      while i < |views[w].dependents|
        invariant PartTrimmed(vs, a, views, w, i)
        invariant i <= |vs[w].dependents|
      {
        PartKeeps(vs, a, views, w, i);
        if views[w].dependents[i].None? {
          EmptySlot(vs, a, views, w, i);
        } else {
          ghost var b := views;
          var c := views[w].dependents[i].value;
          DependentUp(vs, w, i);
          StillIds(vs, a, b, w, i);
          BelowStep(vs, c, w, id);
          RecRemoveID(c, id, vs);
          NextTrimmed(vs, a, b, views, w, i);
        }
        i := i + 1;
        PartKeeps(vs, a, views, w, i);
      }
      AllTrimmed(vs, a, views, w);
    }

    /** The id to remove is the last of the ids of `w`, which occurs once. */
    method RemoveLast(w: nat, id: nat, ghost vs: seq<View<K>>) returns (r: seq<nat>)
      requires w < |views| && views[w].myIDs == Path(vs, w) && Below(vs, w, id) && Up(vs, id).None?
      ensures r == Shorter(views[w].myIDs)
    {
      PathEnds(vs, w, id);
      PathFalls(vs, w);
      r := RemoveId(id, views[w].myIDs, |views[w].myIDs| - 1);
    }

    method RemoveId(rem: nat, ids: seq<nat>, ghost pos: nat) returns (newItems: seq<nat>)
      requires pos < |ids| && ids[pos] == rem && forall i :: 0 <= i < |ids| && i != pos ==> ids[i] != rem
      ensures newItems == ids[..pos] + ids[pos + 1..]
    {
      newItems := [];
      var i := 0;
      while i < |ids|
        invariant 0 <= i <= |ids|
        invariant newItems == if i <= pos then ids[..i] else ids[..pos] + ids[pos + 1..i]
      {
        if ids[i] != rem {
          newItems := newItems + [ids[i]];
        }
        i := i + 1;
      }
      assert |newItems| == |ids| - 1;
    }

    method ReleaseDependents(v: nat, ghost vs: seq<View<K>>)
      requires TreeOk(vs) && v < |vs| && |views| == |vs| && vs[v].parent.None?
      requires forall x: nat :: x < |vs| ==> views[x].dependents == vs[x].dependents && views[x].parent == vs[x].parent
      modifies this`views
      ensures |views| == |vs|
      ensures views[v] == old(views[v]).(dependents := views[v].dependents) && forall c: nat :: Some(c) !in views[v].dependents
      ensures forall x: nat :: x < |vs| && x != v ==>
        views[x] == old(views[x]).(parent := if Some(x) in vs[v].dependents then None else vs[x].parent)
    {
      hide TreeOk, FreedTo;
      ghost var b := views;
      FreedNone(vs, b, v);
      var i := 0;
      while i < |views[v].dependents|
        invariant |views| == |vs| && |views[v].dependents| == |vs[v].dependents| && i <= |vs[v].dependents|
        invariant FreedTo(vs, b, views, v, i)
      {
        FreedSlot(vs, b, views, v, i);
        if views[v].dependents[i].Some? {
          var c := views[v].dependents[i].value;
          DependentUp(vs, v, i);
          FreedStep(vs, b, views, v, i, c);
          views := views[c := views[c].(parent := None)];
          views := views[v := views[v].(dependents := views[v].dependents[i := None])];
        }
        i := i + 1;
      }
      FreedAll(vs, b, views, v);
    }

    lemma OnlyOwnId(v: nat)
      requires Valid() && v < |views| && views[v].done == NotDone && views[v].parent.None?
      ensures views[v].myIDs == [v] && TreeOk(views) && ItemsOk(views, theMap) && Live(views, v) && Up(views, v).None?
    {
      assert ViewOk(views, v);
    }

    lemma ItemsFacts(v: nat)
      requires ItemsOk(views, theMap) && v < |views| && Live(views, v)
      ensures forall k :: ChainOk(ChainOf(theMap, k))
      ensures forall k :: k in views[v].myItems ==> Find(ChainOf(theMap, k), v).Some?
      ensures forall i, j :: 0 <= i < j < |views[v].myItems| ==> views[v].myItems[i] != views[v].myItems[j]
    {
      hide Live, Find, ChainOk, ChainOf;
    }

    lemma IdsAre(vs: seq<View<K>>)
      requires TreeOk(vs)
      ensures forall x: nat :: x < |vs| && Live(vs, x) ==> vs[x].myIDs == Path(vs, x)
    {
      hide Live, Path, ParentOk, DependentsOk;
      forall x: nat | x < |vs| && Live(vs, x) ensures vs[x].myIDs == Path(vs, x) { assert ViewOk(vs, x); }
    }

    lemma KeepIsReleased(vs: seq<View<K>>, a: seq<View<K>>, b: seq<View<K>>, us: seq<View<K>>, v: nat)
      requires TreeOk(vs) && v < |vs| && vs[v].done == NotDone && vs[v].parent.None? && vs[v].myIDs == [v]
      requires a == vs[v := vs[v].(done := KeepDone)] && Trimmed(vs, a, b, v) && |us| == |vs|
      requires us[v] == b[v].(dependents := us[v].dependents) && forall c: nat :: Some(c) !in us[v].dependents
      requires forall x: nat :: x < |vs| && x != v ==> us[x] == b[x].(parent := if Some(x) in vs[v].dependents then None else vs[x].parent)
      ensures Released(vs, us, v)
    {
      hide TreeOk, Below;
      SelfBelow(vs, v);
      forall w: nat | w < |vs| && w != v ensures us[w] == ReleasedView(vs, w, v) {
        ChildOf(vs, v, w);
      }
    }

    lemma ChildOf(vs: seq<View<K>>, v: nat, w: nat)
      requires TreeOk(vs) && v < |vs| && w < |vs| && w != v
      ensures Some(w) in vs[v].dependents <==> Live(vs, w) && vs[w].parent == Some(v)
      ensures Live(vs, w) && vs[w].parent == Some(v) ==> Below(vs, w, v)
    {
      hide IdsOk, Path;
      assert ViewOk(vs, w) && ViewOk(vs, v);
      assert Below(vs, v, v);
    }

    lemma KeepAgrees(v: nat, vs: seq<View<K>>, m: Chains<K, V>)
      requires |views| == |vs| == |model| && v < |vs|
      requires forall u: nat :: Live(views, u) <==> Live(vs, u) && u != v
      requires forall u: nat, k :: Live(views, u) ==> (Look(views, theMap, u, k) == Look(vs, m, u, k) <==> Unmoved(vs, m, u, v, k))
      requires forall u: nat, k :: u < |model| && Live(vs, u) ==> Look(vs, m, u, k) == Get(model[u], k)
      ensures Agrees() <==> forall u: nat, k :: Live(vs, u) && u != v ==> Unmoved(vs, m, u, v, k)
    {
      hide Look, Unmoved, Get;
      if Agrees() {
        forall u: nat, k | Live(vs, u) && u != v ensures Unmoved(vs, m, u, v, k) {
          assert Live(views, u);
          assert Reads(u, k) == Get(model[u], k);
        }
      }
    }

    // ----- Clearing a view -----

    /** Clears `v` and what waits for it: of the waiting views exactly those are taken out that are below the
        last waiting view above `v` and that no view in use holds back; `v` is one of them exactly when none
        is below it or before it. No view that is left reads anything else than before. */
    method DoneClear(v: nat)
      requires Valid() && v < |views| && views[v].done in {NotDone, ClearStart}
      modifies this`views, this`theMap
      ensures Valid() && |views| == old(|views|)
      ensures forall w: nat :: w < |views| && Marked(old(views), v)[w].done == ClearStart ==>
        (views[w].done == ClearFinish <==> TakenOut(Marked(old(views), v), TopView(Marked(old(views), v), v), w))
      ensures views[v].done == ClearFinish <==> !HasUndone(Marked(old(views), v), v) && !BlockedBefore(Marked(old(views), v), v)
      ensures views[v].done in {ClearStart, ClearFinish}
      ensures Settles(Marked(old(views), v), views)
      ensures forall k :: Base(ChainOf(theMap, k)) == old(Base(ChainOf(theMap, k)))
      ensures Committed() == old(Committed())
      ensures forall k :: KeptReads(ChainOf(theMap, k)) == old(KeptReads(ChainOf(theMap, k))) || (old(KeptReads(ChainOf(theMap, k))) == IndexPanic && KeptReads(ChainOf(theMap, k)) == Found(None))
      ensures forall u: nat, k :: Live(views, u) ==> Reads(u, k) == old(Reads(u, k))
      ensures old(Agrees()) ==> Agrees()
    {
      hide TreeOk, ItemsOk, Look, Tidy, HasUndone, BlockedBefore, Settles, Recursed, IsTop, Get, TakenOut, TopView, Base, ChainOf, KeptReads;
      ghost var vs, m := views, theMap;
      MarkStep(vs, m, v);
      MarkUp(vs, v);
      views := views[v := views[v].(done := ClearStart)];
      ghost var s1 := views;
      var item := TopOf(v);
      var cleared := DoneClearRec(item);
      RecursedFacts(s1, m, views, theMap, item, cleared);
      ClearedMeans(s1, m, views, theMap, item, cleared, v);
      OthersTaken(s1, m, views, theMap, item, cleared);
      CommittedStays(vs, m, s1, views, theMap);
      TidyClear(vs, v, item, m, views, theMap, cleared);
      SettlesUp(s1, views);
      forall u: nat, k | Live(views, u) ensures Reads(u, k) == old(Reads(u, k)) {
        ClearsUnread(s1, m, views, theMap, u, k);
      }
    }

    /** Climbs over the parents that wait to be cleared. */
    method TopOf(v: nat) returns (t: nat)
      requires TreeOk(views) && v < |views| && views[v].done == ClearStart
      ensures IsTop(views, v, t) && Live(views, t) && t == TopView(views, v)
    {
      hide TreeOk;
      t := v;
      SelfBelow(views, v);
      OnlySelf(views, v);
      ParentOlder(t);
      while views[t].parent.Some? && views[views[t].parent.value].done == ClearStart
        invariant t < |views| && Below(views, v, t) && views[t].done == ClearStart
        invariant views[t].parent == Up(views, t) && TopView(views, v) == TopView(views, t)
        invariant forall w: nat :: w < |views| && Below(views, v, w) && Below(views, w, t) ==> views[w].done == ClearStart
        decreases t
      {
        ClimbStep(views, v, t);
        t := views[t].parent.value;
        ParentOlder(t);
      }
    }

    /** When every view of a subtree has called DoneClear, whatever the order, and nothing before
        the subtree holds it back, none of their versions is left in any chain. */
    lemma SubtreeIsUnlinked(s: nat)
      requires Valid() && s < |views| && !BlockedBefore(views, s)
      requires forall x: nat :: x < |views| && Below(views, x, s) ==> views[x].done in {ClearStart, ClearFinish}
      ensures forall w: nat, k :: w < |views| && Below(views, w, s) ==> Find(ChainOf(theMap, k), w).None?
    {
      hide TreeOk, Tidy, Below, BlockedBefore, Find, ChainOf, ChainOk;
      forall w: nat, k | w < |views| && Below(views, w, s) ensures Find(ChainOf(theMap, k), w).None? {
        SubtreeIsCleared(views, s, w);
        assert Find(ChainOf(theMap, k), w).Some? <==> w < |views| && Live(views, w) && k in views[w].myItems;
      }
    }

    lemma ParentOlder(t: nat)
      requires TreeOk(views) && t < |views|
      ensures views[t].parent == Up(views, t)
    {
      hide IdsOk, DependentsOk;
      assert ViewOk(views, t);
    }

    method DoneClearRec(v: nat) returns (cleared: bool)
      requires TreeOk(views) && ItemsOk(views, theMap) && Live(views, v)
      modifies this`views, this`theMap
      ensures Recursed(old(views), old(theMap), views, theMap, v, cleared)
      decreases |views| - v
    {
      hide TreeOk, ItemsOk, Partly, Recursed;
      ghost var vs, m := views, theMap;
      PartlyStart(vs, m, v);
      PartlyShape(vs, m, views, theMap, v, 0);
      var i := 0;
      while i < |views[v].dependents|
        invariant v < |views| == |vs| && i <= |vs[v].dependents| == |views[v].dependents|
        invariant Partly(vs, m, views, theMap, v, i)
      {
        ghost var us, l := views, theMap;
        PartlyShape(vs, m, us, l, v, i);
        if views[v].dependents[i].None? {
          PartlySkip(vs, m, us, l, v, i);
        } else {
          var rec := DoneClearRec(views[v].dependents[i].value);
          if !rec {
            PartlyStop(vs, m, us, l, views, theMap, v, i);
            return false;
          }
          PartlyNext(vs, m, us, l, views, theMap, v, i);
        }
        i := i + 1;
        PartlyShape(vs, m, views, theMap, v, i);
      }
      PartlyShape(vs, m, views, theMap, v, i);
      ghost var us, l := views, theMap;
      cleared := InternalDoneClear(v);
      if cleared {
        PartlyFinish(vs, m, us, l, views, theMap, v);
      } else {
        PartlyInUse(vs, m, us, l, v);
      }
    }

    /** Takes out a waiting view whose dependents are all gone. */
    method InternalDoneClear(v: nat) returns (cleared: bool)
      requires TreeOk(views) && ItemsOk(views, theMap) && Live(views, v) && forall c: nat :: Some(c) !in views[v].dependents
      modifies this`views, this`theMap
      ensures cleared <==> old(views[v].done) == ClearStart
      ensures !cleared ==> views == old(views) && theMap == old(theMap)
      ensures cleared ==> Finished(old(views), views, v) && Purged(old(theMap), theMap, v)
    {
      hide TreeOk, ItemsOk;
      if views[v].done == NotDone {
        return false;
      }
      ghost var vs := views;
      ParentOlder(v);
      if views[v].parent.Some? {
        var p := views[v].parent.value;
        // the view is a dependent of its parent
        IsDependent(v, p);
        var ds := DropDependent(views[p].dependents, v);
        views := views[p := views[p].(dependents := ds)];
      }
      ItemsOf(vs, v);
      PurgeItems(v, views[v].myItems);
      views := views[v := views[v].(done := ClearFinish)];
      cleared := true;
    }

    lemma IsDependent(v: nat, p: nat)
      requires TreeOk(views) && Live(views, v) && views[v].parent == Some(p)
      ensures p < v && Some(v) in views[p].dependents
    {
      hide IdsOk, DependentsOk;
      assert ViewOk(views, v);
    }

    lemma ItemsOf(vs: seq<View<K>>, v: nat)
      requires ItemsOk(vs, theMap) && Live(vs, v)
      ensures forall k :: Find(ChainOf(theMap, k), v).Some? <==> k in vs[v].myItems
      ensures forall i, j :: 0 <= i < j < |vs[v].myItems| ==> vs[v].myItems[i] != vs[v].myItems[j]
    {
      hide Find, ChainOf, ChainOk;
    }

    method DropDependent(ds: seq<Option<nat>>, v: nat) returns (es: seq<Option<nat>>)
      requires Some(v) in ds
      ensures es == Dropped(ds, v)
    {
      es := ds;
      var found := false;
      var i := 0;
      while i < |ds|
        invariant 0 <= i <= |ds| == |es|
        invariant forall j :: 0 <= j < i ==> es[j] == if ds[j] == Some(v) then None else ds[j]
        invariant forall j :: i <= j < |ds| ==> es[j] == ds[j]
        invariant found <==> Some(v) in ds[..i]
      {
        if es[i] == Some(v) {
          es := es[i := None];
          found := true;
        }
        i := i + 1;
      }
      assert ds[..i] == ds;
      // the view was found among the dependents
      assert found;
    }

    /** Unlinks the versions of view `v`, one key after the other. */
    method PurgeItems(v: nat, items: seq<K>)
      requires forall k :: Find(ChainOf(theMap, k), v).Some? <==> k in items
      requires forall i, j :: 0 <= i < j < |items| ==> items[i] != items[j]
      modifies this`theMap
      ensures Purged(old(theMap), theMap, v)
    {
      hide Find, ChainOf, Without;
      ghost var m := theMap;
      var j := 0;
      while j < |items|
        invariant 0 <= j <= |items|
        invariant forall k :: ChainOf(theMap, k) == if k in items[..j] then Without(ChainOf(m, k), v) else ChainOf(m, k)
      {
        var k := items[j];
        assert k !in items[..j];
        assert items[..j + 1] == items[..j] + [k];
        var _ := RemoveID(k, v);
        j := j + 1;
      }
      assert items[..j] == items;
      forall k ensures ChainOf(theMap, k) == Without(ChainOf(m, k), v) {
        if k !in items { WithoutAbsent(ChainOf(m, k), v); }
      }
    }

    lemma BaseAbsent()
      ensures forall k :: k !in theMap ==> Base(ChainOf(theMap, k)) == None
    {
    }
  }

  lemma DistinctBefore<V>(c: seq<Item<V>>, j: nat)
    requires ChainOk(c) && j < |c|
    ensures forall i :: 0 <= i < j ==> c[i].id != c[j].id
  {
  }

  lemma Newest<V>(ids: seq<nat>, c: seq<Item<V>>, maxID: int)
    requires ChainOk(c) && ids != [] && forall i, j :: 0 <= i < j < |ids| ==> ids[i] > ids[j]
    requires forall i :: 0 <= i < |c| && c[i].id in ids ==> c[i].id <= maxID
    requires maxID != COMMITTED ==> maxID >= 0 && maxID in ids && Find(c, maxID).Some?
    ensures Resolve(ids, c) == if maxID == COMMITTED then Base(c) else ValueOf(Find(c, maxID).value)
  {
    forall i | i in ids && Find(c, i).Some? ensures i <= maxID {
      FindWhere(c, i);
    }
    if maxID == COMMITTED { ResolveNone(ids, c); } else { ResolveLargest(ids, c, maxID); }
  }

  // ----- Proof steps of DoneKeep and of RecRemoveID -----

  /** The first `i` dependents of `v` have lost their parent. */
  ghost predicate FreedTo<K>(vs: seq<View<K>>, b: seq<View<K>>, us: seq<View<K>>, v: nat, i: nat)
    requires v < |vs| == |b|
  {
    && |us| == |vs| && us[v] == b[v].(dependents := us[v].dependents) && HalfDropped(vs[v].dependents, us[v].dependents, i)
    && i <= |vs[v].dependents|
    && forall x: nat :: x < |vs| && x != v ==> us[x] == b[x].(parent := if Some(x) in vs[v].dependents[..i] then None else vs[x].parent)
  }

  lemma FreedNone<K>(vs: seq<View<K>>, b: seq<View<K>>, v: nat)
    requires v < |vs| == |b| && forall x: nat :: x < |vs| ==> b[x].dependents == vs[x].dependents && b[x].parent == vs[x].parent
    ensures FreedTo(vs, b, b, v, 0)
  {
  }

  lemma FreedSlot<K>(vs: seq<View<K>>, b: seq<View<K>>, us: seq<View<K>>, v: nat, i: nat)
    requires v < |vs| == |b| && FreedTo(vs, b, us, v, i) && i < |vs[v].dependents|
    ensures |us| == |vs| && |us[v].dependents| == |vs[v].dependents| && us[v].dependents[i] == vs[v].dependents[i]
    ensures vs[v].dependents[i].None? ==> FreedTo(vs, b, us, v, i + 1)
  {
    assert vs[v].dependents[..i + 1] == vs[v].dependents[..i] + [vs[v].dependents[i]];
  }

  lemma FreedStep<K>(vs: seq<View<K>>, b: seq<View<K>>, us: seq<View<K>>, v: nat, i: nat, c: nat)
    requires v < |vs| == |b| && FreedTo(vs, b, us, v, i) && i < |vs[v].dependents| && vs[v].dependents[i] == Some(c)
    requires v < c < |vs|
    ensures |us| == |vs| && |us[v].dependents| == |vs[v].dependents|
    ensures var ts := us[c := us[c].(parent := None)]; FreedTo(vs, b, ts[v := ts[v].(dependents := ts[v].dependents[i := None])], v, i + 1)
  {
    assert vs[v].dependents[..i + 1] == vs[v].dependents[..i] + [Some(c)];
  }

  lemma FreedAll<K>(vs: seq<View<K>>, b: seq<View<K>>, us: seq<View<K>>, v: nat)
    requires v < |vs| == |b| && FreedTo(vs, b, us, v, |vs[v].dependents|)
    ensures |us| == |vs| && us[v] == b[v].(dependents := us[v].dependents) && forall c: nat :: Some(c) !in us[v].dependents
    ensures forall x: nat :: x < |vs| && x != v ==> us[x] == b[x].(parent := if Some(x) in vs[v].dependents then None else vs[x].parent)
  {
    assert vs[v].dependents[..|vs[v].dependents|] == vs[v].dependents;
  }

  lemma PartKeeps<K(!new)>(vs: seq<View<K>>, a: seq<View<K>>, b: seq<View<K>>, w: nat, i: nat)
    requires w < |vs| && PartTrimmed(vs, a, b, w, i) && forall x: nat :: x < |vs| ==> a[x].dependents == vs[x].dependents
    ensures |b| == |vs| && forall x: nat :: x < |vs| ==> b[x].dependents == vs[x].dependents
  {
    hide Visited, Live, Shorter;
  }

  lemma TrimmedKeeps<K(!new)>(vs: seq<View<K>>, a: seq<View<K>>, b: seq<View<K>>, v: nat)
    requires v < |vs| && Trimmed(vs, a, b, v)
    requires forall x: nat :: x < |vs| ==> a[x].dependents == vs[x].dependents && a[x].parent == vs[x].parent
    ensures |b| == |vs| && forall x: nat :: x < |vs| ==> b[x].dependents == vs[x].dependents && b[x].parent == vs[x].parent
    ensures b[v].done == a[v].done
  {
    hide Below, Live, Shorter;
  }

  /** The live views keep their state; the children of `v` lose their parent. */
  ghost predicate SameButParent<K>(a: View<K>, b: View<K>, v: nat) {
    && b.done == a.done && b.copied == a.copied && b.myItems == a.myItems
    && b.parent == if a.parent == Some(v) then None else a.parent
  }

  lemma KeptParents<K>(vs: seq<View<K>>, us: seq<View<K>>, v: nat)
    requires TreeOk(vs) && v < |vs| && Released(vs, us, v) && vs[v].done == NotDone
    ensures |us| == |vs| && forall u: nat :: Live(us, u) ==> SameButParent(vs[u], us[u], v)
  {
    hide TreeOk, Below;
    forall u: nat | Live(us, u) ensures SameButParent(vs[u], us[u], v) {
      assert us[u] == ReleasedView(vs, u, v);
      ChildBelow(vs, v, u);
    }
  }

  lemma ChildBelow<K>(vs: seq<View<K>>, v: nat, w: nat)
    requires TreeOk(vs) && v < |vs| && w < |vs|
    ensures vs[w].parent == Some(v) ==> Below(vs, w, v)
  {
    hide IdsOk, DependentsOk;
    assert ViewOk(vs, w);
    assert Below(vs, v, v);
  }

  lemma WriteTidy<K, V>(vs: seq<View<K>>, m: Chains<K, V>, us: seq<View<K>>, l: Chains<K, V>, v: nat, k: K, e: Entry<V>)
    requires Written(vs, m, us, l, v, k, e) && Tidy(vs)
    ensures Tidy(us) && us[v].done == vs[v].done && us[v].copied == vs[v].copied && us[v].parent == vs[v].parent
  {
    hide Tidy;
    WriteGrows(vs, us);
    TidyGrows(vs, us);
  }

  lemma StillIds<K(!new)>(vs: seq<View<K>>, a: seq<View<K>>, b: seq<View<K>>, w: nat, i: nat)
    requires TreeOk(vs) && w < |vs| && i < |vs[w].dependents| && vs[w].dependents[i].Some? && PartTrimmed(vs, a, b, w, i)
    requires forall x: nat :: x < |vs| && Live(vs, x) && Below(vs, x, w) ==> a[x].myIDs == Path(vs, x)
    ensures forall x: nat :: x < |vs| && Live(vs, x) && Below(vs, x, vs[w].dependents[i].value) ==> b[x].myIDs == Path(vs, x)
  {
    hide Visited, Live, Shorter, TreeOk, Path, Below;
    forall x: nat | x < |vs| && Live(vs, x) && Below(vs, x, vs[w].dependents[i].value) ensures b[x].myIDs == Path(vs, x) {
      NotYetVisited(vs, w, i, x);
    }
  }

  lemma BelowStep<K>(vs: seq<View<K>>, c: nat, w: nat, id: nat)
    requires Up(vs, c) == Some(w) && Below(vs, w, id)
    ensures Below(vs, c, id)
  {
  }

  // ----- Proof steps of DoneClear -----

  lemma OnlySelf<K>(vs: seq<View<K>>, v: nat)
    ensures forall w: nat :: Below(vs, v, w) && Below(vs, w, v) ==> w == v
  {
    forall w: nat | Below(vs, v, w) && Below(vs, w, v) ensures w == v {
      BelowOlder(vs, v, w);
      BelowOlder(vs, w, v);
    }
  }

  lemma ClimbStep<K>(vs: seq<View<K>>, v: nat, t: nat)
    requires t < |vs| && Below(vs, v, t) && Up(vs, t).Some? && vs[Up(vs, t).value].done == ClearStart
    requires forall w: nat :: w < |vs| && Below(vs, v, w) && Below(vs, w, t) ==> vs[w].done == ClearStart
    ensures Below(vs, v, Up(vs, t).value) && Up(vs, t).value < |vs|
    ensures forall w: nat :: w < |vs| && Below(vs, v, w) && Below(vs, w, Up(vs, t).value) ==> vs[w].done == ClearStart
  {
    var p := Up(vs, t).value;
    assert Below(vs, t, p) by { assert Below(vs, p, p); }
    BelowTransitive(vs, v, t, p);
    forall w: nat | w < |vs| && Below(vs, v, w) && Below(vs, w, p) ensures vs[w].done == ClearStart {
      BelowLinear(vs, v, t, w);
      if Below(vs, t, w) && w != t {
        OnlySelf(vs, p);
        assert Below(vs, p, w);
      }
    }
  }

  /** The waiting view `w` is taken out when clearing starts at `t`. */
  ghost predicate TakenOut<K>(vs: seq<View<K>>, t: nat, w: nat) {
    Below(vs, w, t) && !HasUndone(vs, w) && !BlockedUnder(vs, t, w)
  }

  /** Clearing leaves the committed values alone: a kept view reads as before, or can read again. */
  lemma CommittedStays<K(!new), V>(vs: seq<View<K>>, m: Chains<K, V>, s: seq<View<K>>, us: seq<View<K>>, l: Chains<K, V>)
    requires ItemsOk(vs, m) && ItemsOk(us, l) && Clears(s, m, us, l)
    ensures forall k :: Base(ChainOf(l, k)) == Base(ChainOf(m, k))
    ensures CommittedOf(l) == CommittedOf(m)
    ensures forall k :: KeptReads(ChainOf(l, k)) == KeptReads(ChainOf(m, k)) || (KeptReads(ChainOf(m, k)) == IndexPanic && KeptReads(ChainOf(l, k)) == Found(None))
  {
    hide ChainOk, Settles, Live;
    forall k
      ensures KeptReads(ChainOf(l, k)) == KeptReads(ChainOf(m, k)) || (KeptReads(ChainOf(m, k)) == IndexPanic && KeptReads(ChainOf(l, k)) == Found(None))
    {
      assert ChainOk(ChainOf(m, k)) && ChainOk(ChainOf(l, k));
      CommittedFirst(ChainOf(m, k));
      CommittedFirst(ChainOf(l, k));
      assert Base(ChainOf(l, k)) == Base(ChainOf(m, k));
      if ChainOf(l, k) != [] && ChainOf(l, k)[0].id != COMMITTED {
        var i: nat := ChainOf(l, k)[0].id;
        FindAt(ChainOf(l, k), 0);
        assert Live(us, i);
        FindWhere(ChainOf(m, k), i);
      }
    }
    forall k | k !in m ensures Base(ChainOf(m, k)) == None { }
    forall k | k !in l ensures Base(ChainOf(l, k)) == None { }
  }

  lemma OthersTaken<K(!new), V>(s: seq<View<K>>, m: Chains<K, V>, us: seq<View<K>>, l: Chains<K, V>, t: nat, cleared: bool)
    requires Recursed(s, m, us, l, t, cleared)
    ensures |us| == |s| && forall w: nat :: w < |s| && s[w].done == ClearStart ==> (us[w].done == ClearFinish <==> TakenOut(s, t, w))
  {
    hide HasUndone, BlockedUnder, Below, TreeOk, ItemsOk, Clears;
  }

  lemma ClearedMeans<K(!new), V>(s: seq<View<K>>, m: Chains<K, V>, us: seq<View<K>>, l: Chains<K, V>, t: nat, cleared: bool, v: nat)
    requires Recursed(s, m, us, l, t, cleared) && IsTop(s, v, t) && v < |s| && s[v].done == ClearStart
    ensures us[v].done == ClearFinish <==> !HasUndone(s, v) && !BlockedBefore(s, v)
    ensures us[v].done in {ClearStart, ClearFinish} && Settles(s, us)
  {
    hide HasUndone, BlockedBefore, BlockedUnder, Below, TreeOk, ItemsOk;
    TopBlocked(s, t, v);
    assert SettledView(s[v], us[v]);
  }
}
