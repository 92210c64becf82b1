/** The version chain of one key: the committed version first, if there is one, then one
    version per view that wrote the key. */
module VersionChains {
  import opened Events

  const COMMITTED := -1

  datatype Entry<V> = Put(value: V) | Tombstone

  datatype Item<V> = Item(id: int, entry: Entry<V>)

  ghost predicate ChainOk<V>(c: seq<Item<V>>) {
    && (forall j :: 0 <= j < |c| ==> c[j].id >= COMMITTED)
    && (forall i, j :: 0 <= i < j < |c| ==> c[i].id != c[j].id)
    && (forall j :: 0 < j < |c| ==> c[j].id != COMMITTED)
    && (c != [] && c[0].id == COMMITTED ==> c[0].entry.Put?)
  }

  /** The version of view `id`. */
  function Find<V>(c: seq<Item<V>>, id: int): Option<Entry<V>> {
    if c == [] then None
    else if c[0].id == id then Some(c[0].entry)
    else Find(c[1..], id)
  }

  function ValueOf<V>(e: Entry<V>): Option<V> {
    if e.Put? then Some(e.value) else None
  }

  /** The committed value. */
  function Base<V>(c: seq<Item<V>>): Option<V> {
    var e := Find(c, COMMITTED);
    if e.Some? then ValueOf(e.value) else None
  }

  /** What a view whose own id and those of its ancestors are `ids`, youngest first, reads: the
      version of the youngest that wrote the key, else the committed value. */
  function Resolve<V>(ids: seq<nat>, c: seq<Item<V>>): Option<V> {
    if ids == [] then Base(c)
    else if Find(c, ids[0]).Some? then ValueOf(Find(c, ids[0]).value)
    else Resolve(ids[1..], c)
  }

  lemma {:induction false} FindAt<V>(c: seq<Item<V>>, j: nat)
    requires j < |c| && forall i :: 0 <= i < j ==> c[i].id != c[j].id
    ensures Find(c, c[j].id) == Some(c[j].entry)
  {
    if j > 0 {
      FindAt(c[1..], j - 1);
    }
  }

  lemma {:induction false} FindWhere<V>(c: seq<Item<V>>, id: int)
    ensures Find(c, id).Some? <==> exists j :: 0 <= j < |c| && c[j].id == id
  {
    if c != [] && c[0].id != id {
      FindWhere(c[1..], id);
      if j :| 0 <= j < |c| && c[j].id == id {
        assert c[1..][j - 1].id == id;
      }
      if Find(c[1..], id).Some? {
        var j :| 0 <= j < |c[1..]| && c[1..][j].id == id;
        assert c[j + 1].id == id;
      }
    }
  }

  /** With the ids falling, the version read is the one with the largest id of them all. */
  lemma {:induction false} ResolveLargest<V>(ids: seq<nat>, c: seq<Item<V>>, m: nat)
    requires forall i, j :: 0 <= i < j < |ids| ==> ids[i] > ids[j]
    requires m in ids && Find(c, m).Some?
    requires forall i :: i in ids && Find(c, i).Some? ==> i <= m
    ensures Resolve(ids, c) == ValueOf(Find(c, m).value)
  {
    if ids[0] != m {
      assert ids[0] in ids;
      assert m in ids[1..];
      ResolveLargest(ids[1..], c, m);
    }
  }

  lemma {:induction false} ResolveNone<V>(ids: seq<nat>, c: seq<Item<V>>)
    requires forall i :: i in ids ==> Find(c, i).None?
    ensures Resolve(ids, c) == Base(c)
  {
    if ids != [] {
      assert ids[0] in ids;
      ResolveNone(ids[1..], c);
    }
  }

  // ----- What the operations do to a chain -----

  /** The chain without the version of `id`. */
  function Without<V>(c: seq<Item<V>>, id: int): seq<Item<V>> {
    if c == [] then []
    else if c[0].id == id then c[1..]
    else [c[0]] + Without(c[1..], id)
  }

  /** The chain after `id` wrote `e`. */
  function Stored<V>(c: seq<Item<V>>, id: int, e: Entry<V>): seq<Item<V>> {
    if c == [] then [Item(id, e)]
    else if c[0].id == id then [Item(id, e)] + c[1..]
    else [c[0]] + Stored(c[1..], id, e)
  }

  /** The chain after the version `e` of `id` was committed: a value goes to the front in place
      of the committed one, a tombstone is only taken out. */
  function Kept<V>(c: seq<Item<V>>, id: int, e: Entry<V>): seq<Item<V>> {
    var rest := Without(c, id);
    if e.Tombstone? then rest
    else if rest != [] && rest[0].id == COMMITTED then [Item(COMMITTED, e)] + rest[1..]
    else [Item(COMMITTED, e)] + rest
  }

  lemma {:induction false} WithoutOk<V>(c: seq<Item<V>>, id: int)
    requires ChainOk(c)
    ensures ChainOk(Without(c, id))
    ensures forall a :: a in Without(c, id) ==> a in c && a.id != id
  {
    hide ChainOk;
    if c != [] {
      TailOk(c);
      WithoutOk(c[1..], id);
      HeadApart(c);
      assert c == [c[0]] + c[1..];
      if c[0].id != id {
        var w := Without(c[1..], id);
        forall a | a in w ensures a in c[1..] { assert a in Without(c[1..], id); }
        ConsOk(c[0], w, c);
      }
    }
  }

  lemma HeadApart<V>(c: seq<Item<V>>)
    requires ChainOk(c) && c != []
    ensures forall a :: a in c[1..] ==> a.id != c[0].id && a.id != COMMITTED
  {
  }

  lemma {:induction false} WithoutFind<V>(c: seq<Item<V>>, id: int, u: int)
    requires ChainOk(c)
    ensures Find(Without(c, id), u) == if u == id then None else Find(c, u)
  {
    hide ChainOk;
    if c != [] {
      TailOk(c);
      HeadApart(c);
      WithoutFind(c[1..], id, u);
      if c[0].id == id && u == id { FindWhere(c[1..], id); }
    }
  }

  lemma TailOk<V>(c: seq<Item<V>>)
    requires ChainOk(c) && c != []
    ensures ChainOk(c[1..])
  {
  }

  lemma ConsOk<V>(h: Item<V>, w: seq<Item<V>>, c: seq<Item<V>>)
    requires ChainOk(w) && ChainOk(c) && c != [] && c[0] == h && (forall a :: a in w ==> a in c[1..])
    ensures ChainOk([h] + w)
  {
    forall a | a in w ensures a.id != h.id && a.id != COMMITTED { }
  }

  lemma {:induction false} StoredOk<V>(c: seq<Item<V>>, id: nat, e: Entry<V>)
    requires ChainOk(c)
    ensures ChainOk(Stored(c, id, e)) && Stored(c, id, e) != []
    ensures forall a :: a in Stored(c, id, e) ==> a == Item(id, e) || a in c
    ensures c != [] && c[0].id == COMMITTED ==> Stored(c, id, e)[0] == c[0]
  {
    hide ChainOk;
    if c == [] {
      OneOk(id, e);
    } else if c[0].id != id {
      TailOk(c);
      HeadApart(c);
      StoredOk(c[1..], id, e);
      JoinOk(c, Stored(c[1..], id, e));
    } else {
      ReplaceOk(c, e);
      assert c == [c[0]] + c[1..];
    }
  }

  lemma OneOk<V>(id: nat, e: Entry<V>)
    ensures ChainOk([Item(id, e)])
  {
  }

  lemma JoinOk<V>(c: seq<Item<V>>, w: seq<Item<V>>)
    requires ChainOk(c) && c != [] && ChainOk(w) && forall a :: a in w ==> a.id != c[0].id && a.id != COMMITTED
    ensures ChainOk([c[0]] + w)
  {
    var k := [c[0]] + w;
    forall j | 0 < j < |k| ensures k[j].id != COMMITTED && k[j].id != k[0].id { assert k[j] == w[j - 1]; }
  }

  lemma ReplaceOk<V>(c: seq<Item<V>>, e: Entry<V>)
    requires ChainOk(c) && c != [] && c[0].id != COMMITTED
    ensures ChainOk([Item(c[0].id, e)] + c[1..])
  {
  }

  lemma {:induction false} StoredFind<V>(c: seq<Item<V>>, id: int, e: Entry<V>, u: int)
    ensures Find(Stored(c, id, e), u) == if u == id then Some(e) else Find(c, u)
  {
    if c != [] && c[0].id != id {
      StoredFind(c[1..], id, e, u);
      assert Stored(c, id, e)[1..] == Stored(c[1..], id, e);
    } else if c != [] {
      assert Stored(c, id, e)[1..] == c[1..];
    }
  }

  lemma KeptOk<V>(c: seq<Item<V>>, id: nat, e: Entry<V>)
    requires ChainOk(c)
    ensures ChainOk(Kept(c, id, e))
    ensures forall a :: a in Kept(c, id, e) ==> a.id == COMMITTED || (a in c && a.id != id)
  {
    hide ChainOk, Without;
    WithoutOk(c, id);
    var rest := Without(c, id);
    if e.Put? {
      if rest != [] && rest[0].id == COMMITTED {
        TailOk(rest);
        HeadApart(rest);
        FrontOk(e, rest[1..]);
        assert forall a :: a in rest[1..] ==> a in rest;
      } else {
        NoneCommitted(rest);
        FrontOk(e, rest);
        forall a | a in rest ensures a in c && a.id != id { assert a in Without(c, id); }
      }
    }
  }

  lemma NoneCommitted<V>(c: seq<Item<V>>)
    requires ChainOk(c) && (c != [] ==> c[0].id != COMMITTED)
    ensures forall a :: a in c ==> a.id != COMMITTED
  {
  }

  lemma FrontOk<V>(e: Entry<V>, low: seq<Item<V>>)
    requires ChainOk(low) && e.Put? && forall a :: a in low ==> a.id != COMMITTED
    ensures ChainOk([Item(COMMITTED, e)] + low)
  {
    var k := [Item(COMMITTED, e)] + low;
    forall j | 0 < j < |k| ensures k[j].id != COMMITTED { assert k[j] == low[j - 1]; }
  }

  lemma KeptFind<V>(c: seq<Item<V>>, id: nat, e: Entry<V>, u: nat)
    requires ChainOk(c)
    ensures Find(Kept(c, id, e), u) == if u == id then None else Find(c, u)
  {
    hide ChainOk, Without;
    WithoutFind(c, id, u);
    var rest, k := Without(c, id), Kept(c, id, e);
    if e.Put? {
      assert k[1..] == if rest != [] && rest[0].id == COMMITTED then rest[1..] else rest;
    }
  }

  lemma KeptBase<V>(c: seq<Item<V>>, id: nat, e: Entry<V>)
    requires ChainOk(c)
    ensures Base(Kept(c, id, e)) == if e.Put? then Some(e.value) else Base(c)
  {
    hide ChainOk, Without;
    WithoutFind(c, id, COMMITTED);
  }

  /** A committed version is the head of its chain. */
  lemma CommittedFirst<V>(c: seq<Item<V>>)
    requires ChainOk(c)
    ensures Find(c, COMMITTED).Some? <==> c != [] && c[0].id == COMMITTED
    ensures c != [] && c[0].id == COMMITTED ==> Base(c) == Some(c[0].entry.value)
    ensures c != [] ==> c[0].id >= COMMITTED
  {
    FindWhere(c, COMMITTED);
  }

  lemma {:induction false} WithoutAbsent<V>(c: seq<Item<V>>, id: int)
    requires Find(c, id).None?
    ensures Without(c, id) == c
  {
    if c != [] { WithoutAbsent(c[1..], id); }
  }

  lemma {:induction false} WithoutAt<V>(c: seq<Item<V>>, id: int, j: nat)
    requires j < |c| && c[j].id == id && forall i :: 0 <= i < j ==> c[i].id != id
    ensures Without(c, id) == c[..j] + c[j + 1..]
  {
    if j > 0 {
      WithoutAt(c[1..], id, j - 1);
      assert c[1..][..j - 1] == c[1..j] && c[1..][j..] == c[j + 1..];
    }
  }

  lemma {:induction false} StoredAt<V>(c: seq<Item<V>>, id: int, e: Entry<V>, j: nat)
    requires j < |c| && c[j].id == id && forall i :: 0 <= i < j ==> c[i].id != id
    ensures Stored(c, id, e) == c[j := Item(id, e)]
  {
    if j > 0 {
      StoredAt(c[1..], id, e, j - 1);
      assert c[j := Item(id, e)] == [c[0]] + c[1..][j - 1 := Item(id, e)];
    } else {
      assert c[0 := Item(id, e)] == [Item(id, e)] + c[1..];
    }
  }

  lemma {:induction false} StoredNew<V>(c: seq<Item<V>>, id: int, e: Entry<V>)
    requires forall i :: 0 <= i < |c| ==> c[i].id != id
    ensures Stored(c, id, e) == c + [Item(id, e)]
  {
    if c != [] { StoredNew(c[1..], id, e); }
  }
}
