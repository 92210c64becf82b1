/** Outputs, indices and the invariants of the causally ordered instances. */
module CausalTypes {
  import opened Events

  type Output = nat
  type Owner = nat

  /** An index is the hash of the outputs it consumes, in order; hashes are taken as injective. */
  datatype Index = Index(consumes: seq<Output>)

  /** A live instance: its place in the list ordered by progress, and when it last made any. */
  datatype Item = Item(position: nat, lastProgress: nat)

  /** An output of a decision, with the key that owns it. */
  datatype Child = Child(id: Output, owner: Owner)

  datatype GenResult = Exists | Created | ParentNotFound | NotOwner

  /** How a decision ends: it completes, or the program stops at the first input without an owner or,
      while consuming, at the first input whose parent is not found. */
  datatype DoneResult = Completed | NoOwner(position: nat) | NoParent(position: nat)

  ghost predicate NoDup<T>(s: seq<T>) {
    forall i, j :: 0 <= i < j < |s| ==> s[i] != s[j]
  }

  function SetOf(s: seq<Output>): set<Output> {
    set o | o in s
  }

  /** `m` with every output of `s` mapped to `d`. */
  function Assign(m: map<Output, Index>, s: seq<Output>, d: Index): map<Output, Index> {
    m + map o | o in s :: d
  }

  // ----- The list ordered by progress -----

  /** The list is a permutation of the live items, and each item knows its place. */
  ghost predicate Placed(sorted: seq<Index>, items: map<Index, Item>) {
    && (forall i :: 0 <= i < |sorted| ==> sorted[i] in items && items[sorted[i]].position == i)
    && forall x :: x in items ==> items[x].position < |sorted| && sorted[items[x].position] == x
  }

  /** The list is ordered by the time of the last progress, and no time is in the future. */
  ghost predicate Timed(sorted: seq<Index>, items: map<Index, Item>, clock: nat) {
    && (forall i :: 0 <= i < |sorted| ==> sorted[i] in items && items[sorted[i]].lastProgress <= clock)
    && forall i, j :: 0 <= i < j < |sorted| && sorted[i] in items && sorted[j] in items ==>
        items[sorted[i]].lastProgress <= items[sorted[j]].lastProgress
  }

  /** `t` is `s` with the elements from `a` up to `b` taken out and put at the end, last one first. */
  ghost predicate Moved<T>(s: seq<T>, t: seq<T>, a: nat, b: nat)
    requires a <= b <= |s|
  {
    && |t| == |s|
    && (forall j :: 0 <= j < a ==> t[j] == s[j])
    && (forall j :: a <= j < |s| - (b - a) ==> t[j] == s[j + (b - a)])
    && forall j :: |s| - (b - a) <= j < |s| ==> t[j] == s[a + (|s| - 1 - j)]
  }

  /** The items after the move: the moved ones have new times, and all have new places. */
  ghost predicate Refreshed(s: seq<Index>, items: map<Index, Item>, t: seq<Index>, after: map<Index, Item>, a: nat, b: nat, now: nat)
    requires a <= b <= |s|
  {
    && after.Keys == items.Keys
    && Moved(s, t, a, b) && Placed(t, after)
    && forall x :: x in items ==> after[x].lastProgress == if a <= items[x].position < b then now else items[x].lastProgress
  }

  /** The move keeps the list ordered: what moves to the end has the newest time. */
  lemma RefreshedTimes(s: seq<Index>, items: map<Index, Item>, t: seq<Index>, after: map<Index, Item>, a: nat, b: nat, clock: nat, now: nat)
    requires a <= b <= |s| && Placed(s, items) && Timed(s, items, clock) && clock <= now
    requires Refreshed(s, items, t, after, a, b, now)
    ensures Timed(t, after, now)
  {
    hide Placed, Moved, Refreshed;
    SameLength(s, items, t, after, a, b, now);
    forall j | 0 <= j < |t| ensures t[j] in after && after[t[j]].lastProgress <= now {
      TimeAfter(s, items, t, after, a, b, now, j);
      if j < |s| - (b - a) { LowTime(s, items, t, a, b, clock, j); }
    }
    forall i, j | 0 <= i < j < |t| && t[i] in after && t[j] in after
      ensures after[t[i]].lastProgress <= after[t[j]].lastProgress
    {
      TimeAfter(s, items, t, after, a, b, now, i);
      TimeAfter(s, items, t, after, a, b, now, j);
      if j < |s| - (b - a) { OrderKept(s, items, t, a, b, clock, i, j); } else if i < |s| - (b - a) { LowTime(s, items, t, a, b, clock, i); }
    }
  }

  lemma SameLength(s: seq<Index>, items: map<Index, Item>, t: seq<Index>, after: map<Index, Item>, a: nat, b: nat, now: nat)
    requires a <= b <= |s| && Refreshed(s, items, t, after, a, b, now)
    ensures |t| == |s| && Moved(s, t, a, b)
  {
    hide Placed;
  }

  lemma TimeAfter(s: seq<Index>, items: map<Index, Item>, t: seq<Index>, after: map<Index, Item>, a: nat, b: nat, now: nat, j: nat)
    requires a <= b <= |s| && Placed(s, items) && Refreshed(s, items, t, after, a, b, now) && j < |s| == |t|
    ensures t[j] in items && t[j] in after
    ensures after[t[j]].lastProgress == if j < |s| - (b - a) then items[t[j]].lastProgress else now
  {
    var k := if j < a then j else if j < |s| - (b - a) then j + (b - a) else a + (|s| - 1 - j);
    assert t[j] == s[k];
  }

  lemma OrderKept(s: seq<Index>, items: map<Index, Item>, t: seq<Index>, a: nat, b: nat, clock: nat, i: nat, j: nat)
    requires a <= b <= |s| && Placed(s, items) && Timed(s, items, clock) && Moved(s, t, a, b)
    requires i < j < |s| - (b - a)
    ensures t[i] in items && t[j] in items && items[t[i]].lastProgress <= items[t[j]].lastProgress
  {
    var k := if i < a then i else i + (b - a);
    var l := if j < a then j else j + (b - a);
    assert t[i] == s[k] && t[j] == s[l];
  }

  lemma LowTime(s: seq<Index>, items: map<Index, Item>, t: seq<Index>, a: nat, b: nat, clock: nat, i: nat)
    requires a <= b <= |s| && Placed(s, items) && Timed(s, items, clock) && Moved(s, t, a, b) && i < |s| - (b - a)
    ensures t[i] in items && items[t[i]].lastProgress <= clock
  {
    assert t[i] == s[if i < a then i else i + (b - a)];
  }

  /** The list can only be a permutation: as many places as items. */
  lemma {:induction false} PlacedIsPermutation(sorted: seq<Index>, items: map<Index, Item>)
    requires Placed(sorted, items)
    ensures (set x | x in sorted) == items.Keys && NoDup(sorted)
  {
    forall x | x in items ensures x in sorted { assert sorted[items[x].position] == x; }
  }

  // ----- Outputs and their parents -----

  /** Every unconsumed output is listed by its parent, once, and every listed output is unconsumed;
      no parent without outputs is kept. */
  ghost predicate Linked(childToParent: map<Output, Index>, parentToChild: map<Index, seq<Output>>) {
    && (forall o :: o in childToParent ==> childToParent[o] in parentToChild && o in parentToChild[childToParent[o]])
    && forall p :: p in parentToChild ==> Family(childToParent, p, parentToChild[p])
  }

  ghost predicate Family(childToParent: map<Output, Index>, p: Index, outputs: seq<Output>) {
    outputs != [] && NoDup(outputs) && forall o :: o in outputs ==> o in childToParent && childToParent[o] == p
  }

  /** `t` is `s` without its element `x`, the last one moved into the gap. */
  ghost predicate SwappedOut(s: seq<Output>, t: seq<Output>, x: Output) {
    |t| + 1 == |s| && forall y :: y in t <==> y in s && y != x
  }

  lemma LinkedDrop(c: map<Output, Index>, p2c: map<Index, seq<Output>>, o: Output, rest: seq<Output>)
    requires Linked(c, p2c) && o in c && SwappedOut(p2c[c[o]], rest, o) && NoDup(rest)
    ensures rest != [] ==> Linked(c - {o}, p2c[c[o] := rest])
    ensures rest == [] ==> Linked(c - {o}, p2c - {c[o]})
  {
    var p := c[o];
    forall q | q in p2c && q != p ensures Family(c - {o}, q, p2c[q]) {
      assert Family(c, q, p2c[q]);
    }
    assert Family(c, p, p2c[p]);
    forall x | x in c - {o} ensures c[x] == p ==> x in rest {
    }
    if rest != [] {
      assert Family(c - {o}, p, rest);
    } else {
      forall x | x in c - {o} ensures c[x] != p { }
    }
  }

  lemma LinkedAdd(c: map<Output, Index>, p2c: map<Index, seq<Output>>, d: Index, outputs: seq<Output>)
    requires Linked(c, p2c) && d !in p2c && outputs != [] && NoDup(outputs)
    requires forall o :: o in outputs ==> o !in c
    ensures Linked(Assign(c, outputs, d), p2c[d := outputs])
  {
    hide NoDup;
    var c' := Assign(c, outputs, d);
    forall q | q in p2c ensures Family(c', q, p2c[q]) {
      assert Family(c, q, p2c[q]);
    }
    assert Family(c', d, outputs);
  }

  // ----- Who consumed what -----

  /** Every output ever created is unconsumed, and then has its parent, or was consumed by an index
      that decided and names it; never both. */
  ghost predicate Conserved(origin: map<Output, Index>, childToParent: map<Output, Index>, consumer: map<Output, Index>, decided: set<Index>) {
    && origin.Keys == childToParent.Keys + consumer.Keys
    && childToParent.Keys !! consumer.Keys
    && (forall o :: o in childToParent ==> origin[o] == childToParent[o])
    && forall o :: o in consumer ==> consumer[o] in decided && o in consumer[o].consumes
  }

  /** A decided index has consumed all it names. */
  ghost predicate Spent(consumer: map<Output, Index>, decided: set<Index>) {
    forall d :: d in decided ==> d.consumes != [] && SpentBy(consumer, d)
  }

  ghost predicate SpentBy(consumer: map<Output, Index>, d: Index) {
    forall o :: o in d.consumes ==> o in consumer && consumer[o] == d
  }

  /** The consumer of an output is on the list kept for its parent. */
  ghost predicate Recorded(origin: map<Output, Index>, consumer: map<Output, Index>, consumers: map<Index, seq<Index>>) {
    && (forall p :: p in consumers ==> NoDup(consumers[p]))
    && forall o :: o in consumer ==> o in origin && origin[o] in consumers && consumer[o] in consumers[origin[o]]
  }

  /** No list of consumers has lost an entry. */
  ghost predicate OnlyMore(a: map<Index, seq<Index>>, b: map<Index, seq<Index>>) {
    forall p, x :: p in a && x in a[p] ==> p in b && x in b[p]
  }

  /** What `b` lists beyond `a` is `x`, as a consumer of one of `parents`. */
  ghost predicate OnlyAdded(a: map<Index, seq<Index>>, b: map<Index, seq<Index>>, x: Index, parents: set<Index>) {
    forall p, y :: p in b && y in b[p] ==> (p in a && y in a[p]) || (y == x && p in parents)
  }

  /** The parents of the outputs `s`. */
  ghost function ParentsOf(c: map<Output, Index>, s: seq<Output>): set<Index> {
    set o | o in s && o in c :: c[o]
  }

  /** Every output ever created has the owner it was created with, and the owners on record are these. */
  ghost predicate Owned(origin: map<Output, Index>, owner: map<Output, Owner>, ownerOf: map<Output, Owner>) {
    ownerOf.Keys == origin.Keys && forall o :: o in owner ==> o in ownerOf && owner[o] == ownerOf[o]
  }

  /** What is left of the items keeps its times and its order. */
  ghost predicate StillOrdered(before: map<Index, Item>, after: map<Index, Item>) {
    && after.Keys <= before.Keys
    && (forall x :: x in after ==> after[x].lastProgress == before[x].lastProgress)
    && forall x, y :: x in after && y in after && before[x].position < before[y].position ==> after[x].position < after[y].position
  }

  /** The live instances are the decided ones with outputs left and the undecided ones. */
  ghost predicate Accounted(items: set<Index>, machines: set<Index>, parents: set<Index>, pending: set<Index>) {
    items == machines && items == parents + pending && parents !! pending
  }

  ghost predicate Undecided(pending: map<Index, seq<Output>>, decided: set<Index>) {
    forall x :: x in pending ==> pending[x] == x.consumes && x.consumes != [] && x !in decided
  }

  /** What allocating an index over `outputs` meets first, from the `i`-th on. */
  function FirstProblem(outputs: seq<Output>, i: nat, childToParent: map<Output, Index>, owner: map<Output, Owner>): (r: GenResult)
    requires i <= |outputs| && childToParent.Keys == owner.Keys
    requires i > 0 ==> outputs[0] in owner
    ensures r == Created <==> forall j :: i <= j < |outputs| ==> outputs[j] in owner && outputs[0] in owner && owner[outputs[j]] == owner[outputs[0]]
    ensures r != Exists
    decreases |outputs| - i
  {
    if i == |outputs| then Created
    else if outputs[i] !in childToParent then ParentNotFound
    else if owner[outputs[i]] != owner[outputs[0]] then NotOwner
    else FirstProblem(outputs, i + 1, childToParent, owner)
  }

  /** The outputs from `i` up to `j` are there and have the owner of the first one. */
  ghost predicate Fine(outputs: seq<Output>, i: nat, j: nat, owner: map<Output, Owner>)
    requires j <= |outputs|
  {
    forall k :: i <= k < j ==> outputs[k] in owner && outputs[0] in owner && owner[outputs[k]] == owner[outputs[0]]
  }

  /** The problem reported is that of the first output that has one. */
  lemma {:induction false} FirstProblemFound(outputs: seq<Output>, i: nat, childToParent: map<Output, Index>, owner: map<Output, Owner>) returns (j: nat)
    requires i <= |outputs| && childToParent.Keys == owner.Keys && (i > 0 ==> outputs[0] in owner)
    ensures i <= j <= |outputs| && Fine(outputs, i, j, owner)
    ensures var r := FirstProblem(outputs, i, childToParent, owner);
      if j == |outputs| then r == Created
      else if outputs[j] !in owner then r == ParentNotFound
      else outputs[0] in owner && owner[outputs[j]] != owner[outputs[0]] && r == NotOwner
    decreases |outputs| - i
  {
    if i < |outputs| && outputs[i] in owner && owner[outputs[i]] == owner[outputs[0]] {
      j := FirstProblemFound(outputs, i + 1, childToParent, owner);
    } else {
      j := i;
    }
  }

  /** An index that has decided cannot be allocated again: its inputs are gone. */
  lemma DecidedIsGone(origin: map<Output, Index>, c: map<Output, Index>, consumer: map<Output, Index>, decided: set<Index>, d: Index)
    requires Conserved(origin, c, consumer, decided) && Spent(consumer, decided) && d in decided
    ensures d.consumes != [] && d.consumes[0] !in c
  {
    assert SpentBy(consumer, d);
    assert d.consumes[0] in d.consumes;
  }

  // ----- Steps of a decision -----

  lemma ConservedAdd(origin: map<Output, Index>, c: map<Output, Index>, consumer: map<Output, Index>, decided: set<Index>, outputs: seq<Output>, d: Index)
    requires Conserved(origin, c, consumer, decided) && forall o :: o in outputs ==> o !in origin
    ensures Conserved(Assign(origin, outputs, d), Assign(c, outputs, d), consumer, decided)
    ensures forall o :: o in outputs ==> o !in c
  {
  }

  lemma ConservedMore(origin: map<Output, Index>, c: map<Output, Index>, consumer: map<Output, Index>, decided: set<Index>, d: Index)
    requires Conserved(origin, c, consumer, decided)
    ensures Conserved(origin, c, consumer, decided + {d})
  {
  }

  lemma RecordedAdd(origin: map<Output, Index>, consumer: map<Output, Index>, consumers: map<Index, seq<Index>>, outputs: seq<Output>, d: Index)
    requires Recorded(origin, consumer, consumers) && forall o :: o in outputs ==> o !in origin
    ensures Recorded(Assign(origin, outputs, d), consumer, consumers)
  {
    hide NoDup;
  }

  lemma ConservedUse(origin: map<Output, Index>, c: map<Output, Index>, consumer: map<Output, Index>, decided: set<Index>, o: Output, d: Index)
    requires Conserved(origin, c, consumer, decided) && o in c && d in decided && o in d.consumes
    ensures Conserved(origin, c - {o}, consumer[o := d], decided) && o !in consumer && o in origin && origin[o] == c[o]
  {
  }

  lemma RecordedUse(origin: map<Output, Index>, consumer: map<Output, Index>, consumers: map<Index, seq<Index>>, o: Output, d: Index)
    requires Recorded(origin, consumer, consumers) && o in origin && origin[o] in consumers && d in consumers[origin[o]]
    ensures Recorded(origin, consumer[o := d], consumers)
  {
    hide NoDup;
  }

  lemma SpentUse(consumer: map<Output, Index>, decided: set<Index>, o: Output, d: Index)
    requires Spent(consumer, decided) && o !in consumer
    ensures Spent(consumer[o := d], decided)
  {
    forall x | x in decided ensures SpentBy(consumer[o := d], x) { assert SpentBy(consumer, x); }
  }

  // ----- When a decision completes -----

  /** The first position from `i` on whose output is not there to be consumed. */
  function FirstMissing(outputs: seq<Output>, i: nat, there: set<Output>): (k: nat)
    requires i <= |outputs|
    ensures i <= k <= |outputs| && (k < |outputs| ==> outputs[k] !in there) && forall j :: i <= j < k ==> outputs[j] in there
    decreases |outputs| - i
  {
    if i == |outputs| || outputs[i] !in there then i else FirstMissing(outputs, i + 1, there)
  }

  /** The first position from `i` on whose output was named before. */
  function FirstRepeat(outputs: seq<Output>, i: nat): (k: nat)
    requires i <= |outputs|
    ensures i <= k <= |outputs| && (k < |outputs| ==> outputs[k] in outputs[..k]) && forall j :: i <= j < k ==> outputs[j] !in outputs[..j]
    decreases |outputs| - i
  {
    if i == |outputs| || outputs[i] in outputs[..i] then i else FirstRepeat(outputs, i + 1)
  }

  function DoneOutcome(outputs: seq<Output>, there: set<Output>): DoneResult {
    if FirstMissing(outputs, 0, there) < |outputs| then NoOwner(FirstMissing(outputs, 0, there))
    else if FirstRepeat(outputs, 0) < |outputs| then NoParent(FirstRepeat(outputs, 0))
    else Completed
  }

  /** A decision completes exactly when its inputs are distinct and all there. */
  lemma CompletesExactly(outputs: seq<Output>, there: set<Output>)
    ensures DoneOutcome(outputs, there) == Completed <==> NoDup(outputs) && forall o :: o in outputs ==> o in there
  {
    var k, l := FirstMissing(outputs, 0, there), FirstRepeat(outputs, 0);
    if k < |outputs| {
      assert outputs[k] in outputs;
    } else if l < |outputs| {
      var j :| 0 <= j < l && outputs[..l][j] == outputs[l];
      assert outputs[j] == outputs[l];
    } else {
      forall i, j | 0 <= i < j < |outputs| ensures outputs[i] != outputs[j] {
        assert outputs[..j][i] == outputs[i];
      }
    }
  }

  /** Of the indices that can be allocated, exactly those that name no output twice can be decided right
      away: allocation does not look for repeated inputs. */
  lemma AllocatedCompletes(outputs: seq<Output>, childToParent: map<Output, Index>, owner: map<Output, Owner>)
    requires childToParent.Keys == owner.Keys && FirstProblem(outputs, 0, childToParent, owner) == Created
    ensures DoneOutcome(outputs, owner.Keys) == Completed <==> NoDup(outputs)
    ensures !NoDup(outputs) ==> DoneOutcome(outputs, owner.Keys) == NoParent(FirstRepeat(outputs, 0))
  {
    CompletesExactly(outputs, owner.Keys);
    forall o | o in outputs ensures o in owner {
      var j :| 0 <= j < |outputs| && outputs[j] == o;
    }
  }
}
