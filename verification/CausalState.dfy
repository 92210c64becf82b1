/** The causally ordered instances: which outputs are unconsumed, who consumed the others, which
    instances are live, and the list of live instances ordered by progress. */
module CausalState {
  import opened Events
  import opened CausalTypes

  class State {
    const initHash: Index
    /** The list ordered by progress. */
    var sorted: seq<Index>
    var items: map<Index, Item>
    /** The instances with a state machine. */
    var machines: set<Index>
    var childToParent: map<Output, Index>
    var parentToChild: map<Index, seq<Output>>
    var outputToOwner: map<Output, Owner>
    var parentToChildConsumers: map<Index, seq<Index>>
    var outputToConsumer: map<Output, Index>
    var itemToConsumedOutputs: map<Index, seq<Output>>
    var decided: set<Index>
    /** The last time read. */
    var clock: nat
    /** The parent of every output ever created. */
    ghost var origin: map<Output, Index>
    /** The owner every output was created with. */
    ghost var ownerOf: map<Output, Owner>

    ghost predicate ListOk()
      reads this`sorted, this`items, this`clock
    {
      Placed(sorted, items) && Timed(sorted, items, clock)
    }

    ghost predicate Valid()
      reads this
    {
      && ListOk() && Books(itemToConsumedOutputs.Keys)
      && Conserved(origin, childToParent, outputToConsumer, decided) && Spent(outputToConsumer, decided)
      && Recorded(origin, outputToConsumer, parentToChildConsumers) && Owned(origin, outputToOwner, ownerOf)
      && Undecided(itemToConsumedOutputs, decided)
      && InitApart() && parentToChild.Keys <= decided + {initHash}
    }

    /** The maps about outputs and live instances fit together. */
    ghost predicate Books(pending: set<Index>)
      reads this`items, this`machines, this`childToParent, this`parentToChild, this`outputToOwner
    {
      && Linked(childToParent, parentToChild) && outputToOwner.Keys == childToParent.Keys
      && Accounted(items.Keys, machines, parentToChild.Keys, pending)
    }

    /** The initial index never ran: it is not decided, not pending, and names no output. */
    ghost predicate InitApart()
      reads this`decided, this`itemToConsumedOutputs, this`origin
    {
      && initHash !in decided && initHash !in itemToConsumedOutputs
      && |initHash.consumes| == 1 && initHash.consumes[0] !in origin
    }

    /** Starts with the outputs of the initial index. */
    constructor (initFirst: Output, outputs: seq<Child>)
      requires outputs != [] && NoDup(Ids(outputs)) && initFirst !in Ids(outputs)
      ensures Valid() && initHash == Index([initFirst])
      ensures childToParent.Keys == set o | o in Ids(outputs)
      ensures forall i :: 0 <= i < |outputs| ==> outputs[i].id in outputToOwner && outputToOwner[outputs[i].id] == outputs[i].owner
      ensures forall o :: o in Ids(outputs) ==> childToParent[o] == initHash
      ensures decided == {} && outputToConsumer == map[] && items.Keys == {initHash}
      ensures itemToConsumedOutputs == map[] && parentToChildConsumers == map[]
    {
      hide Valid, NoDup;
      initHash := Index([initFirst]);
      sorted := [Index([initFirst])];
      items := map[Index([initFirst]) := Item(0, 0)];
      machines := {Index([initFirst])};
      childToParent := map o | o in Ids(outputs) :: Index([initFirst]);
      parentToChild := map[Index([initFirst]) := Ids(outputs)];
      outputToOwner := Owners(outputs);
      parentToChildConsumers, outputToConsumer, itemToConsumedOutputs := map[], map[], map[];
      decided := {};
      clock := 0;
      origin := map o | o in Ids(outputs) :: Index([initFirst]);
      ownerOf := Owners(outputs);
      new;
      OwnersAre(outputs);
      Starts(outputs);
    }

    lemma Starts(outputs: seq<Child>)
      requires outputs != [] && NoDup(Ids(outputs)) && |initHash.consumes| == 1 && initHash.consumes[0] !in Ids(outputs)
      requires sorted == [initHash] && items == map[initHash := Item(0, 0)] && machines == {initHash}
      requires childToParent == origin && origin.Keys == SetOf(Ids(outputs)) && forall o :: o in origin ==> origin[o] == initHash
      requires parentToChild == map[initHash := Ids(outputs)] && outputToOwner.Keys == SetOf(Ids(outputs)) && ownerOf == outputToOwner
      requires parentToChildConsumers == map[] && outputToConsumer == map[] && itemToConsumedOutputs == map[] && decided == {}
      ensures Valid()
    {
      hide Ids, NoDup;
      assert Family(childToParent, initHash, parentToChild[initHash]);
    }

    /** Every output ever created is either there to be consumed, with an owner and a live parent
        that lists it, or was consumed by a decided index that names it. */
    lemma OutputStatus(o: Output)
      requires Valid() && o in origin
      ensures o in childToParent <==> o !in outputToConsumer
      ensures o in childToParent ==>
        var p := origin[o];
        childToParent[o] == p && o in outputToOwner && outputToOwner[o] == ownerOf[o] && p in items && p in machines && p in parentToChild && o in parentToChild[p]
      ensures o in outputToConsumer ==>
        var d := outputToConsumer[o];
        o in d.consumes && d in decided && origin[o] in parentToChildConsumers && d in parentToChildConsumers[origin[o]]
    {
      hide ListOk, Spent, NoDup, Undecided;
    }

    // ----- Allocating an instance -----

    /** Allocates the instance that consumes the outputs of `x`, unless it exists, one of the outputs
        is not there to be consumed, or they have different owners. */
    method GenIndex(x: Index) returns (r: GenResult)
      requires Valid() && x.consumes != []
      modifies this
      ensures Valid()
      ensures x in old(items) ==> r == Exists
      ensures x !in old(items) ==> r == FirstProblem(x.consumes, 0, old(childToParent), old(outputToOwner))
      ensures r != Created ==> unchanged(this)
      ensures r == Created ==> x in items && sorted == old(sorted) + [x] && items == old(items)[x := Item(|old(sorted)|, clock)]
      ensures r == Created ==> itemToConsumedOutputs == old(itemToConsumedOutputs)[x := x.consumes] && x !in old(decided)
      ensures r == Created ==> Registered(x) && OnlyAdded(old(parentToChildConsumers), parentToChildConsumers, x, ParentsOf(childToParent, x.consumes))
      ensures childToParent == old(childToParent) && outputToOwner == old(outputToOwner) && outputToConsumer == old(outputToConsumer)
      ensures decided == old(decided) && origin == old(origin) && ownerOf == old(ownerOf) && OnlyMore(old(parentToChildConsumers), parentToChildConsumers)
    {
      hide *;
      SameMore(parentToChildConsumers);
      if x in items {
        return Exists;
      }
      Parts();
      var problem := CheckInputs(x.consumes, itemToConsumedOutputs.Keys);
      if problem != Created {
        return problem;
      }
      NewIsFresh(x);
      Allocate(x);
      r := Created;
    }

    method Allocate(x: Index)
      requires Valid() && x !in items && x !in decided && x != initHash && x.consumes != []
      requires forall o :: o in x.consumes ==> o in childToParent
      modifies this`parentToChildConsumers, this`itemToConsumedOutputs, this`machines, this`items, this`sorted, this`clock
      ensures Valid() && OnlyMore(old(parentToChildConsumers), parentToChildConsumers) && Registered(x)
      ensures OnlyAdded(old(parentToChildConsumers), parentToChildConsumers, x, ParentsOf(childToParent, x.consumes))
      ensures x in items && sorted == old(sorted) + [x] && items == old(items)[x := Item(|old(sorted)|, clock)]
      ensures itemToConsumedOutputs == old(itemToConsumedOutputs)[x := x.consumes]
    {
      hide *;
      Parts();
      MorePending(items.Keys, machines, parentToChild.Keys, itemToConsumedOutputs, decided, x);
      RegisterConsumer(x);
      itemToConsumedOutputs := itemToConsumedOutputs[x := x.consumes];
      machines := machines + {x};
      ghost var live := items;
      AppendItem(x);
      assert items.Keys == live.Keys + {x};
      BooksKept(itemToConsumedOutputs.Keys);
      Closing();
    }

    lemma Parts()
      requires Valid()
      ensures ListOk() && Books(itemToConsumedOutputs.Keys) && outputToOwner.Keys == childToParent.Keys
      ensures Linked(childToParent, parentToChild) && Accounted(items.Keys, machines, parentToChild.Keys, itemToConsumedOutputs.Keys)
      ensures Conserved(origin, childToParent, outputToConsumer, decided) && Spent(outputToConsumer, decided)
      ensures Recorded(origin, outputToConsumer, parentToChildConsumers) && Owned(origin, outputToOwner, ownerOf)
      ensures Undecided(itemToConsumedOutputs, decided) && parentToChild.Keys <= decided + {initHash}
      ensures initHash !in decided && initHash !in itemToConsumedOutputs && |initHash.consumes| == 1 && initHash.consumes[0] !in origin
    {
      hide ListOk, Linked, Conserved, Spent, Recorded, Undecided, Accounted, Owned;
    }

    /** Looks at the outputs in turn; the parent of an unconsumed output is always live. */
    method CheckInputs(outputs: seq<Output>, ghost pending: set<Index>) returns (r: GenResult)
      requires Books(pending) && outputs != []
      ensures r == FirstProblem(outputs, 0, childToParent, outputToOwner)
    {
      hide FirstProblem;
      var i := 0;
      while i < |outputs|
        invariant 0 <= i <= |outputs| && (i > 0 ==> outputs[0] in outputToOwner)
        invariant FirstProblem(outputs, 0, childToParent, outputToOwner) == FirstProblem(outputs, i, childToParent, outputToOwner)
      {
        ProblemStep(outputs, i, childToParent, outputToOwner);
        if outputs[i] !in childToParent {
          return ParentNotFound;
        }
        // the parent, its owner and its state machine are found
        assert childToParent[outputs[i]] in items && outputs[i] in outputToOwner && childToParent[outputs[i]] in machines;
        if outputToOwner[outputs[i]] != outputToOwner[outputs[0]] {
          return NotOwner;
        }
        i := i + 1;
      }
      r := Created;
    }

    lemma NewIsFresh(x: Index)
      requires Conserved(origin, childToParent, outputToConsumer, decided) && Spent(outputToConsumer, decided)
      requires |initHash.consumes| == 1 && initHash.consumes[0] !in origin
      requires x.consumes != [] && childToParent.Keys == outputToOwner.Keys
      requires FirstProblem(x.consumes, 0, childToParent, outputToOwner) == Created
      ensures x !in decided && x != initHash
      ensures forall o :: o in x.consumes ==> o in childToParent
    {
      hide FirstProblem;
      if x in decided { DecidedIsGone(origin, childToParent, outputToConsumer, decided, x); }
    }

    /** The parent of every output that `x` names has `x` on its list of consumers. */
    ghost predicate Registered(x: Index)
      reads this`childToParent, this`parentToChildConsumers
    {
      forall o :: o in x.consumes ==> o in childToParent && childToParent[o] in parentToChildConsumers && x in parentToChildConsumers[childToParent[o]]
    }

    /** Puts `x` on the list of consumers of the parent of every output it names. */
    method RegisterConsumer(x: Index)
      requires forall o :: o in x.consumes ==> o in childToParent
      requires Recorded(origin, outputToConsumer, parentToChildConsumers)
      modifies this`parentToChildConsumers
      ensures Recorded(origin, outputToConsumer, parentToChildConsumers)
      ensures OnlyMore(old(parentToChildConsumers), parentToChildConsumers)
      ensures Registered(x) && OnlyAdded(old(parentToChildConsumers), parentToChildConsumers, x, ParentsOf(childToParent, x.consumes))
    {
      hide Recorded, NoDup;
      SameMore(parentToChildConsumers);
      var i := 0;
      while i < |x.consumes|
        invariant 0 <= i <= |x.consumes| && Recorded(origin, outputToConsumer, parentToChildConsumers)
        invariant OnlyMore(old(parentToChildConsumers), parentToChildConsumers)
        invariant OnlyAdded(old(parentToChildConsumers), parentToChildConsumers, x, ParentsOf(childToParent, x.consumes))
        invariant forall j :: 0 <= j < i ==> childToParent[x.consumes[j]] in parentToChildConsumers && x in parentToChildConsumers[childToParent[x.consumes[j]]]
      {
        AddChildConsumerToParent(childToParent[x.consumes[i]], x);
        i := i + 1;
      }
    }

    method AddChildConsumerToParent(p: Index, x: Index)
      requires Recorded(origin, outputToConsumer, parentToChildConsumers)
      modifies this`parentToChildConsumers
      ensures Recorded(origin, outputToConsumer, parentToChildConsumers)
      ensures p in parentToChildConsumers && x in parentToChildConsumers[p]
      ensures OnlyMore(old(parentToChildConsumers), parentToChildConsumers)
      ensures OnlyAdded(old(parentToChildConsumers), parentToChildConsumers, x, {p})
    {
      var list := if p in parentToChildConsumers then parentToChildConsumers[p] else [];
      if x !in list {
        parentToChildConsumers := parentToChildConsumers[p := list + [x]];
      }
    }

    method AppendItem(x: Index)
      requires ListOk() && x !in items
      modifies this`sorted, this`items, this`clock
      ensures ListOk() && sorted == old(sorted) + [x] && items == old(items)[x := Item(|old(sorted)|, clock)]
    {
      Now();
      items := items[x := Item(|sorted|, clock)];
      sorted := sorted + [x];
    }

    // ----- Deciding an instance -----

    /** Records the decision of `d`, which consumes its inputs and creates `children`. It completes exactly
        when the inputs are distinct and all still there. */
    method DoneIndex(d: Index, children: seq<Child>) returns (res: DoneResult)
      requires Valid() && d in itemToConsumedOutputs
      requires NoDup(Ids(children)) && forall o :: o in Ids(children) ==> o !in origin && o != initHash.consumes[0]
      modifies this
      ensures res == DoneOutcome(d.consumes, old(outputToOwner).Keys)
      ensures res == Completed <==> NoDup(d.consumes) && forall o :: o in d.consumes ==> o in old(childToParent)
      ensures decided == old(decided) + {d}
      ensures res == Completed ==> Valid() && itemToConsumedOutputs == old(itemToConsumedOutputs) - {d}
      ensures res == Completed ==> childToParent == Assign(old(childToParent), Ids(children), d) - SetOf(d.consumes)
      ensures res == Completed ==> outputToOwner == (old(outputToOwner) + Owners(children)) - SetOf(d.consumes)
      ensures res == Completed ==> outputToConsumer == Assign(old(outputToConsumer), d.consumes, d)
      ensures res == Completed ==> origin == Assign(old(origin), Ids(children), d)
      ensures res == Completed ==> ownerOf == old(ownerOf) + Owners(children)
      ensures res == Completed ==> (d in items <==> children != []) && StillOrdered(old(items), items)
      ensures OnlyAdded(old(parentToChildConsumers), parentToChildConsumers, d, ParentsOf(old(childToParent), d.consumes))
      ensures OnlyMore(old(parentToChildConsumers), parentToChildConsumers)
    {
      hide *;
      SameMore(parentToChildConsumers);
      NoneAdded(parentToChildConsumers, d, ParentsOf(childToParent, d.consumes));
      OwnersAndParents(d);
      CompletesExactly(d.consumes, outputToOwner.Keys);
      OutcomeCases(d.consumes, outputToOwner.Keys);
      if forall o :: o in d.consumes ==> o in childToParent {
        Opening(d, children);
      }
      ghost var before := decided;
      assert (before + {d}) - {d} == before by { NotYetDecided(d); }
      decided := decided + {d};
      var found := FindOwners(d.consumes);
      if found < |d.consumes| {
        return NoOwner(found);
      }
      var done := Settle(d, children);
      res := if done < |d.consumes| then NoParent(done) else Completed;
    }

    /** Creates the outputs of `d` and consumes its inputs up to the first repeated one. */
    method Settle(d: Index, children: seq<Child>) returns (done: nat)
      requires d in decided && Opened(d, children, decided - {d}) && NoDup(Ids(children)) && forall o :: o in Ids(children) ==> o !in origin
      modifies this
      ensures done == FirstRepeat(d.consumes, 0) && decided == old(decided)
      ensures done == |d.consumes| ==> Valid() && itemToConsumedOutputs == old(itemToConsumedOutputs) - {d}
      ensures done == |d.consumes| ==> childToParent == Assign(old(childToParent), Ids(children), d) - SetOf(d.consumes)
      ensures done == |d.consumes| ==> outputToOwner == (old(outputToOwner) + Owners(children)) - SetOf(d.consumes)
      ensures done == |d.consumes| ==> outputToConsumer == Assign(old(outputToConsumer), d.consumes, d)
      ensures done == |d.consumes| ==> origin == Assign(old(origin), Ids(children), d)
      ensures done == |d.consumes| ==> ownerOf == old(ownerOf) + Owners(children)
      ensures done == |d.consumes| ==> (d in items <==> children != []) && StillOrdered(old(items), items)
      ensures OnlyAdded(old(parentToChildConsumers), parentToChildConsumers, d, ParentsOf(old(childToParent), d.consumes))
      ensures OnlyMore(old(parentToChildConsumers), parentToChildConsumers)
    {
      hide *;
      OpenedMeans(d, children);
      OwnedAdd(origin, outputToOwner, ownerOf, children, d);
      ParentsKept(childToParent, d.consumes, Ids(children), d);
      AddOutputs(d, children, itemToConsumedOutputs.Keys);
      ghost var added, owners := items, outputToOwner;
      // the index has inputs
      assert |itemToConsumedOutputs[d]| > 0;
      done := ConsumeAll(d, itemToConsumedOutputs.Keys - {d});
      if done < |d.consumes| {
        return;
      }
      ghost var pending := itemToConsumedOutputs;
      itemToConsumedOutputs := itemToConsumedOutputs - {d};
      assert itemToConsumedOutputs.Keys == pending.Keys - {d};
      OrderedTwice(old(items), added, items);
      OwnedLess(origin, owners, ownerOf, d.consumes);
      Closing();
    }

    /** The position of the first output without an owner. */
    method FindOwners(outputs: seq<Output>) returns (i: nat)
      ensures i == FirstMissing(outputs, 0, outputToOwner.Keys)
    {
      i := 0;
      while i < |outputs| && outputs[i] in outputToOwner
        invariant 0 <= i <= |outputs| && FirstMissing(outputs, 0, outputToOwner.Keys) == FirstMissing(outputs, i, outputToOwner.Keys)
      {
        i := i + 1;
      }
    }

    lemma OwnersAndParents(d: Index)
      requires Valid()
      ensures outputToOwner.Keys == childToParent.Keys
    {
      hide ListOk, Linked, Conserved, Spent, Recorded, Undecided, Accounted, Owned;
    }

    /** What holds before the outputs of `d` are entered, when `before` had decided before it. */
    ghost predicate Opened(d: Index, children: seq<Child>, before: set<Index>)
      reads this`sorted, this`items, this`clock, this`machines, this`childToParent, this`parentToChild, this`outputToOwner,
            this`outputToConsumer, this`parentToChildConsumers, this`itemToConsumedOutputs, this`origin, this`ownerOf
    {
      && ListOk() && Books(itemToConsumedOutputs.Keys) && d in itemToConsumedOutputs && d !in before
      && Conserved(origin, childToParent, outputToConsumer, before + {d}) && Spent(outputToConsumer, before)
      && Recorded(origin, outputToConsumer, parentToChildConsumers) && Owned(origin, outputToOwner, ownerOf)
      && itemToConsumedOutputs[d] == d.consumes && |d.consumes| > 0
      && Undecided(itemToConsumedOutputs - {d}, before + {d}) && parentToChild.Keys <= before + {initHash}
      && InputsThere(childToParent, Assign(childToParent, Ids(children), d), d)
      && initHash !in before + {d} && initHash !in itemToConsumedOutputs && |initHash.consumes| == 1
      && initHash.consumes[0] !in Assign(origin, Ids(children), d)
    }

    lemma Opening(d: Index, children: seq<Child>)
      requires Valid() && d in itemToConsumedOutputs && forall o :: o in d.consumes ==> o in childToParent
      requires forall o :: o in Ids(children) ==> o !in origin && o != initHash.consumes[0]
      ensures Opened(d, children, decided)
    {
      hide Linked, Conserved, Spent, Recorded, Undecided, Accounted, Placed, Timed, Assign, Ids, Owned;
      DecidesOnce(d);
      ConservedMore(origin, childToParent, outputToConsumer, decided, d);
      NotOwnParent(childToParent, parentToChild, items.Keys, machines, itemToConsumedOutputs.Keys, d);
      InputsAreOld(origin, childToParent, outputToConsumer, decided, Ids(children), d);
      AssignKeys(origin, Ids(children), d, initHash.consumes[0]);
    }

    lemma OpenedMeans(d: Index, children: seq<Child>)
      requires d in decided && Opened(d, children, decided - {d})
      ensures ListOk() && Books(itemToConsumedOutputs.Keys) && d in itemToConsumedOutputs
      ensures Conserved(origin, childToParent, outputToConsumer, decided) && Spent(outputToConsumer, decided - {d})
      ensures Recorded(origin, outputToConsumer, parentToChildConsumers) && Owned(origin, outputToOwner, ownerOf)
      ensures forall o :: o in d.consumes ==> o in childToParent
      ensures itemToConsumedOutputs[d] == d.consumes && |d.consumes| > 0
      ensures Undecided(itemToConsumedOutputs - {d}, decided) && parentToChild.Keys <= decided + {initHash}
      ensures forall o :: o in d.consumes ==> o in Assign(childToParent, Ids(children), d) && Assign(childToParent, Ids(children), d)[o] != d
      ensures initHash !in decided && initHash !in itemToConsumedOutputs && |initHash.consumes| == 1
      ensures initHash.consumes[0] !in Assign(origin, Ids(children), d)
    {
      hide ListOk, Books, Conserved, Spent, Recorded, Undecided, Assign, Owned;
      assert (decided - {d}) + {d} == decided;
    }

    lemma NotYetDecided(d: Index)
      requires Valid() && d in itemToConsumedOutputs
      ensures d !in decided
    {
      hide ListOk, Books, Conserved, Spent, Recorded;
    }

    lemma OnlyCreated()
      requires Valid() && outputToConsumer == map[]
      ensures origin.Keys == childToParent.Keys
    {
      hide ListOk, Books, Spent, Recorded, Undecided;
    }

    lemma Closing()
      requires ListOk() && Books(itemToConsumedOutputs.Keys)
      requires Conserved(origin, childToParent, outputToConsumer, decided) && Spent(outputToConsumer, decided)
      requires Recorded(origin, outputToConsumer, parentToChildConsumers) && Owned(origin, outputToOwner, ownerOf)
      requires Undecided(itemToConsumedOutputs, decided) && parentToChild.Keys <= decided + {initHash}
      requires initHash !in decided && initHash !in itemToConsumedOutputs && |initHash.consumes| == 1 && initHash.consumes[0] !in origin
      ensures Valid()
    {
      hide ListOk, Books, Conserved, Spent, Recorded, Undecided, Owned;
    }

    lemma DecidesOnce(d: Index)
      requires Undecided(itemToConsumedOutputs, decided) && d in itemToConsumedOutputs
      ensures d !in decided && itemToConsumedOutputs[d] == d.consumes != []
      ensures Undecided(itemToConsumedOutputs - {d}, decided + {d})
      ensures (decided + {d}) - {d} == decided
    {
    }

    /** Creates the outputs of `d`; without any, `d` is collected at once. */
    method AddOutputs(d: Index, children: seq<Child>, ghost pending: set<Index>)
      requires ListOk() && Books(pending) && d in pending && d in decided && NoDup(Ids(children))
      requires forall o :: o in Ids(children) ==> o !in origin
      requires Conserved(origin, childToParent, outputToConsumer, decided) && Recorded(origin, outputToConsumer, parentToChildConsumers)
      modifies this`sorted, this`items, this`machines, this`childToParent, this`parentToChild, this`outputToOwner, this`clock, this`origin, this`ownerOf
      ensures ListOk() && Books(pending - {d}) && StillOrdered(old(items), items) && (d in items <==> children != [])
      ensures Conserved(origin, childToParent, outputToConsumer, decided) && Recorded(origin, outputToConsumer, parentToChildConsumers)
      ensures childToParent == Assign(old(childToParent), Ids(children), d) && origin == Assign(old(origin), Ids(children), d)
      ensures outputToOwner == old(outputToOwner) + Owners(children) && ownerOf == old(ownerOf) + Owners(children)
      ensures parentToChild.Keys <= old(parentToChild.Keys) + {d}
    {
      hide *;
      BooksParts(d, pending);
      ConservedAdd(origin, childToParent, outputToConsumer, decided, Ids(children), d);
      RecordedAdd(origin, outputToConsumer, parentToChildConsumers, Ids(children), d);
      AssignOwners(childToParent, outputToOwner, children, d);
      SameOrder(items);
      if |children| > 0 {
        LinkedAdd(childToParent, parentToChild, d, Ids(children));
        FillOutputs(d, children);
        ghost var p2c := parentToChild;
        parentToChild := parentToChild[d := Ids(children)];
        assert parentToChild.Keys == p2c.Keys + {d};
      } else {
        AssignNone(childToParent, outputToOwner, children, d);
        AssignNone(origin, ownerOf, children, d);
        ghost var p2c := parentToChild;
        ParentGcIdx(d);
        assert parentToChild == p2c;
      }
      BooksKept(pending - {d});
    }

    lemma BooksParts(d: Index, pending: set<Index>)
      requires Books(pending) && d in pending
      ensures Linked(childToParent, parentToChild) && outputToOwner.Keys == childToParent.Keys
      ensures d in items && d in machines && d !in parentToChild
      ensures Accounted(items.Keys, machines, parentToChild.Keys + {d}, pending - {d})
      ensures Accounted(items.Keys - {d}, machines - {d}, parentToChild.Keys, pending - {d})
    {
      hide Linked;
    }

    /** Enters the parent and the owner of every new output. */
    method FillOutputs(d: Index, children: seq<Child>)
      modifies this`childToParent, this`outputToOwner, this`origin, this`ownerOf
      ensures childToParent == Assign(old(childToParent), Ids(children), d) && origin == Assign(old(origin), Ids(children), d)
      ensures outputToOwner == old(outputToOwner) + Owners(children) && ownerOf == old(ownerOf) + Owners(children)
    {
      hide Owners, Assign;
      ghost var c, o, r, w := childToParent, outputToOwner, origin, ownerOf;
      AssignNone(c, o, children[..0], d);
      AssignNone(r, w, children[..0], d);
      var i := 0;
      while i < |children|
        invariant 0 <= i <= |children|
        invariant childToParent == Assign(c, Ids(children[..i]), d) && origin == Assign(r, Ids(children[..i]), d)
        invariant outputToOwner == o + Owners(children[..i]) && ownerOf == w + Owners(children[..i])
      {
        AssignNext(c, o, children, i, d);
        AssignNext(r, w, children, i, d);
        childToParent := childToParent[children[i].id := d];
        outputToOwner := outputToOwner[children[i].id := children[i].owner];
        origin := origin[children[i].id := d];
        ownerOf := ownerOf[children[i].id := children[i].owner];
        i := i + 1;
      }
      assert children[..i] == children;
    }

    /** Collects an instance that has no outputs left. */
    method ParentGcIdx(p: Index)
      requires ListOk() && (p in items ==> p in machines)
      modifies this`sorted, this`items, this`machines, this`parentToChild, this`clock
      ensures ListOk() && items.Keys == old(items.Keys) - {p} && machines == old(machines) - {p}
      ensures parentToChild == old(parentToChild) - {p} && StillOrdered(old(items), items)
    {
      hide Placed, Timed, StillOrdered;
      SameOrder(items);
      if p in items {
        RemoveItem(p);
      }
      machines := machines - {p};
      parentToChild := parentToChild - {p};
    }

    /** Consumes the inputs of `d` in turn. */
    method ConsumeAll(d: Index, ghost pending: set<Index>) returns (i: nat)
      requires ListOk() && Books(pending) && d in decided && d.consumes != []
      requires forall o :: o in d.consumes ==> o in childToParent && childToParent[o] != d
      requires Conserved(origin, childToParent, outputToConsumer, decided) && Recorded(origin, outputToConsumer, parentToChildConsumers)
      requires Spent(outputToConsumer, decided - {d})
      modifies this`sorted, this`items, this`machines, this`childToParent, this`parentToChild, this`outputToOwner, this`clock,
               this`outputToConsumer, this`parentToChildConsumers
      ensures i == FirstRepeat(d.consumes, 0)
      ensures ListOk() && Books(pending) && (d in items <==> d in old(items)) && StillOrdered(old(items), items)
      ensures OnlyAdded(old(parentToChildConsumers), parentToChildConsumers, d, ParentsOf(old(childToParent), d.consumes))
      ensures Conserved(origin, childToParent, outputToConsumer, decided) && Recorded(origin, outputToConsumer, parentToChildConsumers)
      ensures parentToChild.Keys <= old(parentToChild.Keys) && OnlyMore(old(parentToChildConsumers), parentToChildConsumers)
      ensures childToParent == old(childToParent) - SetOf(d.consumes[..i])
      ensures outputToOwner == old(outputToOwner) - SetOf(d.consumes[..i])
      ensures outputToConsumer == Assign(old(outputToConsumer), d.consumes[..i], d)
      ensures i == |d.consumes| ==> Spent(outputToConsumer, decided) && d.consumes[..i] == d.consumes
    {
      hide Linked, Conserved, Recorded, Spent, Placed, Timed, Accounted, OnlyMore, OnlyAdded, ParentsOf, StillOrdered, SetOf, Assign, FirstRepeat;
      StartConsuming(childToParent, outputToOwner, outputToConsumer, d);
      SameMore(parentToChildConsumers);
      SameOrder(items);
      NoneAdded(parentToChildConsumers, d, ParentsOf(childToParent, d.consumes));
      i := 0;
      while i < |d.consumes|
        invariant 0 <= i <= |d.consumes| && FirstRepeat(d.consumes, 0) == FirstRepeat(d.consumes, i)
        invariant ListOk() && Books(pending) && (d in items <==> d in old(items))
        invariant Conserved(origin, childToParent, outputToConsumer, decided) && Recorded(origin, outputToConsumer, parentToChildConsumers)
        invariant Spent(outputToConsumer, decided - {d}) && parentToChild.Keys <= old(parentToChild.Keys)
        invariant childToParent == old(childToParent) - SetOf(d.consumes[..i])
        invariant outputToOwner == old(outputToOwner) - SetOf(d.consumes[..i])
        invariant outputToConsumer == Assign(old(outputToConsumer), d.consumes[..i], d)
        invariant OnlyMore(old(parentToChildConsumers), parentToChildConsumers) && StillOrdered(old(items), items)
        invariant OnlyAdded(old(parentToChildConsumers), parentToChildConsumers, d, ParentsOf(old(childToParent), d.consumes))
      {
        var o := d.consumes[i];
        RepeatStep(d.consumes, i, old(childToParent));
        if o !in childToParent {
          return;
        }
        NextInput(d.consumes, i, old(childToParent), old(outputToOwner), old(outputToConsumer), d);
        ghost var before, live, p := parentToChildConsumers, items, childToParent[o];
        ConsumeOne(d, o, pending);
        MoreTwice(old(parentToChildConsumers), before, parentToChildConsumers);
        AddedTwice(old(parentToChildConsumers), before, parentToChildConsumers, d, old(childToParent), d.consumes, o);
        OrderedTwice(old(items), live, items);
        i := i + 1;
      }
      NoRepeatLeft(d.consumes);
      assert d.consumes[..i] == d.consumes;
      NowSpent(origin, old(outputToConsumer), outputToConsumer, parentToChildConsumers, decided, d);
    }

    method ConsumeOne(d: Index, o: Output, ghost pending: set<Index>)
      requires ListOk() && Books(pending) && d in decided && o in d.consumes && o in childToParent && childToParent[o] != d
      requires Conserved(origin, childToParent, outputToConsumer, decided) && Recorded(origin, outputToConsumer, parentToChildConsumers)
      requires Spent(outputToConsumer, decided - {d})
      modifies this`sorted, this`items, this`machines, this`childToParent, this`parentToChild, this`outputToOwner, this`clock,
               this`outputToConsumer, this`parentToChildConsumers
      ensures ListOk() && Books(pending) && (d in items <==> d in old(items)) && StillOrdered(old(items), items)
      ensures OnlyAdded(old(parentToChildConsumers), parentToChildConsumers, d, {old(childToParent[o])})
      ensures Conserved(origin, childToParent, outputToConsumer, decided) && Recorded(origin, outputToConsumer, parentToChildConsumers)
      ensures Spent(outputToConsumer, decided - {d}) && parentToChild.Keys <= old(parentToChild.Keys)
      ensures childToParent == old(childToParent) - {o} && outputToOwner == old(outputToOwner) - {o}
      ensures outputToConsumer == old(outputToConsumer)[o := d]
      ensures OnlyMore(old(parentToChildConsumers), parentToChildConsumers)
    {
      hide *;
      var p := childToParent[o];
      ParentFound(o, pending);
      // the parent and its state machine are found
      assert p in machines;
      ConservedUse(origin, childToParent, outputToConsumer, decided, o, d);
      SpentUse(outputToConsumer, decided - {d}, o, d);
      AddChildConsumerToParent(p, d);
      RecordedUse(origin, outputToConsumer, parentToChildConsumers, o, d);
      outputToConsumer := outputToConsumer[o := d];
      DropOutput(p, o, pending);
    }

    /** Takes a consumed output off the maps; without outputs left, its parent is collected. */
    method DropOutput(p: Index, o: Output, ghost pending: set<Index>)
      requires ListOk() && Books(pending) && o in childToParent && childToParent[o] == p
      modifies this`sorted, this`items, this`machines, this`childToParent, this`parentToChild, this`outputToOwner, this`clock
      ensures ListOk() && Books(pending) && parentToChild.Keys <= old(parentToChild.Keys)
      ensures StillOrdered(old(items), items) && forall q :: q != p ==> (q in items <==> q in old(items))
      ensures childToParent == old(childToParent) - {o} && outputToOwner == old(outputToOwner) - {o}
    {
      hide *;
      ParentFound(o, pending);
      outputToOwner := outputToOwner - {o};
      var rest := SwapOut(parentToChild[p], o);
      LinkedDrop(childToParent, parentToChild, o, rest);
      OverwriteDrop(parentToChild, p, rest);
      childToParent := childToParent - {o};
      SameOrder(items);
      parentToChild := parentToChild[p := rest];
      if |rest| == 0 {
        ParentGcIdx(p);
      }
      BooksKept(pending);
    }

    lemma ParentFound(o: Output, pending: set<Index>)
      requires Books(pending) && o in childToParent
      ensures var p := childToParent[o]; p in parentToChild && o in parentToChild[p] && NoDup(parentToChild[p]) && p in items && p in machines
      ensures Linked(childToParent, parentToChild) && outputToOwner.Keys == childToParent.Keys
      ensures Accounted(items.Keys, machines, parentToChild.Keys, pending)
      ensures var p := childToParent[o]; Accounted(items.Keys - {p}, machines - {p}, parentToChild.Keys - {p}, pending)
    {
      hide Linked, Accounted, NoDup;
      LinkedParent(childToParent, parentToChild, o);
      AccountedLess(items.Keys, machines, parentToChild.Keys, pending, childToParent[o]);
    }

    lemma BooksKept(pending: set<Index>)
      requires Linked(childToParent, parentToChild) && outputToOwner.Keys == childToParent.Keys
      requires Accounted(items.Keys, machines, parentToChild.Keys, pending)
      ensures Books(pending)
    {
      hide Linked, Accounted;
    }

    method SwapOut(list: seq<Output>, o: Output) returns (rest: seq<Output>)
      requires o in list && NoDup(list)
      ensures SwappedOut(list, rest, o) && NoDup(rest)
    {
      var i := 0;
      while list[i] != o
        invariant 0 <= i < |list| && forall j :: 0 <= j < i ==> list[j] != o
        decreases |list| - i
      {
        i := i + 1;
      }
      rest := list[i := list[|list| - 1]][..|list| - 1];
      SwappedContents(list, rest, i);
    }

    // ----- The list ordered by progress -----

    /** The time never goes back. */
    method Now()
      modifies this`clock
      ensures clock >= old(clock)
    {
      var now: nat :| now >= clock;
      clock := now;
    }

    /** Moves the elements from `start` up to `end` to the end of the list with a new time. */
    method MoveToEnd(start: nat, end: nat)
      requires ListOk() && start <= |sorted| && end <= |sorted|
      modifies this`sorted, this`items, this`clock
      ensures ListOk() && clock >= old(clock)
      ensures start >= end ==> sorted == old(sorted) && items == old(items)
      ensures start < end ==> Refreshed(old(sorted), old(items), sorted, items, start, end, clock)
    {
      if start >= end {
        return;
      }
      ghost var c := clock;
      Now();
      var newEnd := sorted[start..end];
      MoveForward(start, end);
      PutAtEnd(start, end, newEnd, old(sorted), old(items));
      RefreshedTimes(old(sorted), old(items), sorted, items, start, end, c, clock);
    }

    method UpdateProgressTime(x: Index)
      requires ListOk() && x in items
      modifies this`sorted, this`items, this`clock
      ensures ListOk() && items.Keys == old(items.Keys) && clock >= old(clock)
      ensures items[x] == Item(|sorted| - 1, clock)
      ensures forall y :: y in items && y != x ==> items[y].lastProgress == old(items[y]).lastProgress
    {
      hide Timed, Refreshed, Placed;
      ghost var s, before := sorted, items;
      InPlace(s, before, x);
      MoveToEnd(items[x].position, items[x].position + 1);
      NowLast(s, before, sorted, items, x, clock);
    }

    /** Takes an item off the list. */
    method RemoveItem(x: Index)
      requires ListOk() && x in items
      modifies this`sorted, this`items, this`clock
      ensures ListOk() && items.Keys == old(items.Keys) - {x} && clock >= old(clock)
      ensures StillOrdered(old(items), items)
    {
      hide Timed, Refreshed, Placed, StillOrdered;
      ghost var s, before := sorted, items;
      // the list is set up correctly
      InPlace(s, before, x);
      assert sorted[items[x].position] == x;
      MoveToEnd(items[x].position, items[x].position + 1);
      NowLast(s, before, sorted, items, x, clock);
      DropLast(sorted, items, clock);
      OrderAfter(s, before, sorted, items, x, clock);
      sorted := sorted[..|sorted| - 1];
      items := items - {x};
    }

    method MoveForward(start: nat, end: nat)
      requires Placed(sorted, items) && start < end <= |sorted|
      modifies this`sorted, this`items
      ensures ShiftedList(old(sorted), sorted, start, end, |old(sorted)|)
      ensures ShiftedItems(old(items), items, start, end, |old(sorted)|)
    {
      hide ShiftedList, ShiftedItems;
      ghost var s, before := sorted, items;
      var size := end - start;
      var i := end;
      ShiftStart(s, before, start, end);
      while i < |sorted|
        invariant end <= i <= |s| == |sorted|
        invariant ShiftedList(s, sorted, start, end, i) && ShiftedItems(before, items, start, end, i)
      {
        var x := sorted[i];
        ShiftStep(s, sorted, start, end, i);
        ShiftItem(before, items, start, end, i, x);
        sorted := sorted[i - size := x];
        items := items[x := items[x].(position := items[x].position - size)];
        i := i + 1;
      }
    }

    method PutAtEnd(start: nat, end: nat, newEnd: seq<Index>, ghost s: seq<Index>, ghost before: map<Index, Item>)
      requires Placed(s, before) && start < end <= |s| && newEnd == s[start..end]
      requires ShiftedList(s, sorted, start, end, |s|) && ShiftedItems(before, items, start, end, |s|)
      modifies this`sorted, this`items
      ensures Refreshed(s, before, sorted, items, start, end, clock)
    {
      hide ShiftedList, ShiftedItems, EndedList, EndedItems;
      EndStart(s, before, sorted, items, start, end, clock);
      var k := 0;
      while k < |newEnd|
        invariant 0 <= k <= |newEnd| && |sorted| == |s|
        invariant EndedList(s, sorted, start, end, k) && EndedItems(before, items, |s|, start, end, k, clock)
      {
        var idx := |sorted| - k - 1;
        var x := newEnd[k];
        assert x == s[start + k] && x in before && before[x].position == start + k;
        EndStep(s, sorted, start, end, k);
        EndItem(before, items, |s|, start, end, k, clock, x);
        sorted := sorted[idx := x];
        items := items[x := items[x].(lastProgress := clock, position := idx)];
        k := k + 1;
      }
      EndedIsRefreshed(s, before, sorted, items, start, end, clock);
    }
  }

  lemma InPlace(s: seq<Index>, items: map<Index, Item>, x: Index)
    requires Placed(s, items) && x in items
    ensures items[x].position < |s| && s[items[x].position] == x
  {
  }

  lemma NowLast(s: seq<Index>, before: map<Index, Item>, t: seq<Index>, after: map<Index, Item>, x: Index, now: nat)
    requires Placed(s, before) && x in before && before[x].position < |s|
    requires Refreshed(s, before, t, after, before[x].position, before[x].position + 1, now)
    ensures t != [] && t[|t| - 1] == x && after.Keys == before.Keys && x in after && after[x] == Item(|t| - 1, now)
    ensures forall y :: y in after && y != x ==> after[y].lastProgress == before[y].lastProgress
  {
    hide Moved, Placed;
    var p := before[x].position;
    LastIsMoved(s, t, p);
    InPlace(s, before, x);
    PlaceOf(t, after, |t| - 1);
    forall y | y in after && y != x ensures after[y].lastProgress == before[y].lastProgress {
      InPlace(s, before, y);
    }
  }

  /** The move to the end keeps the order of all the others. */
  lemma OrderAfter(s: seq<Index>, before: map<Index, Item>, t: seq<Index>, after: map<Index, Item>, x: Index, now: nat)
    requires Placed(s, before) && x in before && before[x].position < |s|
    requires Refreshed(s, before, t, after, before[x].position, before[x].position + 1, now)
    ensures StillOrdered(before, after - {x})
  {
    hide Moved, Placed;
    forall y | y in after - {x}
      ensures after[y].lastProgress == before[y].lastProgress
      ensures after[y].position == if before[y].position < before[x].position then before[y].position else before[y].position - 1
      ensures before[y].position != before[x].position
    {
      PlaceAfter(s, before, t, after, x, now, y);
    }
  }

  lemma PlaceAfter(s: seq<Index>, before: map<Index, Item>, t: seq<Index>, after: map<Index, Item>, x: Index, now: nat, y: Index)
    requires Placed(s, before) && x in before && before[x].position < |s| && y in after && y != x
    requires Refreshed(s, before, t, after, before[x].position, before[x].position + 1, now)
    ensures y in before && after[y].lastProgress == before[y].lastProgress && before[y].position != before[x].position
    ensures after[y].position == if before[y].position < before[x].position then before[y].position else before[y].position - 1
  {
    hide Moved, Placed;
    InPlace(s, before, x);
    InPlace(s, before, y);
    var p, q := before[x].position, before[y].position;
    StaysBut(s, t, p, q);
    PlaceOf(t, after, if q < p then q else q - 1);
  }

  lemma StaysBut(s: seq<Index>, t: seq<Index>, p: nat, q: nat)
    requires p < |s| && q < |s| && q != p && Moved(s, t, p, p + 1)
    ensures |t| == |s| && t[if q < p then q else q - 1] == s[q]
  {
  }

  lemma SameOrder(items: map<Index, Item>)
    ensures StillOrdered(items, items)
  {
  }

  lemma OrderedTwice(a: map<Index, Item>, b: map<Index, Item>, c: map<Index, Item>)
    requires StillOrdered(a, b) && StillOrdered(b, c)
    ensures StillOrdered(a, c)
  {
  }

  lemma NoneAdded(a: map<Index, seq<Index>>, x: Index, parents: set<Index>)
    ensures OnlyAdded(a, a, x, parents)
  {
  }

  lemma AddedTwice(a: map<Index, seq<Index>>, b: map<Index, seq<Index>>, m: map<Index, seq<Index>>, x: Index, c: map<Output, Index>, s: seq<Output>, o: Output)
    requires o in s && o in c && OnlyAdded(a, b, x, ParentsOf(c, s)) && OnlyAdded(b, m, x, {c[o]})
    ensures OnlyAdded(a, m, x, ParentsOf(c, s))
  {
    assert c[o] in ParentsOf(c, s);
  }

  /** The inputs of `d` are there before and after its outputs are entered, and are not its own. */
  ghost predicate InputsThere(c: map<Output, Index>, filled: map<Output, Index>, d: Index) {
    forall o :: o in d.consumes ==> o in c && o in filled && filled[o] != d
  }

  /** Entering new outputs does not change whose outputs the inputs are. */
  lemma ParentsKept(c: map<Output, Index>, s: seq<Output>, outputs: seq<Output>, d: Index)
    requires forall o :: o in s ==> o in c && o in Assign(c, outputs, d) && Assign(c, outputs, d)[o] != d
    ensures ParentsOf(Assign(c, outputs, d), s) == ParentsOf(c, s)
  {
    var e := Assign(c, outputs, d);
    forall o | o in s ensures e[o] == c[o] { }
    forall p | p in ParentsOf(c, s) ensures p in ParentsOf(e, s) {
      var o :| o in s && o in c && c[o] == p;
      assert e[o] == p;
    }
  }

  lemma OwnedAdd(origin: map<Output, Index>, owner: map<Output, Owner>, ownerOf: map<Output, Owner>, children: seq<Child>, d: Index)
    requires Owned(origin, owner, ownerOf)
    ensures Owned(Assign(origin, Ids(children), d), owner + Owners(children), ownerOf + Owners(children))
  {
  }

  lemma OwnedLess(origin: map<Output, Index>, owner: map<Output, Owner>, ownerOf: map<Output, Owner>, s: seq<Output>)
    requires Owned(origin, owner, ownerOf)
    ensures Owned(origin, owner - SetOf(s), ownerOf)
  {
  }

  /** Distinct outputs keep their own owners. */
  lemma {:induction false} OwnersAre(cs: seq<Child>)
    requires NoDup(Ids(cs))
    ensures forall i :: 0 <= i < |cs| ==> cs[i].id in Owners(cs) && Owners(cs)[cs[i].id] == cs[i].owner
  {
    if cs != [] {
      var front := cs[..|cs| - 1];
      assert forall i :: 0 <= i < |front| ==> Ids(front)[i] == Ids(cs)[i];
      OwnersAre(front);
      forall i | 0 <= i < |cs| ensures cs[i].id in Owners(cs) && Owners(cs)[cs[i].id] == cs[i].owner {
        assert Ids(cs)[i] == cs[i].id && Ids(cs)[|cs| - 1] == cs[|cs| - 1].id;
        if i < |front| { assert front[i] == cs[i]; }
      }
    }
  }

  lemma LastIsMoved(s: seq<Index>, t: seq<Index>, p: nat)
    requires p < |s| && Moved(s, t, p, p + 1)
    ensures |t| == |s| && t[|t| - 1] == s[p]
  {
  }

  lemma PlaceOf(s: seq<Index>, items: map<Index, Item>, i: nat)
    requires Placed(s, items) && i < |s|
    ensures s[i] in items && items[s[i]].position == i
  {
  }

  lemma DropLast(t: seq<Index>, items: map<Index, Item>, clock: nat)
    requires Placed(t, items) && Timed(t, items, clock) && t != []
    ensures Placed(t[..|t| - 1], items - {t[|t| - 1]}) && Timed(t[..|t| - 1], items - {t[|t| - 1]}, clock)
  {
  }

  lemma SameMore(a: map<Index, seq<Index>>)
    ensures OnlyMore(a, a)
  {
  }

  lemma ProblemStep(outputs: seq<Output>, i: nat, c: map<Output, Index>, owner: map<Output, Owner>)
    requires i < |outputs| && c.Keys == owner.Keys && (i > 0 ==> outputs[0] in owner)
    ensures outputs[i] !in c ==> FirstProblem(outputs, i, c, owner) == ParentNotFound
    ensures outputs[i] in c ==> outputs[0] in owner
    ensures outputs[i] in c && owner[outputs[i]] != owner[outputs[0]] ==> FirstProblem(outputs, i, c, owner) == NotOwner
    ensures outputs[i] in c && owner[outputs[i]] == owner[outputs[0]] ==> FirstProblem(outputs, i, c, owner) == FirstProblem(outputs, i + 1, c, owner)
  {
  }

  /** An instance that names one output twice is allocated, and its decision stops half way. */
  method RepeatedInputStops(initFirst: Output, o: Output, owner: Owner, children: seq<Child>) returns (gen: GenResult, done: DoneResult)
    requires o != initFirst && NoDup(Ids(children)) && initFirst !in Ids(children) && o !in Ids(children)
    ensures gen == Created && done == NoParent(1)
  {
    hide State.Valid;
    OneChild(o, owner);
    var st := new State(initFirst, [Child(o, owner)]);
    st.OwnersAndParents(Index([o, o]));
    st.OnlyCreated();
    TwiceAllocated(o, st.childToParent, st.outputToOwner);
    gen := st.GenIndex(Index([o, o]));
    done := st.DoneIndex(Index([o, o]), children);
  }

  lemma OneChild(o: Output, owner: Owner)
    ensures Ids([Child(o, owner)]) == [o] && NoDup([o])
  {
  }

  lemma TwiceAllocated(o: Output, c: map<Output, Index>, owner: map<Output, Owner>)
    requires c.Keys == owner.Keys && o in c
    ensures FirstProblem([o, o], 0, c, owner) == Created && DoneOutcome([o, o], owner.Keys) == NoParent(1)
  {
    assert [o, o][..1] == [o] && [o, o][..0] == [];
    assert FirstRepeat([o, o], 1) == 1;
  }

  lemma OutcomeCases(s: seq<Output>, there: set<Output>)
    ensures FirstMissing(s, 0, there) < |s| ==> DoneOutcome(s, there) == NoOwner(FirstMissing(s, 0, there))
    ensures FirstMissing(s, 0, there) >= |s| ==> forall o :: o in s ==> o in there
    ensures FirstMissing(s, 0, there) >= |s| ==> DoneOutcome(s, there) == if FirstRepeat(s, 0) < |s| then NoParent(FirstRepeat(s, 0)) else Completed
  {
  }

  lemma RepeatStep(s: seq<Output>, i: nat, c: map<Output, Index>)
    requires i < |s| && s[i] in c
    ensures s[i] in c - SetOf(s[..i]) <==> s[i] !in s[..i]
    ensures FirstRepeat(s, i) == if s[i] in s[..i] then i else FirstRepeat(s, i + 1)
  {
  }

  lemma NoRepeatLeft(s: seq<Output>)
    ensures FirstRepeat(s, |s|) == |s|
  {
  }

  lemma MorePending(items: set<Index>, machines: set<Index>, parents: set<Index>, pending: map<Index, seq<Output>>, decided: set<Index>, x: Index)
    requires Accounted(items, machines, parents, pending.Keys) && x !in items && Undecided(pending, decided) && x !in decided && x.consumes != []
    ensures Accounted(items + {x}, machines + {x}, parents, pending[x := x.consumes].Keys)
    ensures Undecided(pending[x := x.consumes], decided)
  {
  }

  lemma SwappedContents(list: seq<Output>, rest: seq<Output>, i: nat)
    requires i < |list| && NoDup(list) && rest == list[i := list[|list| - 1]][..|list| - 1]
    ensures SwappedOut(list, rest, list[i]) && NoDup(rest)
  {
    forall y | y in list && y != list[i] ensures y in rest {
      var j :| 0 <= j < |list| && list[j] == y;
      assert rest[if j == |list| - 1 then i else j] == y;
    }
  }

  lemma OverwriteDrop(m: map<Index, seq<Output>>, p: Index, rest: seq<Output>)
    requires p in m
    ensures m[p := rest] - {p} == m - {p} && m[p := rest].Keys == m.Keys && (m - {p}).Keys == m.Keys - {p}
  {
  }

  lemma LinkedParent(c: map<Output, Index>, p2c: map<Index, seq<Output>>, o: Output)
    requires Linked(c, p2c) && o in c
    ensures c[o] in p2c && o in p2c[c[o]] && NoDup(p2c[c[o]])
  {
    assert Family(c, c[o], p2c[c[o]]);
  }

  lemma MoreTwice(a: map<Index, seq<Index>>, b: map<Index, seq<Index>>, c: map<Index, seq<Index>>)
    requires OnlyMore(a, b) && OnlyMore(b, c)
    ensures OnlyMore(a, c)
  {
  }

  lemma NextInput(s: seq<Output>, i: nat, c: map<Output, Index>, owner: map<Output, Owner>, consumer: map<Output, Index>, d: Index)
    requires i < |s| && s[i] !in s[..i]
    ensures s[i] in s
    ensures (c - SetOf(s[..i])) - {s[i]} == c - SetOf(s[..i + 1])
    ensures (owner - SetOf(s[..i])) - {s[i]} == owner - SetOf(s[..i + 1])
    ensures Assign(consumer, s[..i], d)[s[i] := d] == Assign(consumer, s[..i + 1], d)
    ensures s[i] in c ==> s[i] in c - SetOf(s[..i]) && (c - SetOf(s[..i]))[s[i]] == c[s[i]]
  {
    hide Assign;
    assert s[..i + 1] == s[..i] + [s[i]];
    MinusOne(c, s[..i], s[i]);
    MinusOne(owner, s[..i], s[i]);
    AssignOne(consumer, s[..i], s[i], d);
  }

  lemma MinusOne<V>(m: map<Output, V>, s: seq<Output>, o: Output)
    ensures (m - SetOf(s)) - {o} == m - SetOf(s + [o])
  {
    assert SetOf(s + [o]) == SetOf(s) + {o};
  }

  lemma AssignOne(m: map<Output, Index>, s: seq<Output>, o: Output, d: Index)
    ensures Assign(m, s + [o], d) == Assign(m, s, d)[o := d]
  {
    assert (map x | x in s + [o] :: d) == (map x | x in s :: d)[o := d];
  }

  lemma NowSpent(origin: map<Output, Index>, before: map<Output, Index>, consumer: map<Output, Index>, consumers: map<Index, seq<Index>>, decided: set<Index>, d: Index)
    requires Spent(consumer, decided - {d}) && consumer == Assign(before, d.consumes, d) && d.consumes != []
    requires Recorded(origin, consumer, consumers)
    ensures Spent(consumer, decided)
    ensures forall o :: o in d.consumes ==> o in origin && origin[o] in consumers && d in consumers[origin[o]]
  {
    hide NoDup;
    assert SpentBy(consumer, d);
  }

  lemma StartConsuming(c: map<Output, Index>, owner: map<Output, Owner>, consumer: map<Output, Index>, d: Index)
    ensures c - SetOf([]) == c && owner - SetOf([]) == owner && Assign(consumer, [], d) == consumer
  {
  }

  lemma AssignKeys(m: map<Output, Index>, outputs: seq<Output>, d: Index, o: Output)
    requires o !in m && o !in outputs
    ensures o !in Assign(m, outputs, d)
  {
  }

  /** The inputs of `d` are not among its outputs, and keep their parents while these are entered. */
  lemma InputsAreOld(origin: map<Output, Index>, c: map<Output, Index>, consumer: map<Output, Index>, decided: set<Index>, outputs: seq<Output>, d: Index)
    requires Conserved(origin, c, consumer, decided) && forall o :: o in outputs ==> o !in origin
    ensures forall o :: o in c ==> o in Assign(c, outputs, d) && Assign(c, outputs, d)[o] == c[o]
  {
  }

  lemma AssignOwners(c: map<Output, Index>, owner: map<Output, Owner>, children: seq<Child>, d: Index)
    requires c.Keys == owner.Keys
    ensures Assign(c, Ids(children), d).Keys == (owner + Owners(children)).Keys
  {
  }

  lemma AssignNone(c: map<Output, Index>, owner: map<Output, Owner>, children: seq<Child>, d: Index)
    requires children == []
    ensures Assign(c, Ids(children), d) == c && owner + Owners(children) == owner
  {
  }

  lemma AssignNext(c: map<Output, Index>, owner: map<Output, Owner>, children: seq<Child>, i: nat, d: Index)
    requires i < |children|
    ensures Assign(c, Ids(children[..i + 1]), d) == Assign(c, Ids(children[..i]), d)[children[i].id := d]
    ensures owner + Owners(children[..i + 1]) == (owner + Owners(children[..i]))[children[i].id := children[i].owner]
  {
    hide Assign, Ids;
    assert children[..i + 1][..i] == children[..i];
    IdsNext(children[..i + 1]);
    AssignOne(c, Ids(children[..i]), children[i].id, d);
  }

  lemma IdsNext(cs: seq<Child>)
    requires cs != []
    ensures Ids(cs) == Ids(cs[..|cs| - 1]) + [cs[|cs| - 1].id]
  {
  }

  /** A pending index is the parent of nothing. */
  lemma NotOwnParent(c: map<Output, Index>, p2c: map<Index, seq<Output>>, items: set<Index>, machines: set<Index>, pending: set<Index>, d: Index)
    requires Linked(c, p2c) && Accounted(items, machines, p2c.Keys, pending) && d in pending
    ensures forall o :: o in c ==> c[o] != d
  {
  }

  lemma AccountedLess(items: set<Index>, machines: set<Index>, parents: set<Index>, pending: set<Index>, p: Index)
    requires Accounted(items, machines, parents, pending) && p in parents
    ensures Accounted(items - {p}, machines - {p}, parents - {p}, pending) && p in items && p in machines
  {
  }

  function Ids(cs: seq<Child>): (s: seq<Output>)
    ensures |s| == |cs| && forall i :: 0 <= i < |cs| ==> s[i] == cs[i].id
  {
    if cs == [] then [] else Ids(cs[..|cs| - 1]) + [cs[|cs| - 1].id]
  }

  function Owners(cs: seq<Child>): (m: map<Output, Owner>)
    ensures m.Keys == set o | o in Ids(cs)
  {
    if cs == [] then map[] else
      assert forall o :: o in Ids(cs) <==> o in Ids(cs[..|cs| - 1]) || o == cs[|cs| - 1].id;
      Owners(cs[..|cs| - 1])[cs[|cs| - 1].id := cs[|cs| - 1].owner]
  }

  // ----- The list while elements are moved -----

  /** The elements from `end` up to `i` have moved forward. */
  ghost predicate ShiftedList(s: seq<Index>, t: seq<Index>, start: nat, end: nat, i: nat)
    requires start <= end <= i <= |s|
  {
    && |t| == |s|
    && (forall j :: 0 <= j < start ==> t[j] == s[j])
    && (forall j :: start <= j < i - (end - start) ==> t[j] == s[j + (end - start)])
    && forall j :: i - (end - start) <= j < |s| ==> t[j] == s[j]
  }

  ghost predicate ShiftedItems(before: map<Index, Item>, after: map<Index, Item>, start: nat, end: nat, i: nat)
    requires start <= end
  {
    && after.Keys == before.Keys
    && forall x :: x in before ==>
        after[x] == if end <= before[x].position < i then before[x].(position := before[x].position - (end - start)) else before[x]
  }

  lemma ShiftStart(s: seq<Index>, before: map<Index, Item>, start: nat, end: nat)
    requires start < end <= |s|
    ensures ShiftedList(s, s, start, end, end) && ShiftedItems(before, before, start, end, end)
  {
  }

  lemma ShiftStep(s: seq<Index>, t: seq<Index>, start: nat, end: nat, i: nat)
    requires start < end <= i < |s| && ShiftedList(s, t, start, end, i)
    ensures |t| == |s| && t[i] == s[i] && ShiftedList(s, t[i - (end - start) := t[i]], start, end, i + 1)
  {
  }

  lemma ShiftItem(before: map<Index, Item>, after: map<Index, Item>, start: nat, end: nat, i: nat, x: Index)
    requires start < end <= i && ShiftedItems(before, after, start, end, i) && x in before && before[x].position == i
    requires forall y :: y in before && before[y].position == i ==> y == x
    ensures x in after && after[x].position == i
    ensures ShiftedItems(before, after[x := after[x].(position := after[x].position - (end - start))], start, end, i + 1)
  {
  }

  /** The first `k` of the moved elements are at the end. */
  ghost predicate EndedList(s: seq<Index>, t: seq<Index>, start: nat, end: nat, k: nat)
    requires start <= end <= |s| && k <= end - start
  {
    && |t| == |s|
    && (forall j :: 0 <= j < start ==> t[j] == s[j])
    && (forall j :: start <= j < |s| - (end - start) ==> t[j] == s[j + (end - start)])
    && forall j :: |s| - k <= j < |s| ==> t[j] == s[start + (|s| - 1 - j)]
  }

  ghost predicate EndedItems(before: map<Index, Item>, after: map<Index, Item>, len: nat, start: nat, end: nat, k: nat, now: nat)
    requires start <= end <= len
  {
    after.Keys == before.Keys && forall x :: x in before ==> after[x] == NewItem(before[x], len, start, end, k, now)
  }

  lemma EndStart(s: seq<Index>, before: map<Index, Item>, t: seq<Index>, after: map<Index, Item>, start: nat, end: nat, now: nat)
    requires Placed(s, before) && start < end <= |s|
    requires ShiftedList(s, t, start, end, |s|) && ShiftedItems(before, after, start, end, |s|)
    ensures |t| == |s| && EndedList(s, t, start, end, 0) && EndedItems(before, after, |s|, start, end, 0, now)
  {
  }

  lemma EndStep(s: seq<Index>, t: seq<Index>, start: nat, end: nat, k: nat)
    requires start < end <= |s| && k < end - start && EndedList(s, t, start, end, k)
    ensures |t| == |s| && EndedList(s, t[|s| - k - 1 := s[start + k]], start, end, k + 1)
  {
  }

  lemma EndItem(before: map<Index, Item>, after: map<Index, Item>, len: nat, start: nat, end: nat, k: nat, now: nat, x: Index)
    requires start < end <= len && k < end - start && EndedItems(before, after, len, start, end, k, now)
    requires x in before && before[x].position == start + k
    requires forall y :: y in before && before[y].position == start + k ==> y == x
    ensures x in after
    ensures EndedItems(before, after[x := after[x].(lastProgress := now, position := len - k - 1)], len, start, end, k + 1, now)
  {
  }

  lemma EndedIsRefreshed(s: seq<Index>, before: map<Index, Item>, t: seq<Index>, after: map<Index, Item>, start: nat, end: nat, now: nat)
    requires Placed(s, before) && start < end <= |s|
    requires EndedList(s, t, start, end, end - start) && EndedItems(before, after, |s|, start, end, end - start, now)
    ensures Refreshed(s, before, t, after, start, end, now)
  {
    hide NewItem, EndedItems, EndedList;
    EndedShape(s, before, t, after, start, end, now);
    forall j | 0 <= j < |t| ensures t[j] in after && after[t[j]].position == j {
      NewPlace(s, before, t, after, start, end, now, j);
    }
    forall x | x in after
      ensures after[x].position < |t| && t[after[x].position] == x
      ensures after[x].lastProgress == if start <= before[x].position < end then now else before[x].lastProgress
    {
      NewPlaceOf(s, before, t, after, start, end, now, x);
    }
  }

  lemma EndedShape(s: seq<Index>, before: map<Index, Item>, t: seq<Index>, after: map<Index, Item>, start: nat, end: nat, now: nat)
    requires start < end <= |s|
    requires EndedList(s, t, start, end, end - start) && EndedItems(before, after, |s|, start, end, end - start, now)
    ensures |t| == |s| && Moved(s, t, start, end) && after.Keys == before.Keys
  {
    hide NewItem;
  }

  lemma NewPlace(s: seq<Index>, before: map<Index, Item>, t: seq<Index>, after: map<Index, Item>, start: nat, end: nat, now: nat, j: nat)
    requires Placed(s, before) && start < end <= |s| && j < |s|
    requires EndedList(s, t, start, end, end - start) && EndedItems(before, after, |s|, start, end, end - start, now)
    ensures t[j] in after && after[t[j]].position == j
  {
    var k := if j < start then j else if j < |s| - (end - start) then j + (end - start) else start + (|s| - 1 - j);
    assert t[j] == s[k];
  }

  lemma NewPlaceOf(s: seq<Index>, before: map<Index, Item>, t: seq<Index>, after: map<Index, Item>, start: nat, end: nat, now: nat, x: Index)
    requires Placed(s, before) && start < end <= |s| && x in before
    requires EndedList(s, t, start, end, end - start) && EndedItems(before, after, |s|, start, end, end - start, now)
    ensures after[x].position < |t| && t[after[x].position] == x
    ensures after[x].lastProgress == if start <= before[x].position < end then now else before[x].lastProgress
  {
    assert s[before[x].position] == x;
  }

  ghost function NewItem(a: Item, len: nat, start: nat, end: nat, k: nat, now: nat): Item
    requires start <= end <= len
  {
    if start <= a.position < start + k && a.position < len then Item(len - 1 - (a.position - start), now)
    else if a.position >= end then Item(a.position - (end - start), a.lastProgress)
    else a
  }
}
