/** The totally ordered instances a node keeps in memory: a window of allocated indices around the
    current one, and the state machines of the started indices. */
module InstanceState {
  import opened Events

  const KEEP_FUTURE: nat := 20
  const DROP_FUTURE: nat := 110

  datatype SMDone = NotDone | DoneKeep | DoneClear

  /** A state machine: its index, the decisions it was given, and how it was finished. */
  datatype Machine = Machine(index: nat, decisions: seq<Bytes>, done: SMDone)

  datatype Lookup = TooOld | TooNew | ParentNotFound | Allocated | NotAllocated

  /** What an instance decided: the value, the index whose machine it builds on, and from which index
      on the members may change. */
  datatype Decision = Decision(dec: Bytes, support: nat, futureDependent: Option<nat>, changedMembers: bool)

  /** What an undecided index is expected to decide, and the index it then builds on. */
  datatype Expectation = Expectation(support: nat, value: Bytes)

  /** What is noted about the indices: the expected values, the indices they build on, and which were asked
      for a proposal. */
  datatype Notes = Notes(expected: map<nat, Bytes>, support: map<nat, nat>, asked: set<nat>)

  /** The stored machines with all machines ever made, and what is noted. */
  datatype Plan = Plan(stored: map<nat, nat>, machines: seq<Machine>, notes: Notes)

  function SubOrZero(a: nat, b: nat): nat { if b > a then 0 else a - b }

  ghost predicate Interval(s: set<nat>, lo: nat, hi: nat) {
    forall i: nat :: i in s <==> lo <= i <= hi
  }

  /** The member checkers from `lo` up to `local` know their members. */
  ghost predicate Known(ready: set<nat>, lo: nat, local: nat) {
    forall i: nat :: lo <= i <= local ==> i in ready
  }

  ghost predicate StrictlyRising(s: seq<nat>) {
    forall i, j :: 0 <= i < j < |s| ==> s[i] < s[j]
  }

  /** Rising indices that have all decided. */
  ghost predicate Recent(s: seq<nat>, local: nat) {
    StrictlyRising(s) && forall i :: 0 <= i < |s| ==> s[i] < local
  }

  function LastOf(s: seq<nat>, k: nat): seq<nat> {
    if |s| > k then s[|s| - k..] else s
  }

  /** The first of `k` rising numbers is at least `k - 1` below the last. */
  lemma {:induction false} RisingSpread(s: seq<nat>, top: nat)
    requires Recent(s, top) && s != []
    ensures s[0] + |s| <= top
  {
    if |s| > 1 { RisingSpread(s[..|s| - 1], s[|s| - 1]); }
  }

  class Instances {
    const keepPast: nat
    const allowConcurrent: nat
    /** How many instances must run for one to complete. */
    const needsConcurrent: nat
    /** A new member checker knows its members at once. */
    const readyWhenNew: bool

    var localIndex: nat
    var startedIndex: nat
    var gcUpTo: nat
    var lastItem: nat
    var lastMCInputIndex: nat
    /** The indices with allocated objects. */
    var held: set<nat>
    /** Those whose member checker knows its members. */
    var ready: set<nat>
    var lastNonNilDecs: seq<nat>
    var preDecisions: map<nat, Bytes>
    var supportIndex: map<nat, nat>
    var gotProposal: set<nat>
    /** The indices whose machine was asked for a proposal, in order. */
    var requested: seq<nat>
    /** The state machine stored for an index, as a place in `machines`. */
    var proposalInfo: map<nat, nat>
    var machines: seq<Machine>
    /** The smallest index still allocated. */
    ghost var first: nat

    // ----- The window -----

    ghost predicate WindowOk()
      reads this`localIndex, this`lastItem, this`gcUpTo, this`held, this`first, this`lastNonNilDecs, this`ready
    {
      && keepPast >= 1 && 1 <= first <= localIndex <= lastItem && gcUpTo >= 1 && Interval(held, first, lastItem)
      && (first == gcUpTo + 1 || (gcUpTo == 1 && first == 1))
      && first <= Max(1, SubOrZero(localIndex, keepPast))
      && Known(ready, first, localIndex)
      && Recent(lastNonNilDecs, localIndex) && |lastNonNilDecs| <= keepPast
    }

    /** The objects of index `idx`, allocated if they are not there yet. Only index 0 can be let
        through without being there. */
    method GetMemberChecker(idx: nat) returns (r: Lookup)
      requires WindowOk()
      modifies this`held, this`lastItem, this`ready
      ensures WindowOk() && lastItem >= old(lastItem) && ready >= old(ready)
      ensures idx < SubOrZero(localIndex, keepPast) <==> r == TooOld
      ensures r != TooOld ==> (idx > startedIndex + DROP_FUTURE <==> r == TooNew)
      ensures r != TooOld && r != TooNew ==> (idx > startedIndex + KEEP_FUTURE <==> r == ParentNotFound)
      ensures r == NotAllocated <==> idx == 0 && localIndex <= keepPast
      ensures r == Allocated ==> idx in held && lastItem == Max(old(lastItem), idx)
      ensures r != Allocated ==> unchanged(this)
      ensures forall i :: i in ready && i <= old(lastItem) ==> i in old(ready)
      ensures readyWhenNew ==> forall i :: old(lastItem) < i <= lastItem ==> i in ready
      ensures !readyWhenNew ==> ready == old(ready)
    {
      if idx < SubOrZero(localIndex, keepPast) {
        return TooOld;
      }
      if idx > startedIndex + DROP_FUTURE {
        return TooNew;
      }
      if idx > startedIndex + KEEP_FUTURE {
        return ParentNotFound;
      }
      if idx !in held && idx <= lastItem {
        return NotAllocated;
      }
      GetIndex(idx);
      r := Allocated;
    }

    /** Allocates everything up to `endIdx`. */
    method GetIndex(endIdx: nat)
      requires Interval(held, first, lastItem) && first <= lastItem && (endIdx in held || endIdx > lastItem)
      modifies this`held, this`lastItem, this`ready
      ensures Interval(held, first, lastItem) && endIdx in held && lastItem == Max(old(lastItem), endIdx)
      ensures ready >= old(ready) && forall i :: i in ready && i <= old(lastItem) ==> i in old(ready)
      ensures readyWhenNew ==> forall i :: old(lastItem) < i <= lastItem ==> i in ready
      ensures !readyWhenNew ==> ready == old(ready)
    {
      if endIdx in held {
        return;
      }
      var nxt := lastItem + 1;
      while nxt <= endIdx
        invariant lastItem < nxt <= endIdx + 1
        invariant Interval(held, first, nxt - 1) && ready >= old(ready)
        invariant lastItem == old(lastItem) && forall i :: i in ready && i <= lastItem ==> i in old(ready)
        invariant if readyWhenNew then forall i :: lastItem < i < nxt ==> i in ready else ready == old(ready)
      {
        // the index was not allocated before
        assert nxt !in held;
        held := held + {nxt};
        if readyWhenNew {
          ready := ready + {nxt};
        }
        nxt := nxt + 1;
      }
      lastItem := endIdx;
    }

    /** Starts with the first index, and the machine of index 0 that holds the initial state. */
    constructor (keepPast: nat, allowConcurrent: nat, needsConcurrent: nat, readyWhenNew: bool)
      requires keepPast >= 1 && needsConcurrent >= 1
      ensures Valid() && localIndex == startedIndex == lastItem == 1 && proposalInfo == map[0 := 0, 1 := 1] && lastMCInputIndex == 1
      ensures preDecisions == map[] && supportIndex == map[] && gotProposal == {} && requested == [] && lastNonNilDecs == [] && this.readyWhenNew == readyWhenNew
      ensures this.keepPast == keepPast && this.allowConcurrent == allowConcurrent && this.needsConcurrent == needsConcurrent
    {
      hide MachinesOk;
      this.keepPast, this.allowConcurrent, this.needsConcurrent, this.readyWhenNew := keepPast, allowConcurrent, needsConcurrent, readyWhenNew;
      localIndex, startedIndex, gcUpTo, lastItem, lastMCInputIndex := 1, 1, 1, 1, 1;
      held, ready, first := {1}, {1}, 1;
      lastNonNilDecs, preDecisions, supportIndex, gotProposal, requested := [], map[], map[], {}, [];
      proposalInfo := map[0 := 0, 1 := 1];
      machines := [Machine(0, [], DoneKeep), Machine(1, [], NotDone)];
      new;
      FirstMachines();
    }

    lemma FirstMachines()
      requires proposalInfo == map[0 := 0, 1 := 1] && machines == [Machine(0, [], DoneKeep), Machine(1, [], NotDone)] && preDecisions == map[]
      ensures MachinesOk(proposalInfo, machines, preDecisions, 1, 1)
    {
    }

    /** The objects of an index from the current one on are always there, or can be made. */
    method Have(idx: nat)
      requires Valid() && localIndex <= idx <= startedIndex + KEEP_FUTURE
      modifies this`held, this`lastItem, this`ready
      ensures Valid() && ready >= old(ready) && idx in held && lastItem == Max(old(lastItem), idx) && forall i :: i in ready && i <= startedIndex ==> i in old(ready)
      ensures !readyWhenNew ==> ready == old(ready)
    {
      hide MachinesOk, Interval, Recent, Known;
      var r := GetMemberChecker(idx);
      assert r == Allocated;
    }

    /** Starts one more index. */
    method StartNext()
      requires Valid() && startedIndex + 1 >= localIndex
      modifies this`startedIndex, this`held, this`lastItem, this`ready
      ensures Valid() && startedIndex == old(startedIndex) + 1 && ready >= old(ready)
      ensures lastItem == Max(old(lastItem), startedIndex) && (readyWhenNew ==> forall i :: old(lastItem) < i <= lastItem ==> i in ready)
      ensures !readyWhenNew ==> ready == old(ready)
    {
      hide MachinesOk, Interval, Recent, Known;
      MoreStarted(proposalInfo, machines, preDecisions, localIndex, startedIndex);
      startedIndex := startedIndex + 1;
      var r := GetMemberChecker(startedIndex);
      assert r == Allocated;
    }

    // ----- Deciding an index -----

    ghost predicate Valid()
      reads this
    {
      WindowOk() && MachinesInv(localIndex) && startedIndex <= lastItem && needsConcurrent >= 1
    }

    /** A machine can be made that builds on the one of `support`: that is stored and, when several
        instances must run, has its decision. */
    predicate Supports(support: nat)
      reads this`proposalInfo, this`machines
    {
      support in proposalInfo && (needsConcurrent > 1 ==> proposalInfo[support] < |machines| && machines[proposalInfo[support]].decisions != [])
    }

    /** The decision fits what the node was told before. */
    predicate Fits(d: Decision)
      reads this`localIndex, this`proposalInfo, this`preDecisions, this`supportIndex, this`lastMCInputIndex, this`machines
    {
      && (d.dec != [] && localIndex in supportIndex ==> supportIndex[localIndex] == d.support)
      && (localIndex in proposalInfo && localIndex in preDecisions && allowConcurrent == 0 && d.dec != [] ==> preDecisions[localIndex] in {[], d.dec})
      && (Keeps(d.dec) && (localIndex !in proposalInfo || Discards(localIndex, d.dec)) ==> Supports(d.support))
      && (d.futureDependent.Some? ==> lastMCInputIndex <= d.futureDependent.value && localIndex < d.futureDependent.value)
      && (d.futureDependent.None? ==> !d.changedMembers)
    }

    /** The started index will fall below the decided one: the decision is not kept, a started index is
        removed, and no machine is stored from the decided index up to the removed one. */
    ghost predicate FallsBack(d: Decision)
      reads this`localIndex, this`startedIndex, this`ready, this`proposalInfo
    {
      !Keeps(d.dec) && d.changedMembers && LosesMachines(d, localIndex, startedIndex, ready, proposalInfo)
    }

    ghost function Noted(): Notes
      reads this`preDecisions, this`supportIndex, this`gotProposal
    {
      Notes(preDecisions, supportIndex, gotProposal)
    }

    ghost function Planned(): Plan
      reads this`proposalInfo, this`machines, this`preDecisions, this`supportIndex, this`gotProposal
    {
      Plan(proposalInfo, machines, Notes(preDecisions, supportIndex, gotProposal))
    }

    lemma NotedIs()
      ensures Noted() == Notes(preDecisions, supportIndex, gotProposal) && Planned() == Plan(proposalInfo, machines, Notes(preDecisions, supportIndex, gotProposal))
    {
    }

    /** Takes the decision of the current index and moves on to the next. */
    method DoneIndex(d: Decision)
      requires Valid() && Fits(d)
      modifies this
      ensures Valid() && localIndex == old(localIndex) + 1
      ensures startedIndex < old(localIndex) <==> old(startedIndex < localIndex || FallsBack(d))
      ensures !d.changedMembers ==> startedIndex == old(startedIndex)
      ensures !d.changedMembers ==> forall i :: i in old(ready) && i >= localIndex ==> i in ready
      ensures forall i :: i in proposalInfo && (!Keeps(d.dec) || i != old(localIndex)) ==> i in old(proposalInfo)
      ensures Keeps(d.dec) ==> old(localIndex) in proposalInfo && proposalInfo[old(localIndex)] < |machines| && machines[proposalInfo[old(localIndex)]] == Machine(old(localIndex), [d.dec], DoneKeep)
      ensures !Keeps(d.dec) ==> NoneLeft(machines, old(localIndex))
      ensures Decided(old(machines), machines, old(localIndex))
      ensures startedIndex <= old(startedIndex)
      ensures lastNonNilDecs == if d.dec == [] then old(lastNonNilDecs) else LastOf(old(lastNonNilDecs) + [old(localIndex)], keepPast)
      ensures d.dec != [] && |old(lastNonNilDecs)| == keepPast ==> first + 1 >= lastNonNilDecs[0]
      ensures lastMCInputIndex == if d.futureDependent.Some? then d.futureDependent.value else old(lastMCInputIndex)
      ensures Removed(d, old(localIndex), old(lastItem), lastItem, old(ready))
      ensures KnownAlike(old(ready), ready, localIndex + 1, lastItem)
      ensures NotesCut(old(Noted()), Noted(), localIndex, lastItem + 1, old(lastItem) + 1)
    {
      hide *;
      var idx := localIndex;
      FallsBackIs(d);
      Opened(d);
      Conclude(d, idx);
      localIndex := localIndex + 1;
      if d.dec != [] {
        ghost var notes, up, known := Noted(), gcUpTo, ready;
        CollectOld(idx);
        CutThen(old(Noted()), notes, Noted(), localIndex, lastItem + 1, old(lastItem) + 1, up, CollectedUpTo(old(lastNonNilDecs), lastNonNilDecs));
        AlikeAgain(old(ready), known, ready, localIndex + 1, lastItem);
      } else {
        RecentMore(lastNonNilDecs, idx);
        Closed(idx);
      }
      MachinesHold();
    }

    /** Finishes the machine of the decided index and tells the next index. */
    method Conclude(d: Decision, idx: nat)
      requires keepPast >= 1 && 1 <= first <= idx == localIndex <= lastItem && Interval(held, first, lastItem) && Known(ready, first, idx)
      requires MachinesInv(idx) && startedIndex <= lastItem && needsConcurrent >= 1
      requires idx in proposalInfo && idx in preDecisions && allowConcurrent == 0 && d.dec != [] ==> preDecisions[idx] in {[], d.dec}
      requires Keeps(d.dec) && (idx !in proposalInfo || Discards(idx, d.dec)) ==> Supports(d.support)
      requires d.futureDependent.Some? ==> lastMCInputIndex <= d.futureDependent.value && idx < d.futureDependent.value
      requires d.futureDependent.None? ==> !d.changedMembers
      modifies this`held, this`lastItem, this`ready, this`lastMCInputIndex, this`startedIndex, this`proposalInfo, this`machines,
               this`preDecisions, this`supportIndex, this`gotProposal
      ensures Interval(held, first, lastItem) && idx + 1 <= lastItem && Known(ready, first, idx + 1) && MachinesInv(idx + 1)
      ensures startedIndex <= lastItem && startedIndex <= old(startedIndex)
      ensures startedIndex < idx <==> old(startedIndex) < idx || (!Keeps(d.dec) && d.changedMembers && LosesMachines(d, idx, old(startedIndex), old(ready), old(proposalInfo)))
      ensures !d.changedMembers ==> startedIndex == old(startedIndex) && ready >= old(ready)
      ensures forall i :: i in proposalInfo && (!Keeps(d.dec) || i != idx) ==> i in old(proposalInfo)
      ensures Keeps(d.dec) ==> idx in proposalInfo && proposalInfo[idx] < |machines| && machines[proposalInfo[idx]] == Machine(idx, [d.dec], DoneKeep)
      ensures !Keeps(d.dec) ==> NoneLeft(machines, idx)
      ensures Decided(old(machines), machines, idx)
      ensures lastMCInputIndex == if d.futureDependent.Some? then d.futureDependent.value else old(lastMCInputIndex)
      ensures Removed(d, idx, old(lastItem), lastItem, old(ready))
      ensures KnownAlike(old(ready), ready, idx + 2, lastItem)
      ensures NotesCut(old(Noted()), Noted(), idx + 1, lastItem + 1, old(lastItem) + 1)
    {
      hide *;
      ghost var notes0 := Noted();
      NotedIs();
      ghost var ms0, stored0, rd, last, st := machines, proposalInfo, ready, lastItem, startedIndex;
      FinishMachine(idx, d.dec, d.support);
      ghost var ms1, stored, notes1 := machines, proposalInfo, Noted();
      NotedIs();
      NoteAbout(notes0, notes1, idx, d.support);
      UpdateMC(idx, d.futureDependent, d.changedMembers);
      CutThen(notes0, notes1, Noted(), idx + 1, 0, 0, lastItem + 1, last + 1);
      RemovedIs(d, idx, last, lastItem, rd);
      Back(d, idx, Keeps(d.dec), stored0, stored, proposalInfo, rd, last, lastItem, st, startedIndex);
      StoredBefore(stored, proposalInfo, lastItem + 1);
      DecidedNow(ms0, ms1, machines, idx);
      if !Keeps(d.dec) { StillNoneLeft(ms1, machines, idx); }
      KeptStays(stored, proposalInfo, ms1, machines, idx, lastItem + 1);
    }

    lemma FallsBackIs(d: Decision)
      ensures FallsBack(d) <==> !Keeps(d.dec) && d.changedMembers && LosesMachines(d, localIndex, startedIndex, ready, proposalInfo)
    {
    }

    lemma Opened(d: Decision)
      requires Valid() && Fits(d)
      ensures keepPast >= 1 && 1 <= first <= localIndex <= lastItem && gcUpTo >= 1 && Interval(held, first, lastItem)
      ensures (first == gcUpTo + 1 || (gcUpTo == 1 && first == 1)) && first <= Max(1, SubOrZero(localIndex, keepPast))
      ensures Known(ready, first, localIndex) && Recent(lastNonNilDecs, localIndex) && |lastNonNilDecs| <= keepPast
      ensures MachinesInv(localIndex) && startedIndex <= lastItem && needsConcurrent >= 1
      ensures localIndex in proposalInfo && localIndex in preDecisions && allowConcurrent == 0 && d.dec != [] ==> preDecisions[localIndex] in {[], d.dec}
      ensures Keeps(d.dec) && (localIndex !in proposalInfo || Discards(localIndex, d.dec)) ==> Supports(d.support)
      ensures d.futureDependent.Some? ==> lastMCInputIndex <= d.futureDependent.value && localIndex < d.futureDependent.value
      ensures d.futureDependent.None? ==> !d.changedMembers
    {
      hide MachinesOk, Interval, Recent, Known, Discards;
    }

    lemma Closed(idx: nat)
      requires keepPast >= 1 && localIndex == idx + 1 && 1 <= first <= idx < lastItem && Interval(held, first, lastItem) && gcUpTo >= 1
      requires (first == gcUpTo + 1 || (gcUpTo == 1 && first == 1)) && first <= Max(1, SubOrZero(idx, keepPast))
      requires Known(ready, first, localIndex) && Recent(lastNonNilDecs, localIndex) && |lastNonNilDecs| <= keepPast
      ensures WindowOk()
    {
      hide Interval, Recent, Known;
    }

    lemma Inside()
      requires Valid()
      ensures WindowOk() && MachinesOk(proposalInfo, machines, preDecisions, localIndex, startedIndex) && localIndex >= 1
      ensures startedIndex <= lastItem && needsConcurrent >= 1
    {
      hide MachinesOk, Interval, Recent, Known;
    }

    lemma Within()
      requires WindowOk() && MachinesOk(proposalInfo, machines, preDecisions, localIndex, startedIndex) && startedIndex <= lastItem && needsConcurrent >= 1
      ensures Valid()
    {
      hide WindowOk, MachinesOk;
    }

    lemma MachinesHold()
      requires WindowOk() && MachinesInv(localIndex) && startedIndex <= lastItem && needsConcurrent >= 1
      ensures Valid()
    {
      hide WindowOk, MachinesInv;
    }

    /** Puts `idx` on the list of the last decisions with a value, and says what to collect before. */
    method NoteDecision(idx: nat) returns (gcUntil: nat)
      requires keepPast >= 1 && Recent(lastNonNilDecs, idx) && |lastNonNilDecs| <= keepPast
      modifies this`lastNonNilDecs
      ensures Recent(lastNonNilDecs, idx + 1) && |lastNonNilDecs| <= keepPast && (gcUntil > 0 ==> gcUntil + keepPast <= idx)
      ensures lastNonNilDecs == LastOf(old(lastNonNilDecs) + [idx], keepPast)
      ensures gcUntil == CollectedUpTo(old(lastNonNilDecs), lastNonNilDecs)
      ensures gcUntil == if |old(lastNonNilDecs)| == keepPast then SubOrZero(lastNonNilDecs[0], 1) else 0
    {
      hide Recent, StrictlyRising;
      gcUntil := 0;
      RecentAppend(lastNonNilDecs, idx);
      lastNonNilDecs := lastNonNilDecs + [idx];
      if |lastNonNilDecs| > keepPast {
        RecentTail(lastNonNilDecs, idx + 1);
        lastNonNilDecs := lastNonNilDecs[1..];
        RisingSpread(lastNonNilDecs, idx + 1);
        gcUntil := SubOrZero(lastNonNilDecs[0], 1);
      }
    }

    /** The indices below this are collected when `before` becomes `after`. */
    function CollectedUpTo(before: seq<nat>, after: seq<nat>): nat {
      if |before| == keepPast && after != [] then SubOrZero(after[0], 1) else 0
    }

    /** Removes the indices that are out of reach of the last `keepPast` decisions with a value. */
    method CollectOld(idx: nat)
      requires keepPast >= 1 && localIndex == idx + 1 && 1 <= first <= idx < lastItem && Interval(held, first, lastItem)
      requires gcUpTo >= 1 && (first == gcUpTo + 1 || (gcUpTo == 1 && first == 1)) && first <= Max(1, SubOrZero(idx, keepPast))
      requires Known(ready, first, localIndex) && Recent(lastNonNilDecs, idx) && |lastNonNilDecs| <= keepPast && MachinesInv(localIndex)
      modifies this`lastNonNilDecs, this`gcUpTo, this`first, this`held, this`ready, this`proposalInfo, this`preDecisions, this`supportIndex, this`gotProposal
      ensures WindowOk() && MachinesInv(localIndex) && lastNonNilDecs == LastOf(old(lastNonNilDecs) + [idx], keepPast)
      ensures |old(lastNonNilDecs)| == keepPast ==> first + 1 >= lastNonNilDecs[0] && first <= Max(old(first), lastNonNilDecs[0])
      ensures |old(lastNonNilDecs)| < keepPast ==> first == old(first)
      ensures forall i :: i in proposalInfo ==> i in old(proposalInfo) && proposalInfo[i] == old(proposalInfo)[i]
      ensures idx in old(proposalInfo) ==> idx in proposalInfo
      ensures ready <= old(ready) && forall i :: i in old(ready) && i >= localIndex ==> i in ready
      ensures CollectedUpTo(old(lastNonNilDecs), lastNonNilDecs) <= idx
      ensures NotesCut(old(Noted()), Noted(), 0, old(gcUpTo), CollectedUpTo(old(lastNonNilDecs), lastNonNilDecs))
    {
      hide MachinesOk, Recent, Interval, NotesCut, CollectedUpTo, CutAt, LastOf, Known;
      var gcUntil := NoteDecision(idx);
      NothingCut(Noted(), gcUpTo, gcUpTo);
      ghost var up, lo := gcUpTo, first;
      var v := gcUpTo;
      while v < gcUntil
        invariant up <= v && ((v == up == gcUpTo && first == lo) || (v <= gcUntil && first == v == gcUpTo + 1 && v > up))
        invariant Interval(held, first, lastItem) && Known(ready, first, localIndex) && MachinesInv(localIndex)
        invariant Recent(lastNonNilDecs, localIndex) && |lastNonNilDecs| <= keepPast && lastNonNilDecs == LastOf(old(lastNonNilDecs) + [idx], keepPast)
        invariant forall i :: i in proposalInfo ==> i in old(proposalInfo) && proposalInfo[i] == old(proposalInfo)[i]
        invariant idx in old(proposalInfo) ==> idx in proposalInfo
        invariant ready <= old(ready) && forall i :: i in old(ready) && i >= localIndex ==> i in ready
        invariant NotesCut(old(Noted()), Noted(), 0, up, v)
      {
        CutOne(old(Noted()), Noted(), up, v);
        ForgetStep(proposalInfo, machines, preDecisions, localIndex, startedIndex, v);
        IntervalDrop(held, first, lastItem, v);
        KnownDrop(ready, first, localIndex, v);
        ClearIndex(v);
        first := v + 1;
        // the next index is still there
        assert v + 1 in held;
        gcUpTo := v;
        v := v + 1;
      }
      if gcUntil <= up { CutMoves(old(Noted()), Noted(), up, up, up, gcUntil); }
    }

    // ----- Before the decision -----

    /** What is expected of an index builds on the index before it, unless it is a value in a mode that
        lets it skip some. */
    ghost predicate Plausible(info: map<nat, Expectation>) {
      forall i :: i in info && i >= 1 && (info[i].value == [] || allowConcurrent > 0) ==> info[i].support == i - 1
    }

    /** Gives the machine of every started index what the index is expected to decide, once. A machine made
        on the way is asked for a proposal, if one is needed. */
    method CheckPreDecision(info: map<nat, Expectation>, proposals: map<nat, nat>)
      requires Valid() && Plausible(info)
      modifies this`held, this`lastItem, this`ready, this`proposalInfo, this`machines, this`preDecisions, this`supportIndex, this`gotProposal, this`requested
      ensures Valid() && Decided(old(machines), machines, localIndex) && ready >= old(ready)
      ensures AskedOnce(old(requested), old(gotProposal), requested, gotProposal)
      ensures Informed(old(Planned()), Planned(), info, proposals, localIndex, startedIndex + 1)
      ensures forall i :: NewlyMade(old(Planned()), Planned(), info, proposals, i) ==> i in requested
    {
      hide *;
      DecidedSame(machines, localIndex);
      AskedNone(requested, gotProposal);
      NoneInformed(Planned(), info, proposals, localIndex);
      NoneMade(Planned(), info, proposals);
      NotedIs();
      var idx := localIndex;
      while idx <= startedIndex
        invariant localIndex <= idx && (idx == localIndex || idx <= startedIndex + 1) && Valid() && Decided(old(machines), machines, localIndex) && ready >= old(ready)
        invariant Informed(old(Planned()), Planned(), info, proposals, localIndex, idx)
        invariant AskedOnce(old(requested), old(gotProposal), requested, gotProposal)
        invariant forall i :: NewlyMade(old(Planned()), Planned(), info, proposals, i) ==> i in requested
        decreases startedIndex + 1 - idx
      {
        Have(idx);
        ghost var plan := Planned();
        NotedIs();
        NotMadeYet(old(Planned()), plan, info, proposals, localIndex, idx);
        Inside();
        Owners(plan, localIndex, startedIndex);
        if idx !in preDecisions && idx in info {
          ghost var ms, rq, got := machines, requested, gotProposal;
          Expect(idx, info[idx], if idx in proposals then Some(proposals[idx]) else None);
          DecidedTwice(old(machines), ms, machines, localIndex);
          AskedTwice(old(requested), old(gotProposal), rq, got, requested, gotProposal);
        }
        forall i | NewlyMade(old(Planned()), Planned(), info, proposals, i) ensures i in requested {
          NotedIs();
          MadeHere(old(Planned()), plan, Planned(), info, proposals, idx, i);
        }
        InformedMore(old(Planned()), plan, Planned(), info, proposals, localIndex, idx);
        idx := idx + 1;
      }
      InformedAll(old(Planned()), Planned(), info, proposals, localIndex, idx, startedIndex + 1);
    }

    method Expect(idx: nat, e: Expectation, proposalIndex: Option<nat>)
      requires Valid() && localIndex <= idx <= startedIndex && idx !in preDecisions
      modifies this`proposalInfo, this`machines, this`preDecisions, this`supportIndex, this`gotProposal, this`requested
      ensures AskedOnce(old(requested), old(gotProposal), requested, gotProposal)
      ensures requested == if idx !in old(proposalInfo) && idx in proposalInfo && proposalIndex == Some(e.support) && idx !in old(gotProposal) then old(requested) + [idx] else old(requested)
      ensures Valid() && Decided(old(machines), machines, localIndex)
      ensures Expects(old(Planned()), Planned(), idx, e, proposalIndex)
    {
      hide *;
      NotedIs();
      Inside();
      AskedNone(requested, gotProposal);
      DecidedSame(machines, localIndex);
      StoredAt(proposalInfo, machines, preDecisions, localIndex, startedIndex);
      if idx !in proposalInfo {
        var made := MakeExpected(idx, e.support, proposalIndex);
        if !made {
          LeavesIt(Planned(), idx, e, proposalIndex);
          return;
        }
      }
      ghost var ms := machines;
      Give(idx, e);
      DecidedTwice(old(machines), ms, machines, localIndex);
      NotedIs();
      TakesIt(old(Planned()), Planned(), idx, e, proposalIndex);
    }

    /** Gives the stored machine of an undecided index what it is expected to decide. */
    method Give(idx: nat, e: Expectation)
      requires Valid() && localIndex <= idx && idx in proposalInfo && idx !in preDecisions
      modifies this`machines, this`preDecisions, this`supportIndex
      ensures Valid() && Decided(old(machines), machines, localIndex)
      ensures preDecisions == old(preDecisions)[idx := e.value] && supportIndex == old(supportIndex)[idx := e.support]
      ensures |machines| == |old(machines)| && proposalInfo[idx] < |machines|
      ensures forall m: nat :: m < |machines| && m != proposalInfo[idx] ==> machines[m] == old(machines)[m]
    {
      hide *;
      Inside();
      DecidedSame(machines, localIndex);
      supportIndex := supportIndex[idx := e.support];
      ExpectStep(proposalInfo, machines, preDecisions, localIndex, startedIndex, idx, e.value);
      preDecisions := preDecisions[idx := e.value];
      if e.value != [] {
        var m := proposalInfo[idx];
        assert machines[m].decisions + [e.value] == [e.value];
        machines := machines[m := machines[m].(decisions := machines[m].decisions + [e.value])];
      }
      Within();
    }

    /** Makes a machine that builds on the one of `support`, if that is there and has its decision. */
    method MakeExpected(idx: nat, support: nat, proposalIndex: Option<nat>) returns (made: bool)
      requires Valid() && localIndex <= idx <= startedIndex && idx !in proposalInfo
      modifies this`proposalInfo, this`machines, this`gotProposal, this`requested
      ensures Valid() && Decided(old(machines), machines, localIndex) && AskedOnce(old(requested), old(gotProposal), requested, gotProposal)
      ensures !made ==> unchanged(this)
      ensures made ==> proposalInfo == old(proposalInfo)[idx := |old(machines)|] && machines == old(machines) + [Machine(idx, [], NotDone)]
      ensures made ==> gotProposal == if proposalIndex.Some? then old(gotProposal) + {idx} else old(gotProposal)
      ensures made ==> requested == if proposalIndex == Some(support) && idx !in old(gotProposal) then old(requested) + [idx] else old(requested)
      ensures made <==> CanBuild(old(proposalInfo), old(machines), support)
    {
      hide *;
      Inside();
      AskedNone(requested, gotProposal);
      DecidedSame(machines, localIndex);
      StoredAt(proposalInfo, machines, preDecisions, localIndex, startedIndex);
      BuildsExactly(proposalInfo, machines, support);
      if support !in proposalInfo {
        return false;
      }
      if support != 0 && machines[proposalInfo[support]].decisions == [] {
        return false;
      }
      AddStep(proposalInfo, machines, preDecisions, localIndex, startedIndex, idx);
      AskNew(idx, support, proposalIndex);
      proposalInfo := proposalInfo[idx := |machines|];
      machines := machines + [Machine(idx, [], NotDone)];
      Within();
      made := true;
    }

    /** Asks a machine just made for a proposal, unless its index was asked before or names another support. */
    method AskNew(idx: nat, support: nat, proposalIndex: Option<nat>)
      modifies this`gotProposal, this`requested
      ensures AskedOnce(old(requested), old(gotProposal), requested, gotProposal)
      ensures gotProposal == if proposalIndex.Some? then old(gotProposal) + {idx} else old(gotProposal)
      ensures requested == if proposalIndex == Some(support) && idx !in old(gotProposal) then old(requested) + [idx] else old(requested)
    {
      if proposalIndex.Some? && idx !in gotProposal {
        gotProposal := gotProposal + {idx};
        if proposalIndex.value == support {
          requested := requested + [idx];
        }
      } else {
        assert idx in gotProposal ==> gotProposal + {idx} == gotProposal;
      }
    }

    /** A proposal can be asked for: a stored machine builds on the index named now (0 if none was noted), and one that has to
        be made builds on a decided index, unless running concurrently. */
    predicate Askable(nextIdx: nat, proposalIndex: Option<nat>)
      reads this`startedIndex, this`gotProposal, this`proposalInfo, this`supportIndex, this`machines
    {
      proposalIndex.Some? && nextIdx <= startedIndex && nextIdx !in gotProposal ==>
        if nextIdx in proposalInfo then proposalIndex.value == if nextIdx in supportIndex then supportIndex[nextIdx] else 0
        else proposalIndex.value in proposalInfo && proposalIndex.value != 0 && allowConcurrent == 0 ==>
            proposalInfo[proposalIndex.value] < |machines| && machines[proposalInfo[proposalIndex.value]].decisions != []
    }

    /** A proposal is asked of `nextIdx`: it has started, names the index it builds on, was not asked before,
        and its machine is stored or the machine of the index named is, and was not cleared. */
    predicate Asks(nextIdx: nat, proposalIndex: Option<nat>)
      reads this`startedIndex, this`gotProposal, this`proposalInfo, this`machines
    {
      && nextIdx <= startedIndex && proposalIndex.Some? && nextIdx !in gotProposal
      && (nextIdx in proposalInfo || Clean(proposalIndex.value))
    }

    /** The machine of `support` is stored and was not cleared. */
    predicate Clean(support: nat)
      reads this`proposalInfo, this`machines
    {
      support in proposalInfo && proposalInfo[support] < |machines| && machines[proposalInfo[support]].done != DoneClear
    }

    /** Asks the machine of a started index for a proposal, once; running concurrently, a machine is made
        for it and stored with its support. */
    method CheckProposalNeeded(nextIdx: nat, proposalIndex: Option<nat>)
      requires Valid() && nextIdx >= localIndex && Askable(nextIdx, proposalIndex)
      modifies this`held, this`lastItem, this`ready, this`proposalInfo, this`machines, this`supportIndex, this`gotProposal, this`requested
      ensures Valid() && Decided(old(machines), machines, localIndex) && ready >= old(ready)
      ensures old(Asks(nextIdx, proposalIndex)) ==> requested == old(requested) + [nextIdx] && gotProposal == old(gotProposal) + {nextIdx}
      ensures !old(Asks(nextIdx, proposalIndex)) ==> requested == old(requested) && gotProposal == old(gotProposal)
      ensures old(Asks(nextIdx, proposalIndex)) && nextIdx !in old(proposalInfo) && allowConcurrent > 0 ==>
        Builds(old(proposalInfo), old(machines), old(supportIndex), nextIdx, proposalIndex.value)
      ensures !old(Asks(nextIdx, proposalIndex)) || nextIdx in old(proposalInfo) || allowConcurrent == 0 ==>
        proposalInfo == old(proposalInfo) && machines == old(machines) && supportIndex == old(supportIndex)
      ensures AskedOnce(old(requested), old(gotProposal), requested, gotProposal)
    {
      hide *;
      AsksExactly(nextIdx, proposalIndex);
      AskedNone(requested, gotProposal);
      DecidedSame(machines, localIndex);
      if nextIdx > startedIndex {
        return;
      }
      Have(nextIdx);
      if proposalIndex.Some? && nextIdx !in gotProposal {
        Propose(nextIdx, proposalIndex.value);
      }
    }

    lemma AsksExactly(nextIdx: nat, proposalIndex: Option<nat>)
      ensures Asks(nextIdx, proposalIndex) <==>
        && nextIdx <= startedIndex && proposalIndex.Some? && nextIdx !in gotProposal
        && (nextIdx in proposalInfo || Clean(proposalIndex.value))
    {
    }

    lemma CleanExactly(support: nat)
      ensures Clean(support) <==>
        support in proposalInfo && proposalInfo[support] < |machines| && machines[proposalInfo[support]].done != DoneClear
    {
    }

    /** A new machine is stored for `idx`, with the index it builds on; nothing else is. */
    ghost predicate Builds(info: map<nat, nat>, ms: seq<Machine>, supports: map<nat, nat>, idx: nat, support: nat)
      reads this`proposalInfo, this`machines, this`supportIndex
    {
      proposalInfo == info[idx := |ms|] && machines == ms + [Machine(idx, [], NotDone)] && supportIndex == supports[idx := support]
    }

    method Propose(nextIdx: nat, support: nat)
      requires Valid() && localIndex <= nextIdx <= startedIndex && nextIdx !in gotProposal
      modifies this`proposalInfo, this`machines, this`supportIndex, this`gotProposal, this`requested
      ensures Valid() && Decided(old(machines), machines, localIndex)
      ensures AskedOnce(old(requested), old(gotProposal), requested, gotProposal)
      ensures nextIdx in old(proposalInfo) || old(Clean(support)) ==> requested == old(requested) + [nextIdx] && gotProposal == old(gotProposal) + {nextIdx}
      ensures nextIdx !in old(proposalInfo) && !old(Clean(support)) ==> unchanged(this)
      ensures nextIdx !in old(proposalInfo) && old(Clean(support)) && allowConcurrent > 0 ==>
        Builds(old(proposalInfo), old(machines), old(supportIndex), nextIdx, support)
      ensures nextIdx in old(proposalInfo) || allowConcurrent == 0 ==>
        proposalInfo == old(proposalInfo) && machines == old(machines) && supportIndex == old(supportIndex)
    {
      hide *;
      Inside();
      CleanExactly(support);
      AskedNone(requested, gotProposal);
      AskedHere(requested, gotProposal, nextIdx);
      DecidedSame(machines, localIndex);
      StoredAt(proposalInfo, machines, preDecisions, localIndex, startedIndex);
      if nextIdx !in proposalInfo {
        if support !in proposalInfo || machines[proposalInfo[support]].done == DoneClear {
          return;
        }
        if allowConcurrent > 0 {
          AddStep(proposalInfo, machines, preDecisions, localIndex, startedIndex, nextIdx);
          proposalInfo := proposalInfo[nextIdx := |machines|];
          machines := machines + [Machine(nextIdx, [], NotDone)];
          supportIndex := supportIndex[nextIdx := support];
          BuildsMeans(old(proposalInfo), old(machines), old(supportIndex), nextIdx, support);
        }
      }
      requested := requested + [nextIdx];
      gotProposal := gotProposal + {nextIdx};
      Within();
    }

    lemma BuildsMeans(info: map<nat, nat>, ms: seq<Machine>, supports: map<nat, nat>, idx: nat, support: nat)
      requires proposalInfo == info[idx := |ms|] && machines == ms + [Machine(idx, [], NotDone)] && supportIndex == supports[idx := support]
      ensures Builds(info, ms, supports, idx, support)
    {
    }

    // ----- The state machines -----

    ghost predicate MachinesInv(local: nat)
      reads this`proposalInfo, this`machines, this`preDecisions, this`startedIndex
    {
      MachinesOk(proposalInfo, machines, preDecisions, local, startedIndex)
    }

    predicate Keeps(dec: Bytes) {
      dec != [] || allowConcurrent > 0 || needsConcurrent == 1
    }

    /** The stored machine is of no use: running concurrently, it is made anew at the decision; or the
        decision is not what was expected of it. */
    predicate Discards(idx: nat, dec: Bytes)
      reads this`preDecisions
    {
      || allowConcurrent > 0
      || (needsConcurrent > 1 && dec == [])
      || (idx in preDecisions && preDecisions[idx] != dec)
    }

    /** Gives the machine of the decided index its decision and finishes it, or makes one that builds on
        the machine of `support`. */
    method FinishMachine(idx: nat, dec: Bytes, support: nat)
      requires MachinesInv(idx) && 1 <= idx && needsConcurrent >= 1
      requires idx in proposalInfo && idx in preDecisions && allowConcurrent == 0 && dec != [] ==> preDecisions[idx] in {[], dec}
      requires Keeps(dec) && (idx !in proposalInfo || Discards(idx, dec)) ==> Supports(support)
      modifies this`proposalInfo, this`machines, this`supportIndex
      ensures MachinesInv(idx + 1)
      ensures forall i :: i != idx ==> (i in proposalInfo <==> i in old(proposalInfo))
      ensures forall i :: i != idx && i in proposalInfo ==> proposalInfo[i] == old(proposalInfo)[i]
      ensures Extends(old(machines), machines, idx)
      ensures Keeps(dec) ==> idx in proposalInfo && proposalInfo[idx] < |machines| && machines[proposalInfo[idx]] == Machine(idx, [dec], DoneKeep)
      ensures !Keeps(dec) ==> proposalInfo == old(proposalInfo) && NoneLeft(machines, idx)
      ensures supportIndex == if Keeps(dec) && (idx !in old(proposalInfo) || Discards(idx, dec)) then old(supportIndex)[idx := support] else old(supportIndex)
    {
      hide MachinesOk, Extends, NoneLeft, Discards, Expected, Supports;
      ghost var stored, ms := proposalInfo, machines;
      var pi, gotInput := Reuse(idx, dec);
      if dec != [] || allowConcurrent > 0 || (allowConcurrent == 0 && needsConcurrent == 1) {
        ghost var before := machines;
        if pi.None? {
          NewStep(stored, ms, before, preDecisions, idx, startedIndex, dec);
          pi := Some(|machines|);
          machines := machines + [Machine(idx, [], NotDone)];
          proposalInfo := proposalInfo[idx := pi.value];
          supportIndex := supportIndex[idx := support];
        } else {
          KeepStep(stored, ms, preDecisions, idx, startedIndex, dec);
        }
        Decide(pi.value, dec, gotInput);
        if pi.value == |before| {
          assert machines == before + [Machine(idx, [dec], DoneKeep)];
        }
      }
    }

    /** The stored machine if it can be kept, and whether it already has its decision; a machine of no
        use is cleared. */
    method Reuse(idx: nat, dec: Bytes) returns (pi: Option<nat>, gotInput: bool)
      requires MachinesInv(idx) && needsConcurrent >= 1
      requires idx in proposalInfo && idx in preDecisions && allowConcurrent == 0 && dec != [] ==> preDecisions[idx] in {[], dec}
      modifies this`machines
      ensures Keeps(dec) && pi.Some? ==>
        && idx in proposalInfo && pi.value == proposalInfo[idx] && machines == old(machines) && pi.value < |machines|
        && machines[pi.value] == Machine(idx, if gotInput then [dec] else [], NotDone)
      ensures pi.None? || !Keeps(dec) ==>
        && MachinesInv(idx + 1) && NoneLeft(machines, idx) && |machines| == |old(machines)| && Extends(old(machines), machines, idx)
      ensures Keeps(dec) ==> (pi.None? <==> idx !in proposalInfo || Discards(idx, dec))
      ensures pi.None? ==> !gotInput
    {
      hide MachinesOk, Extends, NoneLeft;
      StoredMachine(proposalInfo, machines, preDecisions, idx, startedIndex);
      pi, gotInput := if idx in proposalInfo then Some(proposalInfo[idx]) else None, false;
      if pi.None? {
        SkipStep(proposalInfo, machines, preDecisions, idx, startedIndex);
        return;
      }
      ClearStep(proposalInfo, machines, preDecisions, idx, startedIndex);
      if allowConcurrent > 0 {
        ClearMachine(pi.value);
        pi := None;
      } else if needsConcurrent > 1 && dec == [] {
        ClearMachine(pi.value);
      } else if idx in preDecisions {
        if dec != preDecisions[idx] {
          ClearMachine(pi.value);
          pi := None;
        } else if preDecisions[idx] != [] {
          gotInput := true;
        }
      }
    }

    method Decide(m: nat, dec: Bytes, gotInput: bool)
      requires m < |machines| && machines[m].decisions == if gotInput then [dec] else []
      modifies this`machines
      ensures machines == old(machines)[m := Machine(old(machines)[m].index, [dec], DoneKeep)]
    {
      if !gotInput {
        assert machines[m].decisions + [dec] == [dec];
        machines := machines[m := machines[m].(decisions := machines[m].decisions + [dec])];
      }
      machines := machines[m := machines[m].(done := DoneKeep)];
    }

    // ----- Changing members -----

    /** Tells the next index about the decision at `idx`. If the members changed, the first later index
        that already knew its members, and all after it, are removed to be made anew. */
    method UpdateMC(idx: nat, futureDependent: Option<nat>, changedMembers: bool)
      requires Interval(held, first, lastItem) && first <= idx <= lastItem && MachinesInv(idx + 1) && startedIndex <= lastItem
      requires futureDependent.Some? ==> lastMCInputIndex <= futureDependent.value && idx < futureDependent.value
      requires futureDependent.None? ==> !changedMembers
      modifies this`held, this`lastItem, this`ready, this`lastMCInputIndex, this`startedIndex, this`proposalInfo, this`machines,
               this`preDecisions, this`supportIndex, this`gotProposal
      ensures Interval(held, first, lastItem) && idx + 1 <= lastItem && (Known(old(ready), first, idx) ==> Known(ready, first, idx + 1))
      ensures !changedMembers ==> ready >= old(ready)
      ensures startedIndex <= lastItem && startedIndex <= old(startedIndex)
      ensures if lastItem < old(startedIndex) then IsLargest(startedIndex, proposalInfo.Keys) else startedIndex == old(startedIndex)
      ensures lastMCInputIndex == if futureDependent.Some? then futureDependent.value else old(lastMCInputIndex)
      ensures MachinesInv(idx + 1) && Later(old(machines), machines, idx) && Truncated(old(proposalInfo), proposalInfo, lastItem + 1)
      ensures changedMembers ==> forall i :: Max(idx + 2, futureDependent.value) <= i <= lastItem ==> i !in old(ready)
      ensures lastItem < Max(old(lastItem), idx + 1) ==> changedMembers && lastItem + 1 in old(ready) && lastItem + 1 >= Max(idx + 2, futureDependent.value)
      ensures lastItem <= Max(old(lastItem), idx + 1) && KnownAlike(old(ready), ready, idx + 2, lastItem)
      ensures NotesCut(old(Noted()), Noted(), 0, lastItem + 1, old(lastItem) + 1)
    {
      hide MachinesOk, Later, Truncated, NotesCut, KnownAlike, Interval, IsLargest;
      InInterval(held, first, lastItem, idx + 1);
      NothingCut(Noted(), Max(lastItem, idx + 1) + 1, lastItem + 1);
      LaterSame(machines, idx);
      NothingTruncated(proposalInfo, machines, preDecisions, idx + 1, startedIndex, Max(lastItem, idx + 1) + 1);
      if futureDependent.Some? {
        lastMCInputIndex := futureDependent.value;
      }
      GetIndex(idx + 1);
      AlikeSince(old(ready), ready, idx + 1, old(lastItem), lastItem);
      ready := ready + {idx + 1};
      if futureDependent.None? {
        return;
      }
      ghost var known, last := ready, lastItem;
      ClearAndRestart(idx, Max(idx + 2, futureDependent.value), changedMembers);
      AlikeBelow(old(ready), known, ready, idx + 2, last, lastItem + 1);
      if old(lastItem) < idx + 1 { CutMoves(old(Noted()), Noted(), lastItem + 1, last + 1, lastItem + 1, old(lastItem) + 1); }
    }

    /** Removes what a change of members concerns; if a started index was removed, the last index with a
        machine becomes the started one. */
    method ClearAndRestart(idx: nat, startClear: nat, changedMembers: bool)
      requires Interval(held, first, lastItem) && first <= idx + 1 < startClear && idx + 1 <= lastItem && MachinesInv(idx + 1) && startedIndex <= lastItem
      modifies this`held, this`lastItem, this`ready, this`startedIndex, this`proposalInfo, this`machines,
               this`preDecisions, this`supportIndex, this`gotProposal
      ensures Interval(held, first, lastItem) && idx + 1 <= lastItem <= old(lastItem)
      ensures !changedMembers ==> ready >= old(ready)
      ensures startedIndex <= lastItem && startedIndex <= old(startedIndex)
      ensures if lastItem < old(startedIndex) then IsLargest(startedIndex, proposalInfo.Keys) else startedIndex == old(startedIndex)
      ensures MachinesInv(idx + 1) && Later(old(machines), machines, idx) && Truncated(old(proposalInfo), proposalInfo, lastItem + 1)
      ensures changedMembers ==> forall i :: startClear <= i <= lastItem ==> i !in old(ready)
      ensures lastItem < old(lastItem) ==> changedMembers && lastItem + 1 in old(ready) && lastItem + 1 >= startClear
      ensures forall i :: i <= lastItem ==> (i in ready <==> i in old(ready))
      ensures NotesCut(old(Noted()), Noted(), 0, lastItem + 1, old(lastItem) + 1)
    {
      hide MachinesOk, Later, Truncated, NotesCut, Interval, IsLargest;
      var clearedFrom := ClearLater(idx, startClear, changedMembers);
      if clearedFrom <= startedIndex {
        HasKeys(proposalInfo, machines, preDecisions, idx + 1, startedIndex);
        ghost var was := startedIndex;
        startedIndex := MaxKey(proposalInfo.Keys);
        Restarted(old(proposalInfo), proposalInfo, machines, preDecisions, idx + 1, was, startedIndex, clearedFrom);
      }
      lastItem := clearedFrom - 1;
    }

    /** Removes the indices from the first one on that knew its members. */
    method ClearLater(idx: nat, startClear: nat, changedMembers: bool) returns (clearedFrom: nat)
      requires Interval(held, first, lastItem) && first <= idx + 1 < startClear && idx + 1 <= lastItem && MachinesInv(idx + 1) && startedIndex <= lastItem
      modifies this`held, this`ready, this`proposalInfo, this`machines, this`preDecisions, this`supportIndex, this`gotProposal
      ensures idx + 2 <= clearedFrom <= lastItem + 1 && Interval(held, first, clearedFrom - 1)
      ensures forall i: nat :: i <= idx + 1 ==> (i in ready <==> i in old(ready))
      ensures !changedMembers ==> ready >= old(ready)
      ensures MachinesInv(idx + 1) && Later(old(machines), machines, idx) && Truncated(old(proposalInfo), proposalInfo, clearedFrom)
      ensures changedMembers ==> forall i :: startClear <= i < clearedFrom ==> i !in old(ready)
      ensures clearedFrom <= lastItem ==> changedMembers && clearedFrom in old(ready) && clearedFrom >= startClear
      ensures forall i :: i < clearedFrom ==> (i in ready <==> i in old(ready))
      ensures NotesCut(old(Noted()), Noted(), 0, clearedFrom, lastItem + 1)
    {
      hide MachinesOk, Later, Gap, Truncated, NotesCut;
      NothingCut(Noted(), lastItem + 1, lastItem + 1);
      clearedFrom := lastItem + 1;
      LaterSame(machines, idx);
      NothingTruncated(proposalInfo, machines, preDecisions, idx + 1, startedIndex, lastItem + 1);
      if startClear > lastItem {
        return;
      }
      ghost var was := proposalInfo;
      NoGap(was, clearedFrom, startClear);
      var mustClear := false;
      var i := startClear;
      while i <= lastItem
        invariant startClear <= i <= lastItem + 1
        invariant if mustClear then startClear <= clearedFrom < i && changedMembers && clearedFrom in old(ready) else clearedFrom == lastItem + 1
        invariant changedMembers ==> forall j :: startClear <= j < i && j < clearedFrom ==> j !in old(ready)
        invariant forall j: nat :: j in held <==> first <= j <= lastItem && !(clearedFrom <= j < i)
        invariant forall j: nat :: !(clearedFrom <= j < i) ==> (j in ready <==> j in old(ready))
        invariant MachinesInv(idx + 1) && Later(old(machines), machines, idx) && Gap(was, proposalInfo, clearedFrom, i)
        invariant NotesCut(old(Noted()), Noted(), 0, clearedFrom, if mustClear then i else lastItem + 1)
      {
        if changedMembers && i in ready {
          mustClear := true;
        }
        if mustClear {
          if clearedFrom > i {
            SameGap(was, proposalInfo, clearedFrom, i, i);
            CutMoves(old(Noted()), Noted(), lastItem + 1, lastItem + 1, i, i);
            clearedFrom := i;
          }
          CutOne(old(Noted()), Noted(), clearedFrom, i);
          // the index before it was held when the loop came to it
          assert first <= i - 1 <= lastItem;
          GapStep(was, proposalInfo, clearedFrom, i);
          ghost var ms := machines;
          DropMachine(idx, i);
          LaterTwice(old(machines), ms, machines, idx);
          ClearIndex(i);
        } else {
          SameGap(was, proposalInfo, clearedFrom, i, i + 1);
        }
        i := i + 1;
      }
      GapIsTruncated(was, proposalInfo, startedIndex, clearedFrom, lastItem);
    }

    /** Clears the machine of a started index that is removed. */
    method DropMachine(idx: nat, i: nat)
      requires MachinesInv(idx + 1) && i > idx + 1
      modifies this`proposalInfo, this`machines
      ensures MachinesOk(proposalInfo, machines, preDecisions - {i}, idx + 1, startedIndex) && proposalInfo == old(proposalInfo) - {i}
      ensures Later(old(machines), machines, idx)
    {
      hide MachinesOk, Later;
      LaterSame(machines, idx);
      DropStep(proposalInfo, machines, preDecisions, idx + 1, startedIndex, i);
      if i <= startedIndex && i in proposalInfo {
        ClearMachine(proposalInfo[i]);
        proposalInfo := proposalInfo - {i};
      } else {
        assert proposalInfo - {i} == proposalInfo;
      }
    }

    method ClearIndex(v: nat)
      modifies this`held, this`ready, this`proposalInfo, this`preDecisions, this`supportIndex, this`gotProposal
      ensures held == old(held) - {v} && ready == old(ready) - {v} && proposalInfo == old(proposalInfo) - {v}
      ensures preDecisions == old(preDecisions) - {v} && supportIndex == old(supportIndex) - {v} && gotProposal == old(gotProposal) - {v}
    {
      held, ready := held - {v}, ready - {v};
      proposalInfo := proposalInfo - {v};
      preDecisions := preDecisions - {v};
      supportIndex := supportIndex - {v};
      gotProposal := gotProposal - {v};
    }

    method MaxKey(keys: set<nat>) returns (m: nat)
      requires keys != {}
      ensures IsLargest(m, keys)
    {
      var rest := keys;
      m := 0;
      while rest != {}
        invariant rest <= keys && ((rest == keys && m == 0) || m in keys)
        invariant forall k :: k in keys && k !in rest ==> k <= m
        decreases rest
      {
        var k :| k in rest;
        if m < k || m !in keys { m := k; }
        rest := rest - {k};
      }
    }

    method ClearMachine(m: nat)
      requires m < |machines|
      modifies this`machines
      ensures machines == old(machines)[m := old(machines)[m].(done := DoneClear)]
    {
      machines := machines[m := machines[m].(done := DoneClear)];
    }
  }

  // ----- State machines -----

  /** Between the two states every index was asked for a proposal at most once, was not marked before, and is
      marked now. */
  ghost predicate AskedOnce(r0: seq<nat>, g0: set<nat>, r1: seq<nat>, g1: set<nat>) {
    && r0 <= r1 && g0 <= g1
    && (forall k :: |r0| <= k < |r1| ==> r1[k] !in g0 && r1[k] in g1)
    && forall j, k :: |r0| <= j < k < |r1| ==> r1[j] != r1[k]
  }

  lemma AskedNone(rq: seq<nat>, got: set<nat>)
    ensures AskedOnce(rq, got, rq, got)
  {
  }

  lemma AskedHere(rq: seq<nat>, got: set<nat>, idx: nat)
    requires idx !in got
    ensures AskedOnce(rq, got, rq + [idx], got + {idx}) && rq != rq + [idx]
  {
    assert |rq| != |rq + [idx]|;
  }

  lemma AskedTwice(r0: seq<nat>, g0: set<nat>, r1: seq<nat>, g1: set<nat>, r2: seq<nat>, g2: set<nat>)
    requires AskedOnce(r0, g0, r1, g1) && AskedOnce(r1, g1, r2, g2)
    ensures AskedOnce(r0, g0, r2, g2)
  {
    forall k | |r0| <= k < |r1| ensures r2[k] == r1[k] { }
  }

  /** `c` is the first index from the one named in `d` on, but past the next one, that knows its members. */
  ghost predicate FirstKnown(d: Decision, local: nat, ready: set<nat>, c: nat) {
    && d.futureDependent.Some? && c in ready && Max(local + 2, d.futureDependent.value) <= c
    && forall i :: Max(local + 2, d.futureDependent.value) <= i < c ==> i !in ready
  }

  ghost predicate LosesMachines(d: Decision, local: nat, started: nat, ready: set<nat>, stored: map<nat, nat>) {
    exists c: nat :: c <= started && FirstKnown(d, local, ready, c) && NoneStored(stored, local, c)
  }

  ghost predicate NoneStored(stored: map<nat, nat>, a: nat, b: nat) {
    forall j :: a <= j < b ==> j !in stored
  }

  /** Exactly when the started index falls below the decided index `idx`. */
  lemma Back(d: Decision, idx: nat, keeps: bool, before: map<nat, nat>, stored: map<nat, nat>, after: map<nat, nat>, ready: set<nat>, last0: nat, last1: nat, st0: nat, st1: nat)
    requires st0 <= last0 && idx + 1 <= last1 && (d.changedMembers ==> d.futureDependent.Some?)
    requires if keeps then idx in stored else stored == before
    requires Truncated(stored, after, last1 + 1)
    requires if last1 < st0 then IsLargest(st1, after.Keys) else st1 == st0
    requires d.changedMembers ==> forall i :: Max(idx + 2, d.futureDependent.value) <= i <= last1 ==> i !in ready
    requires last1 < Max(last0, idx + 1) ==> d.changedMembers && last1 + 1 in ready && last1 + 1 >= Max(idx + 2, d.futureDependent.value)
    ensures st1 < idx <==> st0 < idx || (!keeps && d.changedMembers && LosesMachines(d, idx, st0, ready, before))
    ensures !d.changedMembers ==> st1 == st0
  {
    if last1 < st0 {
      assert FirstKnown(d, idx, ready, last1 + 1);
      assert forall j :: j <= last1 && j in stored ==> j in after;
      if st1 < idx { assert NoneStored(before, idx, last1 + 1); }
    }
    if !keeps && d.changedMembers && LosesMachines(d, idx, st0, ready, before) {
      var c: nat :| c <= st0 && FirstKnown(d, idx, ready, c) && NoneStored(before, idx, c);
      assert c == last1 + 1;
    }
  }

  ghost predicate IsLargest(m: nat, keys: set<nat>) {
    m in keys && forall k :: k in keys ==> k <= m
  }

  /** The map without the indices from `from` on. */
  ghost predicate Truncated(stored: map<nat, nat>, after: map<nat, nat>, from: nat) {
    forall i :: (i in after <==> i in stored && i < from) && (i in after ==> i in stored && after[i] == stored[i])
  }

  /** The map without the indices from `from` up to `i`. */
  ghost predicate Gap(stored: map<nat, nat>, after: map<nat, nat>, from: nat, i: nat) {
    forall j :: (j in after <==> j in stored && !(from <= j < i)) && (j in after ==> j in stored && after[j] == stored[j])
  }

  /** From `from` on, the notes are those from before without the ones about `lo` up to `hi`. */
  ghost predicate NotesCut(a: Notes, b: Notes, from: nat, lo: nat, hi: nat) {
    forall i: nat :: i >= from ==> CutAt(a, b, i, lo, hi)
  }

  ghost predicate CutAt(a: Notes, b: Notes, i: nat, lo: nat, hi: nat) {
    if lo <= i < hi then i !in b.expected && i !in b.support && i !in b.asked
    else
      && (i in b.expected <==> i in a.expected) && (i in b.expected ==> b.expected[i] == a.expected[i])
      && (i in b.support <==> i in a.support) && (i in b.support ==> b.support[i] == a.support[i])
      && (i in b.asked <==> i in a.asked)
  }

  lemma NothingCut(a: Notes, lo: nat, hi: nat)
    requires hi <= lo
    ensures NotesCut(a, a, 0, lo, hi)
  {
  }

  lemma CutOne(a: Notes, b: Notes, lo: nat, i: nat)
    requires NotesCut(a, b, 0, lo, i) && lo <= i
    ensures NotesCut(a, Notes(b.expected - {i}, b.support - {i}, b.asked - {i}), 0, lo, i + 1)
  {
    var c := Notes(b.expected - {i}, b.support - {i}, b.asked - {i});
    var hi := i + 1;
    forall j: nat ensures CutAt(a, c, j, lo, hi) { assert CutAt(a, b, j, lo, i); }
  }

  lemma CutMoves(a: Notes, b: Notes, lo: nat, hi: nat, lo': nat, hi': nat)
    requires NotesCut(a, b, 0, lo, hi) && hi <= lo && hi' <= lo'
    ensures NotesCut(a, b, 0, lo', hi')
  {
    forall j: nat ensures CutAt(a, b, j, lo', hi') { assert CutAt(a, b, j, lo, hi); }
  }

  lemma NoteAbout(a: Notes, b: Notes, idx: nat, support: nat)
    requires b.expected == a.expected && b.asked == a.asked && (b.support == a.support || b.support == a.support[idx := support])
    ensures NotesCut(a, b, idx + 1, 0, 0)
  {
  }

  /** A cut after a change below `from`, or before one. */
  lemma CutThen(a: Notes, b: Notes, c: Notes, from: nat, lo: nat, hi: nat, lo': nat, hi': nat)
    requires NotesCut(a, b, from, lo, hi) && NotesCut(b, c, 0, lo', hi')
    ensures hi' <= from ==> NotesCut(a, c, from, lo, hi)
    ensures hi <= lo ==> NotesCut(a, c, from, lo', hi')
  {
    if hi' <= from {
      forall j: nat | j >= from ensures CutAt(a, c, j, lo, hi) { assert CutAt(a, b, j, lo, hi) && CutAt(b, c, j, lo', hi'); }
    }
    if hi <= lo {
      forall j: nat | j >= from ensures CutAt(a, c, j, lo', hi') { assert CutAt(a, b, j, lo, hi) && CutAt(b, c, j, lo', hi'); }
    }
  }

  /** Of the indices past the next one, those from the first one on are removed that the change of members
      may concern and that knew their members; all others are kept. */
  ghost predicate Removed(d: Decision, idx: nat, before: nat, last: nat, known: set<nat>) {
    && last <= Max(before, idx + 1)
    && (d.changedMembers ==> d.futureDependent.Some? && forall i :: Max(idx + 2, d.futureDependent.value) <= i <= last ==> i !in known)
    && (last < Max(before, idx + 1) ==> d.changedMembers && d.futureDependent.Some? && last + 1 in known && last + 1 >= Max(idx + 2, d.futureDependent.value))
  }

  lemma RemovedIs(d: Decision, idx: nat, before: nat, last: nat, known: set<nat>)
    requires last <= Max(before, idx + 1) && (d.changedMembers ==> d.futureDependent.Some?)
    requires d.changedMembers ==> forall i :: Max(idx + 2, d.futureDependent.value) <= i <= last ==> i !in known
    requires last < Max(before, idx + 1) ==> d.changedMembers && last + 1 in known && last + 1 >= Max(idx + 2, d.futureDependent.value)
    ensures Removed(d, idx, before, last, known)
  {
  }

  /** From `from` up to `upTo` the same members are known. */
  ghost predicate KnownAlike(a: set<nat>, b: set<nat>, from: nat, upTo: nat) {
    forall i :: from <= i <= upTo ==> (i in a <==> i in b)
  }

  lemma KnownDrop(ready: set<nat>, lo: nat, local: nat, v: nat)
    requires Known(ready, lo, local) && lo <= v + 1
    ensures Known(ready - {v}, v + 1, local)
  {
  }

  lemma InInterval(s: set<nat>, lo: nat, hi: nat, i: nat)
    requires Interval(s, lo, hi) && lo <= i
    ensures i in s || i > hi
  {
  }

  lemma AlikeSince(a: set<nat>, b: set<nat>, next: nat, last: nat, now: nat)
    requires a <= b && (forall i :: i in b && i <= last ==> i in a) && now == Max(last, next)
    ensures KnownAlike(a, b + {next}, next + 1, now)
  {
  }

  lemma AlikeBelow(a: set<nat>, b: set<nat>, c: set<nat>, from: nat, upTo: nat, cut: nat)
    requires KnownAlike(a, b, from, upTo) && 1 <= cut <= upTo + 1 && forall i :: i < cut ==> (i in c <==> i in b)
    ensures KnownAlike(a, c, from, cut - 1)
  {
  }

  lemma AlikeAgain(a: set<nat>, b: set<nat>, c: set<nat>, from: nat, upTo: nat)
    requires KnownAlike(a, b, from, upTo) && c <= b && forall i :: i in b && i >= from ==> i in c
    ensures KnownAlike(a, c, from, upTo)
  {
  }

  // ----- Expected values -----

  /** The machine of `support` is stored and, unless it is the initial one, has a decision. */
  ghost predicate CanBuild(stored: map<nat, nat>, ms: seq<Machine>, support: nat) {
    support in stored && stored[support] < |ms| && (support == 0 || ms[stored[support]].decisions != [])
  }

  lemma BuildsExactly(stored: map<nat, nat>, ms: seq<Machine>, support: nat)
    ensures CanBuild(stored, ms, support) <==> support in stored && stored[support] < |ms| && (support == 0 || ms[stored[support]].decisions != [])
  {
  }

  /** No machine from before but `t` has changed. */
  ghost predicate OnlyTouched(a: seq<Machine>, b: seq<Machine>, t: nat) {
    |a| <= |b| && t < |b| && forall m: nat :: m < |a| && m != t ==> b[m] == a[m]
  }

  /** What becomes of an expectation: it is noted if a machine of the index is stored or one can be made. */
  ghost predicate Expects(a: Plan, b: Plan, idx: nat, e: Expectation, proposal: Option<nat>) {
    if idx !in a.stored && !CanBuild(a.stored, a.machines, e.support) then b == a
    else
      && b.notes.expected == a.notes.expected[idx := e.value] && b.notes.support == a.notes.support[idx := e.support]
      && b.stored == (if idx in a.stored then a.stored else a.stored[idx := |a.machines|])
      && b.notes.asked == (if idx !in a.stored && proposal.Some? then a.notes.asked + {idx} else a.notes.asked)
      && OnlyTouched(a.machines, b.machines, b.stored[idx])
  }

  lemma LeavesIt(a: Plan, idx: nat, e: Expectation, proposal: Option<nat>)
    requires idx !in a.stored && !CanBuild(a.stored, a.machines, e.support)
    ensures Expects(a, a, idx, e, proposal)
  {
  }

  lemma TakesIt(a: Plan, b: Plan, idx: nat, e: Expectation, proposal: Option<nat>)
    requires idx in a.stored || CanBuild(a.stored, a.machines, e.support)
    requires b.notes.expected == a.notes.expected[idx := e.value] && b.notes.support == a.notes.support[idx := e.support]
    requires b.stored == if idx in a.stored then a.stored else a.stored[idx := |a.machines|]
    requires b.notes.asked == if idx !in a.stored && proposal.Some? then a.notes.asked + {idx} else a.notes.asked
    requires b.stored[idx] < |b.machines| && |a.machines| <= |b.machines|
    requires forall m: nat :: m < |a.machines| && m != b.stored[idx] ==> b.machines[m] == a.machines[m]
    ensures Expects(a, b, idx, e, proposal)
  {
  }

  /** The expectations of the indices from `lo` up to `hi` have been looked at in turn; nothing else has changed. */
  ghost predicate Informed(a: Plan, b: Plan, info: map<nat, Expectation>, proposals: map<nat, nat>, lo: nat, hi: nat) {
    forall i: nat ::
      if lo <= i < hi && i in info && i !in a.notes.expected then InformedAt(a, b, i, info[i], i in proposals) else SameAt(a, b, i)
  }

  /** The expectation of `i` is noted exactly when its machine was stored, or can be made to build on an earlier one. */
  ghost predicate InformedAt(a: Plan, b: Plan, i: nat, e: Expectation, proposal: bool) {
    && (e.support < i ==> (i in b.notes.expected <==> i in a.stored || CanBuild(b.stored, b.machines, e.support)))
    && (i in a.stored ==> i in b.notes.expected && i in b.stored && b.stored[i] == a.stored[i])
    && (i in b.notes.expected ==> b.notes.expected[i] == e.value && i in b.notes.support && b.notes.support[i] == e.support && i in b.stored)
    && (i in b.notes.expected && i !in a.stored ==> (i in b.notes.asked <==> i in a.notes.asked || proposal))
    && (i in b.notes.expected && i in a.stored ==> (i in b.notes.asked <==> i in a.notes.asked))
    && (i !in b.notes.expected ==> SameAt(a, b, i))
  }

  ghost predicate SameAt(a: Plan, b: Plan, i: nat) {
    (i in a.stored <==> i in b.stored) && (i in a.stored ==> b.stored[i] == a.stored[i]) && CutAt(a.notes, b.notes, i, 0, 0)
  }

  lemma NoneInformed(a: Plan, info: map<nat, Expectation>, proposals: map<nat, nat>, lo: nat)
    ensures Informed(a, a, info, proposals, lo, lo)
  {
  }

  lemma InformedMore(a: Plan, b: Plan, c: Plan, info: map<nat, Expectation>, proposals: map<nat, nat>, lo: nat, idx: nat)
    requires Informed(a, b, info, proposals, lo, idx) && lo <= idx && OwnMachines(b)
    requires if idx !in b.notes.expected && idx in info then Expects(b, c, idx, info[idx], if idx in proposals then Some(proposals[idx]) else None) else c == b
    ensures Informed(a, c, info, proposals, lo, idx + 1)
  {
    hide CutAt, OwnMachines;
    var hi := idx + 1;
    if idx !in b.notes.expected && idx in info {
      var p := if idx in proposals then Some(proposals[idx]) else None;
      forall i: nat | i != idx ensures SameAt(b, c, i) { OtherAt(b, c, i, idx, info[idx], p); }
      forall i: nat
        ensures if lo <= i < hi && i in info && i !in a.notes.expected then InformedAt(a, c, i, info[i], i in proposals) else SameAt(a, c, i)
      {
        if i == idx { HereAt(a, b, c, idx, info[idx], p); } else { ThereAt(a, b, c, i, idx, info, p, proposals, lo); }
      }
    } else {
      forall i: nat
        ensures if lo <= i < hi && i in info && i !in a.notes.expected then InformedAt(a, c, i, info[i], i in proposals) else SameAt(a, c, i)
      {
        if i == idx { AlreadyAt(a, b, i); }
      }
    }
  }

  lemma InformedAll(a: Plan, b: Plan, info: map<nat, Expectation>, proposals: map<nat, nat>, lo: nat, hi: nat, hi': nat)
    requires Informed(a, b, info, proposals, lo, hi) && (hi == hi' || (hi <= lo && hi' <= lo))
    ensures Informed(a, b, info, proposals, lo, hi')
  {
  }

  /** A machine was made for `i`, which builds on the index it is expected to, and is asked for the first time. */
  ghost predicate NewlyMade(a: Plan, b: Plan, info: map<nat, Expectation>, proposals: map<nat, nat>, i: nat) {
    i in b.stored && i !in a.stored && i !in a.notes.asked && i in info && i in proposals && proposals[i] == info[i].support
  }

  lemma NoneMade(a: Plan, info: map<nat, Expectation>, proposals: map<nat, nat>)
    ensures forall i :: !NewlyMade(a, a, info, proposals, i)
  {
  }

  lemma NotMadeYet(a: Plan, b: Plan, info: map<nat, Expectation>, proposals: map<nat, nat>, lo: nat, idx: nat)
    requires Informed(a, b, info, proposals, lo, idx)
    ensures (idx in a.stored <==> idx in b.stored) && (idx in a.notes.asked <==> idx in b.notes.asked)
  {
    assert SameAt(a, b, idx);
  }

  lemma MadeHere(a: Plan, b: Plan, c: Plan, info: map<nat, Expectation>, proposals: map<nat, nat>, idx: nat, i: nat)
    requires NewlyMade(a, c, info, proposals, i)
    requires c == b || (idx in info && exists p :: Expects(b, c, idx, info[idx], p))
    ensures NewlyMade(a, b, info, proposals, i) || (i == idx && i !in a.notes.asked && i !in a.stored && i in c.stored && i in info && i in proposals && proposals[i] == info[i].support)
  {
  }

  lemma AlreadyAt(a: Plan, b: Plan, i: nat)
    requires SameAt(a, b, i)
    ensures i in a.notes.expected <==> i in b.notes.expected
  {
  }

  lemma OtherAt(b: Plan, c: Plan, i: nat, idx: nat, e: Expectation, p: Option<nat>)
    requires Expects(b, c, idx, e, p) && i != idx
    ensures SameAt(b, c, i)
  {
  }

  lemma HereAt(a: Plan, b: Plan, c: Plan, idx: nat, e: Expectation, p: Option<nat>)
    requires SameAt(a, b, idx) && Expects(b, c, idx, e, p) && idx !in b.notes.expected && OwnMachines(b)
    ensures InformedAt(a, c, idx, e, p.Some?) && idx !in a.notes.expected
  {
    if e.support < idx { BuildKept(b, c, e.support, idx, e, p); }
  }

  lemma BuildKept(b: Plan, c: Plan, support: nat, idx: nat, e: Expectation, p: Option<nat>)
    requires Expects(b, c, idx, e, p) && support != idx && OwnMachines(b)
    ensures CanBuild(c.stored, c.machines, support) <==> CanBuild(b.stored, b.machines, support)
  {
    hide CutAt;
  }

  lemma ThereAt(a: Plan, b: Plan, c: Plan, i: nat, idx: nat, info: map<nat, Expectation>, p: Option<nat>, proposals: map<nat, nat>, lo: nat)
    requires Informed(a, b, info, proposals, lo, idx) && OwnMachines(b) && i != idx && idx in info && Expects(b, c, idx, info[idx], p) && SameAt(b, c, i)
    ensures if lo <= i < idx && i in info && i !in a.notes.expected then InformedAt(a, c, i, info[i], i in proposals) else SameAt(a, c, i)
  {
    hide CanBuild, Expects, OwnMachines;
    if lo <= i < idx && i in info && i !in a.notes.expected {
      assert InformedAt(a, b, i, info[i], i in proposals);
      if info[i].support < i { BuildKept(b, c, info[i].support, idx, info[idx], p); }
    } else {
      assert SameAt(a, b, i);
    }
  }

  lemma Owners(b: Plan, local: nat, started: nat)
    requires MachinesOk(b.stored, b.machines, b.notes.expected, local, started)
    ensures OwnMachines(b)
  {
  }

  /** Stored machines belong to their indices. */
  ghost predicate OwnMachines(b: Plan) {
    forall i :: i in b.stored ==> b.stored[i] < |b.machines| && b.machines[b.stored[i]].index == i
  }

  /** A decision at `idx` leaves the machines of earlier indices alone, and makes none for them. */
  ghost predicate Decided(a: seq<Machine>, b: seq<Machine>, idx: nat) {
    && |a| <= |b| && (forall m: nat :: m < |a| ==> b[m].index == a[m].index && (a[m].index < idx ==> b[m] == a[m]))
    && forall m: nat :: |a| <= m < |b| ==> b[m].index >= idx
  }

  /** Machines of indices up to `idx` are as before, and the others keep their index. */
  ghost predicate Later(a: seq<Machine>, b: seq<Machine>, idx: nat) {
    |a| == |b| && forall m: nat :: m < |a| ==> b[m].index == a[m].index && (a[m].index <= idx ==> b[m] == a[m])
  }

  /** Each stored machine has its own index, not past the started one unless it has decided. A machine of an undecided
      index has been given the expected value, if there is one, and is not finished; every machine of a
      decided index is finished. Of all machines ever made for an index at most one was not cleared. */
  ghost predicate MachinesOk(stored: map<nat, nat>, ms: seq<Machine>, pre: map<nat, Bytes>, local: nat, started: nat) {
    && 0 in stored
    && (forall i :: i in stored ==> (i <= started || i < local) && stored[i] < |ms| && ms[stored[i]].index == i)
    && (forall i :: i in stored && i >= local ==> ms[stored[i]] == Machine(i, Expected(pre, i), NotDone))
    && (forall m: nat :: m < |ms| && ms[m].done == NotDone ==> ms[m].index >= local)
    && (forall m: nat :: m < |ms| && ms[m].done != DoneClear && ms[m].index >= local ==> ms[m].index in stored && stored[ms[m].index] == m)
    && (forall i :: i in pre && i >= local ==> i in stored)
    && OneEach(ms)
  }

  ghost predicate OneEach(ms: seq<Machine>) {
    forall a: nat, b: nat :: a < b < |ms| && ms[a].done != DoneClear && ms[b].done != DoneClear ==> ms[a].index != ms[b].index
  }

  ghost function Expected(pre: map<nat, Bytes>, i: nat): seq<Bytes> {
    if i in pre && pre[i] != [] then [pre[i]] else []
  }

  /** Machines of other indices are as before; there may be one more of `idx`. */
  ghost predicate Extends(a: seq<Machine>, b: seq<Machine>, idx: nat) {
    && |a| <= |b| <= |a| + 1
    && (forall m: nat :: m < |a| ==> b[m].index == a[m].index && (a[m].index != idx ==> b[m] == a[m]))
    && forall m: nat :: |a| <= m < |b| ==> b[m].index == idx
  }

  /** When a machine of an index was kept, every other machine ever made for the index was cleared. */
  lemma OthersWereCleared(stored: map<nat, nat>, ms: seq<Machine>, pre: map<nat, Bytes>, local: nat, started: nat, a: nat, b: nat)
    requires MachinesOk(stored, ms, pre, local, started) && a < |ms| && b < |ms| && a != b
    requires ms[a].done == DoneKeep && ms[b].index == ms[a].index
    ensures ms[b].done == DoneClear
  {
  }

  /** No machine of `idx` is left that was not cleared. */
  ghost predicate NoneLeft(ms: seq<Machine>, idx: nat) {
    forall m: nat :: m < |ms| && ms[m].index == idx ==> ms[m].done == DoneClear
  }

  lemma StoredMachine(stored: map<nat, nat>, ms: seq<Machine>, pre: map<nat, Bytes>, idx: nat, started: nat)
    requires MachinesOk(stored, ms, pre, idx, started)
    ensures idx in stored ==> stored[idx] < |ms| && ms[stored[idx]] == Machine(idx, Expected(pre, idx), NotDone)
    ensures Extends(ms, ms, idx)
  {
  }

  lemma ClearStep(stored: map<nat, nat>, ms: seq<Machine>, pre: map<nat, Bytes>, idx: nat, started: nat)
    requires MachinesOk(stored, ms, pre, idx, started) && idx in stored
    ensures stored[idx] < |ms|
    ensures var after := ms[stored[idx] := ms[stored[idx]].(done := DoneClear)];
      MachinesOk(stored, after, pre, idx + 1, started) && NoneLeft(after, idx) && Extends(ms, after, idx)
  {
  }

  lemma SkipStep(stored: map<nat, nat>, ms: seq<Machine>, pre: map<nat, Bytes>, idx: nat, started: nat)
    requires MachinesOk(stored, ms, pre, idx, started) && idx !in stored
    ensures MachinesOk(stored, ms, pre, idx + 1, started) && NoneLeft(ms, idx) && Extends(ms, ms, idx)
  {
  }

  lemma KeepStep(stored: map<nat, nat>, ms: seq<Machine>, pre: map<nat, Bytes>, idx: nat, started: nat, dec: Bytes)
    requires MachinesOk(stored, ms, pre, idx, started) && idx in stored
    ensures stored[idx] < |ms|
    ensures var after := ms[stored[idx] := Machine(idx, [dec], DoneKeep)];
      MachinesOk(stored, after, pre, idx + 1, started) && Extends(ms, after, idx)
  {
  }

  lemma NewStep(stored: map<nat, nat>, before: seq<Machine>, ms: seq<Machine>, pre: map<nat, Bytes>, idx: nat, started: nat, dec: Bytes)
    requires MachinesOk(stored, ms, pre, idx + 1, started) && NoneLeft(ms, idx) && 1 <= idx
    requires Extends(before, ms, idx) && |before| == |ms|
    ensures MachinesOk(stored[idx := |ms|], ms + [Machine(idx, [dec], DoneKeep)], pre, idx + 1, started)
    ensures Extends(before, ms + [Machine(idx, [dec], DoneKeep)], idx)
  {
    hide OneEach;
    OneMore(ms, idx, Machine(idx, [dec], DoneKeep));
  }

  lemma OneMore(ms: seq<Machine>, idx: nat, a: Machine)
    requires OneEach(ms) && NoneLeft(ms, idx) && a.index == idx
    ensures OneEach(ms + [a])
  {
  }

  lemma LaterSame(ms: seq<Machine>, idx: nat)
    ensures Later(ms, ms, idx)
  {
  }

  lemma LaterTwice(a: seq<Machine>, b: seq<Machine>, c: seq<Machine>, idx: nat)
    requires Later(a, b, idx) && Later(b, c, idx)
    ensures Later(a, c, idx)
  {
  }

  lemma NothingTruncated(stored: map<nat, nat>, ms: seq<Machine>, pre: map<nat, Bytes>, local: nat, started: nat, from: nat)
    requires MachinesOk(stored, ms, pre, local, started) && started < from && local <= from
    ensures Truncated(stored, stored, from)
  {
  }

  lemma NoGap(stored: map<nat, nat>, from: nat, i: nat)
    requires i <= from
    ensures Gap(stored, stored, from, i)
  {
  }

  lemma SameGap(stored: map<nat, nat>, after: map<nat, nat>, from: nat, i: nat, j: nat)
    requires Gap(stored, after, from, i) && i <= from && j <= from
    ensures Gap(stored, after, from, j) && Gap(stored, after, i, i)
  {
  }

  lemma GapStep(stored: map<nat, nat>, after: map<nat, nat>, from: nat, i: nat)
    requires from <= i && Gap(stored, after, from, i)
    ensures Gap(stored, after - {i}, from, i + 1) && (after - {i}) - {i} == after - {i}
  {
  }

  lemma HasKeys(stored: map<nat, nat>, ms: seq<Machine>, pre: map<nat, Bytes>, local: nat, started: nat)
    requires MachinesOk(stored, ms, pre, local, started)
    ensures 0 in stored.Keys && stored.Keys != {}
  {
  }

  lemma Restarted(was: map<nat, nat>, stored: map<nat, nat>, ms: seq<Machine>, pre: map<nat, Bytes>, local: nat, before: nat, started: nat, from: nat)
    requires MachinesOk(stored, ms, pre, local, before) && Truncated(was, stored, from)
    requires local <= before + 1 && started in stored && forall k :: k in stored ==> k <= started
    ensures MachinesOk(stored, ms, pre, local, started) && started < from && started <= before
  {
  }

  lemma GapIsTruncated(was: map<nat, nat>, stored: map<nat, nat>, started: nat, from: nat, last: nat)
    requires Gap(was, stored, from, last + 1) && started <= last && from <= last + 1 && Truncated(was, was, last + 1)
    ensures Truncated(was, stored, from)
  {
  }

  lemma DropStep(stored: map<nat, nat>, ms: seq<Machine>, pre: map<nat, Bytes>, local: nat, started: nat, i: nat)
    requires MachinesOk(stored, ms, pre, local, started) && i > local >= 1
    ensures i in stored ==> i <= started && stored[i] < |ms|
    ensures i in stored ==> MachinesOk(stored - {i}, ms[stored[i] := ms[stored[i]].(done := DoneClear)], pre - {i}, local, started)
    ensures i in stored ==> Later(ms, ms[stored[i] := ms[stored[i]].(done := DoneClear)], local - 1)
    ensures i !in stored ==> MachinesOk(stored, ms, pre - {i}, local, started)
  {
    hide OneEach;
    OneFewer(ms, stored, pre, local, started, i);
  }

  lemma OneFewer(ms: seq<Machine>, stored: map<nat, nat>, pre: map<nat, Bytes>, local: nat, started: nat, i: nat)
    requires MachinesOk(stored, ms, pre, local, started)
    ensures i in stored ==> stored[i] < |ms| && OneEach(ms[stored[i] := ms[stored[i]].(done := DoneClear)])
  {
  }

  lemma IntervalDrop(held: set<nat>, lo: nat, hi: nat, v: nat)
    requires Interval(held, lo, hi) && v <= lo <= v + 1 <= hi
    ensures Interval(held - {v}, v + 1, hi) && v + 1 in held - {v}
  {
  }

  lemma StoredBefore(stored: map<nat, nat>, after: map<nat, nat>, from: nat)
    requires Truncated(stored, after, from)
    ensures forall i :: i in after ==> i in stored
  {
  }

  lemma DecidedNow(a: seq<Machine>, b: seq<Machine>, c: seq<Machine>, idx: nat)
    requires Extends(a, b, idx) && Later(b, c, idx)
    ensures Decided(a, c, idx)
  {
  }

  lemma KeptStays(stored: map<nat, nat>, after: map<nat, nat>, a: seq<Machine>, b: seq<Machine>, idx: nat, from: nat)
    requires Truncated(stored, after, from) && Later(a, b, idx) && idx < from
    ensures idx in stored ==> idx in after && after[idx] == stored[idx]
    ensures idx in stored && stored[idx] < |a| && a[stored[idx]].index == idx ==> after[idx] < |b| && b[after[idx]] == a[stored[idx]]
  {
  }

  lemma RecentMore(s: seq<nat>, local: nat)
    requires Recent(s, local)
    ensures Recent(s, local + 1)
  {
  }

  lemma RecentAppend(s: seq<nat>, idx: nat)
    requires Recent(s, idx)
    ensures Recent(s + [idx], idx + 1)
  {
  }

  lemma RecentTail(s: seq<nat>, local: nat)
    requires Recent(s, local) && s != []
    ensures Recent(s[1..], local)
  {
  }

  lemma ForgetStep(stored: map<nat, nat>, ms: seq<Machine>, pre: map<nat, Bytes>, local: nat, started: nat, i: nat)
    requires MachinesOk(stored, ms, pre, local, started) && 1 <= i < local
    ensures MachinesOk(stored - {i}, ms, pre - {i}, local, started)
  {
    hide OneEach;
  }

  lemma MoreStarted(stored: map<nat, nat>, ms: seq<Machine>, pre: map<nat, Bytes>, local: nat, started: nat)
    requires MachinesOk(stored, ms, pre, local, started)
    ensures MachinesOk(stored, ms, pre, local, started + 1)
  {
    hide OneEach;
  }

  lemma DecidedSame(ms: seq<Machine>, idx: nat)
    ensures Decided(ms, ms, idx)
  {
  }

  lemma StillNoneLeft(a: seq<Machine>, b: seq<Machine>, idx: nat)
    requires NoneLeft(a, idx) && Later(a, b, idx)
    ensures NoneLeft(b, idx)
  {
  }

  lemma DecidedTwice(a: seq<Machine>, b: seq<Machine>, c: seq<Machine>, idx: nat)
    requires Decided(a, b, idx) && Decided(b, c, idx)
    ensures Decided(a, c, idx)
  {
  }

  lemma StoredAt(stored: map<nat, nat>, ms: seq<Machine>, pre: map<nat, Bytes>, local: nat, started: nat)
    requires MachinesOk(stored, ms, pre, local, started)
    ensures forall i :: i in stored ==> stored[i] < |ms|
  {
  }

  /** An undecided index without a stored machine has no machine left, so it may get one. */
  lemma AddStep(stored: map<nat, nat>, ms: seq<Machine>, pre: map<nat, Bytes>, local: nat, started: nat, idx: nat)
    requires MachinesOk(stored, ms, pre, local, started) && 1 <= local <= idx <= started && idx !in stored
    ensures MachinesOk(stored[idx := |ms|], ms + [Machine(idx, [], NotDone)], pre, local, started)
    ensures Decided(ms, ms + [Machine(idx, [], NotDone)], local)
  {
    hide OneEach;
    assert NoneLeft(ms, idx);
    OneMore(ms, idx, Machine(idx, [], NotDone));
  }

  lemma ExpectStep(stored: map<nat, nat>, ms: seq<Machine>, pre: map<nat, Bytes>, local: nat, started: nat, idx: nat, value: Bytes)
    requires MachinesOk(stored, ms, pre, local, started) && local <= idx && idx in stored && idx !in pre
    ensures stored[idx] < |ms| && ms[stored[idx]].decisions == []
    ensures value == [] ==> MachinesOk(stored, ms, pre[idx := value], local, started)
    ensures Decided(ms, ms[stored[idx] := ms[stored[idx]].(decisions := [value])], local)
    ensures value != [] ==> MachinesOk(stored, ms[stored[idx] := ms[stored[idx]].(decisions := [value])], pre[idx := value], local, started)
    ensures Decided(ms, ms, local)
  {
    hide OneEach;
    SameKinds(ms, stored, pre, local, started, idx, value);
  }

  lemma SameKinds(ms: seq<Machine>, stored: map<nat, nat>, pre: map<nat, Bytes>, local: nat, started: nat, idx: nat, value: Bytes)
    requires MachinesOk(stored, ms, pre, local, started) && idx in stored
    ensures stored[idx] < |ms| && OneEach(ms[stored[idx] := ms[stored[idx]].(decisions := [value])])
  {
  }
}
