/** The loop that moves a node from decision to decision: it stores each decision, starts the next
    instances and hands on the messages that were kept for them. */
module InstanceDriver {
  import opened Events
  import opened InstanceState

  datatype Msg = Msg(index: nat, body: Bytes)

  /** What the instances report while progress is checked. */
  datatype Reports = Reports(
    decided: map<nat, Decision>, expected: map<nat, Expectation>, proposals: map<nat, nat>, canStartNext: set<nat>)

  function At<V>(m: map<nat, V>, i: nat): Option<V> { if i in m then Some(m[i]) else None }

  datatype Outcome = Buffered | HandedBack | Process | Dropped(why: Lookup)

  /** The messages of index `i` among those handed on, in order. */
  function Handed(sent: seq<Msg>, i: nat): seq<Msg> {
    if sent == [] then []
    else Handed(sent[..|sent| - 1], i) + (if sent[|sent| - 1].index == i then [sent[|sent| - 1]] else [])
  }

  function Kept(future: map<nat, seq<Msg>>, i: nat): seq<Msg> {
    if i in future then future[i] else []
  }

  /** For every index, what was handed on and what is still kept together are what they were: nothing is
      lost, handed on twice or out of order. */
  ghost predicate SameMessages(sent: seq<Msg>, future: map<nat, seq<Msg>>, sent': seq<Msg>, future': map<nat, seq<Msg>>) {
    forall i :: Handed(sent', i) + Kept(future', i) == Handed(sent, i) + Kept(future, i)
  }

  lemma HandedOne(sent: seq<Msg>, x: Msg, i: nat)
    ensures Handed(sent + [x], i) == Handed(sent, i) + (if x.index == i then [x] else [])
  {
    assert (sent + [x])[..|sent|] == sent;
  }

  lemma {:induction false} HandedAppend(sent: seq<Msg>, more: seq<Msg>, j: nat, i: nat)
    requires forall k :: 0 <= k < |more| ==> more[k].index == j
    ensures Handed(sent + more, i) == Handed(sent, i) + (if i == j then more else [])
  {
    hide Handed;
    if more == [] {
      assert sent + more == sent && Handed(sent, i) + [] == Handed(sent, i);
    } else {
      var k := |more| - 1;
      var init, last, h := more[..k], more[k], Handed(sent, i);
      HandedAppend(sent, init, j, i);
      assert sent + more == (sent + init) + [last];
      HandedOne(sent + init, last, i);
      if i == j {
        assert (h + init) + [last] == h + more;
      }
    }
  }

  lemma DrainStep(sent: seq<Msg>, future: map<nat, seq<Msg>>, j: nat)
    requires j in future && forall k :: 0 <= k < |future[j]| ==> future[j][k].index == j
    ensures SameMessages(sent, future, sent + future[j], future - {j})
  {
    hide Handed;
    forall i ensures Handed(sent + future[j], i) + Kept(future - {j}, i) == Handed(sent, i) + Kept(future, i) {
      HandedAppend(sent, future[j], j, i);
    }
  }

  lemma SameTwice(a: seq<Msg>, fa: map<nat, seq<Msg>>, b: seq<Msg>, fb: map<nat, seq<Msg>>, c: seq<Msg>, fc: map<nat, seq<Msg>>)
    requires SameMessages(a, fa, b, fb) && SameMessages(b, fb, c, fc)
    ensures SameMessages(a, fa, c, fc)
  {
  }

  lemma SameOnce(a: seq<Msg>, fa: map<nat, seq<Msg>>)
    ensures SameMessages(a, fa, a, fa)
  {
  }

  /** Messages are kept under their index, and only for indices past the current one. */
  ghost predicate FutureOk(future: map<nat, seq<Msg>>, local: nat) {
    forall i :: i in future ==> i > local && forall k :: 0 <= k < |future[i]| ==> future[i][k].index == i
  }

  /** No message is kept for an index from `from` up to `upTo`. */
  ghost predicate NoneKept(future: map<nat, seq<Msg>>, from: nat, upTo: nat) {
    forall i :: from <= i < upTo ==> i !in future
  }

  lemma NoneKeptFrom(future: map<nat, seq<Msg>>, from: nat, from': nat, upTo: nat)
    requires NoneKept(future, from, upTo) && from <= from'
    ensures NoneKept(future, from', upTo)
  {
  }

  /** Messages were taken out only for indices whose members are known, and then all of them. */
  ghost predicate OnlyKnown(before: map<nat, seq<Msg>>, after: map<nat, seq<Msg>>, ready: set<nat>) {
    && (forall i :: i in after ==> i in before && after[i] == before[i])
    && forall i :: i in before && i !in after ==> i in ready
  }

  datatype Record = Record(index: nat, dec: Bytes)

  /** The decisions written, in order, are those of consecutive indices up to the one before `local`. */
  ghost predicate LogOk(log: seq<Record>, local: nat) {
    |log| <= local && forall k :: 0 <= k < |log| ==> log[k].index == local - |log| + k
  }

  class ConsState {
    const win: Instances
    /** Decisions are being read back from storage. */
    var inStorageInit: bool
    var store: seq<Record>
    var futureMessages: map<nat, seq<Msg>>
    var futureMessagesMinIndex: nat
    /** The messages handed back to be processed. */
    var sent: seq<Msg>

    /** Instances run one at a time, or a fixed number of them at once, or as many as they need. */
    ghost predicate Valid()
      reads this, win
    {
      && win.Valid() && (win.needsConcurrent > 1 ==> win.allowConcurrent == 0) && Running()
      && FutureOk(futureMessages, win.localIndex) && futureMessagesMinIndex >= win.localIndex
      && LogOk(store, win.localIndex) && (inStorageInit ==> store == [])
    }

    /** The current index is started, and not more indices than may run. */
    ghost predicate Running()
      reads win`localIndex, win`startedIndex
    {
      && win.localIndex <= win.startedIndex
      && win.startedIndex < win.localIndex + if win.needsConcurrent > 1 then KEEP_FUTURE + 1 else Max(1, win.allowConcurrent)
    }

    constructor (win: Instances, inStorageInit: bool)
      requires win.Valid() && (win.needsConcurrent > 1 ==> win.allowConcurrent == 0) && win.localIndex == win.startedIndex == 1
      ensures Valid() && this.win == win && this.inStorageInit == inStorageInit && store == [] && futureMessages == map[] && sent == []
    {
      this.win, this.inStorageInit := win, inStorageInit;
      store, futureMessages, futureMessagesMinIndex, sent := [], map[], 1, [];
    }

    /** Hands on the messages kept for index `i`. */
    method Drain(i: nat)
      requires FutureOk(futureMessages, win.localIndex) || (i == win.localIndex && win.localIndex >= 1 && FutureOk(futureMessages, win.localIndex - 1))
      modifies this`futureMessages, this`sent
      ensures SameMessages(old(sent), old(futureMessages), sent, futureMessages) && futureMessages == old(futureMessages) - {i}
      ensures FutureOk(futureMessages, win.localIndex)
    {
      SameOnce(sent, futureMessages);
      if i in futureMessages {
        DrainStep(sent, futureMessages, i);
        sent := sent + futureMessages[i];
      }
      assert i !in futureMessages ==> futureMessages - {i} == futureMessages;
      futureMessages := futureMessages - {i};
    }

    /** The node has stopped at a report that does not fit what it was told before or, when instances need
        others to complete, because the started index has fallen behind. */
    ghost predicate Contradicted(rep: Reports, idx: nat)
      reads win
    {
      || (win.needsConcurrent > 1 && win.startedIndex + 1 < win.localIndex)
      || (win.localIndex in rep.decided && !win.Fits(rep.decided[win.localIndex]))
      || exists i :: i in {idx, win.localIndex, win.startedIndex} && !win.Askable(i, At(rep.proposals, i))
    }

    /** As many instances run as may: the last one started does not let the next one start, or its members
        are not known. */
    ghost predicate NoMoreToStart(rep: Reports, ready: set<nat>)
      reads this`inStorageInit, win`localIndex, win`startedIndex
    {
      || inStorageInit || (win.allowConcurrent == 0 && win.needsConcurrent <= 1)
      || win.startedIndex >= win.localIndex + KEEP_FUTURE
      || (win.startedIndex + 1 >= win.localIndex + win.allowConcurrent && win.needsConcurrent <= 1)
      || win.startedIndex !in rep.canStartNext || win.startedIndex !in ready
    }

    /** Takes every decision that is ready, in order, starts what may run, and hands on the messages kept
        for indices that are now in reach. The result is false if a report contradicts an earlier one. */
    method CheckProgress(idx: nat, rep: Reports) returns (ok: bool)
      requires Valid() && win.Plausible(rep.expected)
      modifies this`store, this`futureMessages, this`futureMessagesMinIndex, this`sent, win
      ensures ok ==> Valid()
      ensures !ok ==> Contradicted(rep, idx)
      ensures ok ==> old(win.localIndex) <= win.localIndex && win.localIndex !in rep.decided
      ensures ok ==> forall i :: old(win.localIndex) <= i < win.localIndex ==> i in rep.decided
      ensures ok ==> SameMessages(old(sent), old(futureMessages), sent, futureMessages)
      ensures ok ==> store == old(store) + (if inStorageInit then [] else Records(rep.decided, old(win.localIndex), win.localIndex))
      ensures ok ==> NoMoreToStart(rep, win.ready) && LetStart(rep.canStartNext, win.ready, Max(old(win.startedIndex), win.localIndex), win.startedIndex)
      ensures ok ==> Applied(win.machines, rep.decided, old(win.localIndex), win.localIndex)
      ensures ok ==> Asked(rep, win.localIndex) || Asked(rep, win.startedIndex)
      ensures ok && idx >= old(win.localIndex) == win.localIndex && !inStorageInit ==>
        Supplied(rep.expected, old(win.proposalInfo), win.preDecisions, win.localIndex, old(win.startedIndex))
      ensures ok ==> NoneKept(futureMessages, Max(old(futureMessagesMinIndex), win.localIndex + 1), futureMessagesMinIndex)
      ensures ok ==> futureMessagesMinIndex > win.startedIndex + KEEP_FUTURE || (futureMessagesMinIndex in futureMessages && futureMessagesMinIndex !in win.ready)
    {
      hide *;
      ok := Prepare(idx, rep);
      if !ok { return; }
      ok := Advance(rep, idx);
      if !ok { return; }
      ghost var started, ms, pre := win.startedIndex, win.machines, win.preDecisions;
      ok := StartMore(rep, idx);
      if !ok { return; }
      StillApplied(ms, win.machines, rep.decided, old(win.localIndex), win.localIndex, win.localIndex);
      if idx >= old(win.localIndex) == win.localIndex && !inStorageInit {
        SuppliedStill(rep.expected, old(win.proposalInfo), pre, win.preDecisions, win.localIndex, old(win.startedIndex));
      }
      ghost var s1, f1, ready, from := sent, futureMessages, win.ready, futureMessagesMinIndex;
      HandOn();
      NoneKeptFrom(futureMessages, from, Max(old(futureMessagesMinIndex), win.localIndex + 1), futureMessagesMinIndex);
      StillNoMore(rep, ready);
      LetStartStill(rep.canStartNext, ready, win.ready, started, Max(old(win.startedIndex), win.localIndex), win.startedIndex);
      SameTwice(old(sent), old(futureMessages), s1, f1, sent, futureMessages);
    }

    lemma StillNoMore(rep: Reports, ready: set<nat>)
      requires forall i :: i in win.ready && i <= win.startedIndex ==> i in ready
      requires NoMoreToStart(rep, ready)
      ensures NoMoreToStart(rep, win.ready)
    {
    }

    /** Each decision from `a` up to `b` was given to the one machine of its index that is kept; no machine is
        kept of an index that decided nothing, if its decision does not count. */
    ghost predicate Applied(ms: seq<Machine>, decided: map<nat, Decision>, a: nat, b: nat) {
      forall i :: a <= i < b && i in decided ==> AppliedAt(ms, i, decided[i].dec)
    }

    ghost predicate AppliedAt(ms: seq<Machine>, i: nat, dec: Bytes) {
      if win.Keeps(dec) then Machine(i, [dec], DoneKeep) in ms else NoneLeft(ms, i)
    }

    lemma NoneApplied(ms: seq<Machine>, decided: map<nat, Decision>, a: nat)
      ensures Applied(ms, decided, a, a)
    {
    }

    lemma StillApplied(ms: seq<Machine>, after: seq<Machine>, decided: map<nat, Decision>, a: nat, b: nat, local: nat)
      requires Applied(ms, decided, a, b) && InstanceState.Decided(ms, after, local) && b <= local
      ensures Applied(after, decided, a, b)
    {
      forall i | a <= i < b && i in decided ensures AppliedAt(after, i, decided[i].dec) {
        assert AppliedAt(ms, i, decided[i].dec);
        if win.Keeps(decided[i].dec) {
          var m :| 0 <= m < |ms| && ms[m] == Machine(i, [decided[i].dec], DoneKeep);
          assert after[m] == ms[m];
        }
      }
    }

    lemma AppliedMore(ms: seq<Machine>, decided: map<nat, Decision>, a: nat, b: nat)
      requires Applied(ms, decided, a, b) && Applied(ms, decided, b, b + 1)
      ensures Applied(ms, decided, a, b + 1)
    {
    }

    lemma AppliedOne(ms: seq<Machine>, decided: map<nat, Decision>, i: nat)
      requires i in decided && AppliedAt(ms, i, decided[i].dec)
      ensures Applied(ms, decided, i, i + 1)
    {
    }

    /** There is no proposal left to ask `i` for. */
    ghost predicate Asked(rep: Reports, i: nat)
      reads win`startedIndex, win`gotProposal, win`proposalInfo, win`machines
    {
      !win.Asks(i, At(rep.proposals, i))
    }

    lemma InformedSupplies(rep: Reports, before: Plan)
      requires InstanceState.Informed(before, win.Planned(), rep.expected, rep.proposals, win.localIndex, win.startedIndex + 1)
      ensures Supplied(rep.expected, before.stored, win.preDecisions, win.localIndex, win.startedIndex) && forall i :: i in before.notes.expected ==> i in win.preDecisions
    {
      forall i | win.localIndex <= i <= win.startedIndex && i in rep.expected && i in before.stored ensures i in win.preDecisions {
        if i !in before.notes.expected {
          assert InformedAt(before, win.Planned(), i, rep.expected[i], i in rep.proposals);
        } else {
          assert SameAt(before, win.Planned(), i);
        }
      }
      forall i | i in before.notes.expected ensures i in win.preDecisions {
        assert SameAt(before, win.Planned(), i);
      }
    }

    method Prepare(idx: nat, rep: Reports) returns (ok: bool)
      requires Valid() && win.Plausible(rep.expected)
      modifies win`held, win`lastItem, win`ready, win`proposalInfo, win`machines, win`preDecisions, win`supportIndex, win`gotProposal, win`requested
      ensures Valid() && (!ok ==> Contradicted(rep, idx)) && (ok ==> Asked(rep, win.localIndex))
      ensures idx >= win.localIndex && !inStorageInit ==> Supplied(rep.expected, old(win.proposalInfo), win.preDecisions, win.localIndex, win.startedIndex)
    {
      hide InstanceState.Instances.Valid, FutureOk, LogOk, Instances.Plausible, Instances.Askable, Instances.Fits;
      ok := true;
      if idx >= win.localIndex {
        if !inStorageInit {
          ghost var before := win.Planned();
          win.CheckPreDecision(rep.expected, rep.proposals);
          InformedSupplies(rep, before);
        }
        ok := Ask(idx, rep);
        if !ok { return; }
      }
      ok := Ask(win.localIndex, rep);
    }

    method Ask(i: nat, rep: Reports) returns (ok: bool)
      requires win.Valid() && i >= win.localIndex
      modifies win`held, win`lastItem, win`ready, win`proposalInfo, win`machines, win`supportIndex, win`gotProposal, win`requested
      ensures win.Valid() && (!ok ==> !win.Askable(i, At(rep.proposals, i))) && win.ready >= old(win.ready)
      ensures ok ==> Asked(rep, i) && win.requested == old(win.requested) + if old(win.Asks(i, At(rep.proposals, i))) then [i] else []
      ensures InstanceState.Decided(old(win.machines), win.machines, win.localIndex)
    {
      hide Instances.Valid, Instances.Askable, InstanceState.AskedOnce, InstanceState.Decided;
      DecidedSame(win.machines, win.localIndex);
      if !win.Askable(i, At(rep.proposals, i)) {
        return false;
      }
      win.CheckProposalNeeded(i, At(rep.proposals, i));
      ok := true;
    }

    method Advance(rep: Reports, ghost idx: nat) returns (ok: bool)
      requires Valid() && Asked(rep, win.localIndex)
      modifies this`store, this`futureMessages, this`futureMessagesMinIndex, this`sent, win
      ensures ok ==> Valid()
      ensures !ok ==> Contradicted(rep, idx)
      ensures ok ==> old(win.localIndex) <= win.localIndex && win.localIndex !in rep.decided
      ensures ok ==> forall i :: old(win.localIndex) <= i < win.localIndex ==> i in rep.decided
      ensures ok ==> SameMessages(old(sent), old(futureMessages), sent, futureMessages)
      ensures ok ==> store == old(store) + (if inStorageInit then [] else Records(rep.decided, old(win.localIndex), win.localIndex))
      ensures ok ==> Applied(win.machines, rep.decided, old(win.localIndex), win.localIndex)
      ensures ok ==> Asked(rep, win.localIndex) && win.startedIndex <= Max(old(win.startedIndex), win.localIndex)
      ensures ok && win.localIndex == old(win.localIndex) ==> unchanged(win)
      ensures ok ==> futureMessagesMinIndex <= Max(old(futureMessagesMinIndex), win.localIndex + 1)
    {
      hide *;
      ghost var bound := Bound(rep.decided.Keys);
      ghost var from := win.localIndex;
      SameOnce(sent, futureMessages);
      NoRecords(rep.decided, from);
      NoneApplied(win.machines, rep.decided, from);
      while win.localIndex in rep.decided
        invariant Valid() && from <= win.localIndex && forall i :: from <= i < win.localIndex ==> i in rep.decided
        invariant SameMessages(old(sent), old(futureMessages), sent, futureMessages)
        invariant store == old(store) + (if inStorageInit then [] else Records(rep.decided, from, win.localIndex))
        invariant Applied(win.machines, rep.decided, from, win.localIndex) && Asked(rep, win.localIndex)
        invariant win.startedIndex <= old(win.startedIndex) || win.startedIndex <= win.localIndex
        invariant win.localIndex == from ==> unchanged(win)
        invariant futureMessagesMinIndex <= old(futureMessagesMinIndex) || futureMessagesMinIndex <= win.localIndex + 1
        decreases bound - win.localIndex
      {
        ghost var s1, f1, ms, at := sent, futureMessages, win.machines, win.localIndex;
        MoreRecords(rep.decided, from, win.localIndex, store, old(store));
        ok := AdvanceOne(rep, idx);
        if !ok { return; }
        SameTwice(old(sent), old(futureMessages), s1, f1, sent, futureMessages);
        StillApplied(ms, win.machines, rep.decided, from, at, at);
        AppliedMore(win.machines, rep.decided, from, at);
      }
      AtMost(win.startedIndex, old(win.startedIndex), win.localIndex);
      AtMost(futureMessagesMinIndex, old(futureMessagesMinIndex), win.localIndex + 1);
      ok := true;
    }

    /** Takes the decision of the current index. */
    method AdvanceOne(rep: Reports, ghost idx: nat) returns (ok: bool)
      requires Valid() && win.localIndex in rep.decided
      modifies this`store, this`futureMessages, this`futureMessagesMinIndex, this`sent, win
      ensures ok ==> Valid() && win.localIndex == old(win.localIndex) + 1
      ensures !ok ==> Contradicted(rep, idx)
      ensures ok ==> SameMessages(old(sent), old(futureMessages), sent, futureMessages)
      ensures ok ==> store == old(store) + (if inStorageInit then [] else [Record(old(win.localIndex), rep.decided[old(win.localIndex)].dec)])
      ensures ok ==> Applied(win.machines, rep.decided, old(win.localIndex), win.localIndex) && InstanceState.Decided(old(win.machines), win.machines, old(win.localIndex))
      ensures ok ==> Asked(rep, win.localIndex) && (win.startedIndex <= old(win.startedIndex) || win.startedIndex <= win.localIndex)
      ensures ok ==> futureMessages == old(futureMessages) - {win.localIndex}
      ensures ok ==> futureMessagesMinIndex == if old(futureMessagesMinIndex) <= win.localIndex then win.localIndex + 1 else old(futureMessagesMinIndex)
    {
      hide Instances.Valid, Instances.Fits, Instances.Askable, FutureOk, LogOk, SameMessages, InstanceState.Decided, Asked, Applied, AppliedAt;
      var d := rep.decided[win.localIndex];
      if !win.Fits(d) {
        return false;
      }
      LogStep(store, win.localIndex, d.dec);
      if !inStorageInit {
        store := store + [Record(win.localIndex, d.dec)];
      }
      ok := TakeDecision(d);
      if !ok { return; }
      ghost var ms := win.machines;
      AppliedOne(ms, rep.decided, win.localIndex - 1);
      ok := Ask(win.localIndex, rep);
      if !ok { return; }
      StillApplied(ms, win.machines, rep.decided, old(win.localIndex), win.localIndex, win.localIndex);
      DecidedThen(old(win.machines), ms, win.machines, old(win.localIndex));
      Drain(win.localIndex);
      if futureMessagesMinIndex <= win.localIndex {
        futureMessagesMinIndex := win.localIndex + 1;
      }
    }

    /** Moves on to the next index, and starts it unless it runs already. */
    method TakeDecision(d: Decision) returns (ok: bool)
      requires win.Valid() && win.Fits(d) && Running()
      modifies win
      ensures ok ==> win.Valid() && win.localIndex == old(win.localIndex) + 1 && Running()
      ensures !ok ==> win.needsConcurrent > 1 && win.startedIndex + 1 < win.localIndex
      ensures ok ==> (win.startedIndex <= old(win.startedIndex) || win.startedIndex <= win.localIndex)
      ensures ok ==> AppliedAt(win.machines, old(win.localIndex), d.dec) && InstanceState.Decided(old(win.machines), win.machines, old(win.localIndex))
    {
      hide Instances.Valid, Instances.Fits, InstanceState.Decided, InstanceState.NoneLeft, InstanceState.NotesCut, InstanceState.KnownAlike, InstanceState.Removed, InstanceState.LosesMachines;
      win.Inside();
      win.DoneIndex(d);
      if win.startedIndex < win.localIndex {
        if win.startedIndex + 1 != win.localIndex {
          return false;
        }
        win.StartNext();
      }
      ok := true;
    }

    /** Starts more instances when they may run at the same time. */
    method StartMore(rep: Reports, ghost idx: nat) returns (ok: bool)
      requires Valid() && win.Plausible(rep.expected) && Asked(rep, win.localIndex)
      modifies win
      ensures ok ==> Valid() && win.localIndex == old(win.localIndex) && NoMoreToStart(rep, win.ready)
      ensures ok ==> old(win.startedIndex) <= win.startedIndex && LetStart(rep.canStartNext, win.ready, old(win.startedIndex), win.startedIndex)
      ensures ok ==> Asked(rep, if win.startedIndex > old(win.startedIndex) then win.startedIndex else win.localIndex)
      ensures ok ==> InstanceState.Decided(old(win.machines), win.machines, win.localIndex)
      ensures ok ==> forall i :: i in old(win.preDecisions) ==> i in win.preDecisions
      ensures !ok ==> Contradicted(rep, idx)
    {
      hide Instances.Valid, FutureOk, LogOk, Instances.Plausible, InstanceState.Decided, Instances.Askable, Instances.Fits, Asked, LetStart;
      DecidedSame(win.machines, win.localIndex);
      NoneLetStart(rep.canStartNext, win.ready, win.startedIndex);
      ok := true;
      if inStorageInit || (win.needsConcurrent <= 1 && win.allowConcurrent == 0) {
        return;
      }
      while win.startedIndex < win.localIndex + KEEP_FUTURE && (win.startedIndex + 1 < win.localIndex + win.allowConcurrent || win.needsConcurrent > 1)
        invariant Valid() && win.localIndex == old(win.localIndex) && old(win.startedIndex) <= win.startedIndex
        invariant LetStart(rep.canStartNext, win.ready, old(win.startedIndex), win.startedIndex) && InstanceState.Decided(old(win.machines), win.machines, win.localIndex)
        invariant Asked(rep, if win.startedIndex > old(win.startedIndex) then win.startedIndex else win.localIndex)
        invariant forall i :: i in old(win.preDecisions) ==> i in win.preDecisions
        decreases win.localIndex + KEEP_FUTURE - win.startedIndex
      {
        ghost var known := win.ready;
        win.Have(win.startedIndex);
        LetStartStill(rep.canStartNext, known, win.ready, old(win.startedIndex), old(win.startedIndex), win.startedIndex);
        if win.startedIndex !in rep.canStartNext || win.startedIndex !in win.ready {
          break;
        }
        ghost var ms, ready := win.machines, win.ready;
        ok := StartOne(rep);
        if !ok { return; }
        DecidedTwice(old(win.machines), ms, win.machines, win.localIndex);
        LetStartOne(rep.canStartNext, ready, win.ready, old(win.startedIndex), win.startedIndex - 1);
      }
    }

    /** Starts one more instance, gives it what it is expected to decide, and asks it for a proposal. */
    method StartOne(rep: Reports) returns (ok: bool)
      requires win.Valid() && win.Plausible(rep.expected) && win.startedIndex >= win.localIndex
      modifies win`startedIndex, win`held, win`lastItem, win`ready, win`proposalInfo, win`machines, win`preDecisions, win`supportIndex, win`gotProposal, win`requested
      ensures win.Valid() && win.startedIndex == old(win.startedIndex) + 1 && win.ready >= old(win.ready)
      ensures if ok then Asked(rep, win.startedIndex) else !win.Askable(win.startedIndex, At(rep.proposals, win.startedIndex))
      ensures InstanceState.Decided(old(win.machines), win.machines, win.localIndex)
      ensures forall i :: i in old(win.preDecisions) ==> i in win.preDecisions
      ensures Supplied(rep.expected, old(win.proposalInfo), win.preDecisions, win.localIndex, win.startedIndex)
    {
      hide *;
      ghost var m0, p0 := win.machines, win.Planned();
      win.NotedIs();
      win.CheckPreDecision(rep.expected, rep.proposals);
      InformedSupplies(rep, p0);
      win.StartNext();
      ghost var m1, p1 := win.machines, win.Planned();
      win.NotedIs();
      win.CheckPreDecision(rep.expected, rep.proposals);
      InformedSupplies(rep, p1);
      ghost var m2 := win.machines;
      ok := Ask(win.startedIndex, rep);
      DecidedTwice(m0, m1, m2, win.localIndex);
      DecidedTwice(m0, m2, win.machines, win.localIndex);
      StillStored(p0, p1, rep, win.localIndex);
      FewerStored(rep.expected, p0.stored, p1.stored, win.preDecisions, win.localIndex, win.startedIndex);
    }

    /** Hands on the messages of the indices that have come into reach, up to the first index whose
        members are not known. */
    method HandOn()
      requires Valid()
      modifies this`futureMessages, this`futureMessagesMinIndex, this`sent, win`held, win`lastItem, win`ready
      ensures Valid() && SameMessages(old(sent), old(futureMessages), sent, futureMessages)
      ensures win.ready >= old(win.ready) && forall i :: i in win.ready && i <= win.startedIndex ==> i in old(win.ready)
      ensures NoneKept(futureMessages, old(futureMessagesMinIndex), futureMessagesMinIndex)
      ensures OnlyKnown(old(futureMessages), futureMessages, win.ready)
      ensures futureMessagesMinIndex > win.startedIndex + KEEP_FUTURE || (futureMessagesMinIndex in futureMessages && futureMessagesMinIndex !in win.ready)
    {
      hide Instances.Valid, LogOk, SameMessages, FutureOk;
      SameOnce(sent, futureMessages);
      while futureMessagesMinIndex <= win.startedIndex + KEEP_FUTURE
        invariant Valid() && SameMessages(old(sent), old(futureMessages), sent, futureMessages)
        invariant win.ready >= old(win.ready) && forall i :: i in win.ready && i <= win.startedIndex ==> i in old(win.ready)
        invariant old(futureMessagesMinIndex) <= futureMessagesMinIndex && NoneKept(futureMessages, old(futureMessagesMinIndex), futureMessagesMinIndex)
        invariant OnlyKnown(old(futureMessages), futureMessages, win.ready)
        decreases win.startedIndex + KEEP_FUTURE + 1 - futureMessagesMinIndex
      {
        if futureMessagesMinIndex in futureMessages {
          win.Have(futureMessagesMinIndex);
          if futureMessagesMinIndex !in win.ready {
            break;
          }
          ghost var s1, f1 := sent, futureMessages;
          Drain(futureMessagesMinIndex);
          SameTwice(old(sent), old(futureMessages), s1, f1, sent, futureMessages);
        }
        futureMessagesMinIndex := futureMessagesMinIndex + 1;
      }
    }

    /** Sorts a received message: too old or too new, kept for later, handed back to be read again now
        that the members are known, or to be processed. */
    method Receive(msg: Msg, deserialized: bool) returns (r: Outcome)
      requires Valid() && msg.index >= 1
      modifies this`futureMessages, this`sent, win`held, win`lastItem, win`ready
      ensures Valid()
      ensures r == Dropped(TooOld) <==> msg.index < SubOrZero(win.localIndex, win.keepPast)
      ensures r == Dropped(TooNew) <==> msg.index > win.startedIndex + DROP_FUTURE
      ensures r.Dropped? ==> r.why in {TooOld, TooNew}
      ensures !r.Dropped? ==> (r == Process <==> msg.index <= win.startedIndex + KEEP_FUTURE && deserialized)
      ensures !r.Dropped? ==> (r == HandedBack <==> msg.index <= win.startedIndex + KEEP_FUTURE && !deserialized && msg.index in win.ready)
      ensures !r.Dropped? ==> (r == Buffered <==> msg.index > win.startedIndex + KEEP_FUTURE || (!deserialized && msg.index !in win.ready))
      ensures r == Buffered ==> sent == old(sent) && futureMessages == old(futureMessages)[msg.index := Kept(old(futureMessages), msg.index) + [msg]]
      ensures sent == old(sent) + if r == HandedBack then [msg] else []
      ensures r != Buffered ==> futureMessages == old(futureMessages)
      ensures r == Process ==> msg.index in win.held
    {
      hide InstanceState.MachinesOk, InstanceState.Interval, InstanceState.Recent, LogOk;
      var got := win.GetMemberChecker(msg.index);
      if got == TooOld || got == TooNew {
        return Dropped(got);
      }
      if got == ParentNotFound {
        futureMessages := futureMessages[msg.index := Kept(futureMessages, msg.index) + [msg]];
        return Buffered;
      }
      if deserialized {
        return Process;
      }
      if msg.index in win.ready {
        sent := sent + [msg];
        return HandedBack;
      }
      // the members of the current index and of those before it are known
      assert msg.index > win.localIndex;
      futureMessages := futureMessages[msg.index := Kept(futureMessages, msg.index) + [msg]];
      r := Buffered;
    }
  }

  /** The records of the decisions of the indices from `a` up to `b`. */
  ghost function Records(decided: map<nat, Decision>, a: nat, b: nat): seq<Record> {
    if a >= b then [] else Records(decided, a, b - 1) + [Record(b - 1, if b - 1 in decided then decided[b - 1].dec else [])]
  }

  lemma NoRecords(decided: map<nat, Decision>, a: nat)
    ensures Records(decided, a, a) == []
    ensures forall s: seq<Record> :: s + [] == s
  {
  }

  lemma MoreRecords(decided: map<nat, Decision>, a: nat, b: nat, store: seq<Record>, before: seq<Record>)
    requires a <= b && b in decided
    ensures Records(decided, a, b + 1) == Records(decided, a, b) + [Record(b, decided[b].dec)]
    ensures before + Records(decided, a, b + 1) == (before + Records(decided, a, b)) + [Record(b, decided[b].dec)]
    ensures store + [] == store
  {
  }

  lemma LogStep(log: seq<Record>, local: nat, dec: Bytes)
    requires LogOk(log, local)
    ensures LogOk(log + [Record(local, dec)], local + 1) && (log == [] ==> LogOk(log, local + 1))
  {
  }

  /** Every index from `from` up to `upTo` let the next one start, and its members are known. */
  ghost predicate LetStart(canStartNext: set<nat>, ready: set<nat>, from: nat, upTo: nat) {
    forall i :: from <= i < upTo ==> i in canStartNext && i in ready
  }

  lemma LetStartStill(can: set<nat>, ready: set<nat>, after: set<nat>, from: nat, from': nat, upTo: nat)
    requires LetStart(can, ready, from, upTo) && ready <= after && from <= from'
    ensures LetStart(can, after, from', upTo)
  {
  }

  lemma LetStartOne(can: set<nat>, ready: set<nat>, after: set<nat>, from: nat, upTo: nat)
    requires LetStart(can, ready, from, upTo) && ready <= after && upTo in can && upTo in after
    ensures LetStart(can, after, from, upTo + 1)
  {
  }

  lemma NoneLetStart(can: set<nat>, ready: set<nat>, from: nat)
    ensures LetStart(can, ready, from, from)
  {
  }

  /** The machines stored for the indices from `lo` up to `hi` were given what is expected of them. */
  ghost predicate Supplied(info: map<nat, Expectation>, stored: map<nat, nat>, pre: map<nat, Bytes>, lo: nat, hi: nat) {
    forall i :: lo <= i <= hi && i in info && i in stored ==> i in pre
  }

  lemma SuppliedStill(info: map<nat, Expectation>, stored: map<nat, nat>, pre: map<nat, Bytes>, after: map<nat, Bytes>, lo: nat, hi: nat)
    requires Supplied(info, stored, pre, lo, hi) && forall i :: i in pre ==> i in after
    ensures Supplied(info, stored, after, lo, hi)
  {
  }

  lemma StillStored(a: Plan, b: Plan, rep: Reports, lo: nat)
    requires exists hi :: Informed(a, b, rep.expected, rep.proposals, lo, hi)
    ensures forall i :: i in a.stored ==> i in b.stored
  {
    var hi :| Informed(a, b, rep.expected, rep.proposals, lo, hi);
    forall i | i in a.stored ensures i in b.stored {
      if lo <= i < hi && i in rep.expected && i !in a.notes.expected {
        assert InformedAt(a, b, i, rep.expected[i], i in rep.proposals);
      } else {
        assert SameAt(a, b, i);
      }
    }
  }

  lemma FewerStored(info: map<nat, Expectation>, stored: map<nat, nat>, after: map<nat, nat>, pre: map<nat, Bytes>, lo: nat, hi: nat)
    requires Supplied(info, after, pre, lo, hi) && forall i :: i in stored ==> i in after
    ensures Supplied(info, stored, pre, lo, hi)
  {
  }

  lemma AtMost(a: nat, b: nat, c: nat)
    requires a <= b || a <= c
    ensures a <= Max(b, c)
  {
  }

  lemma DecidedThen(a: seq<Machine>, b: seq<Machine>, c: seq<Machine>, idx: nat)
    requires InstanceState.Decided(a, b, idx) && InstanceState.Decided(b, c, idx + 1)
    ensures InstanceState.Decided(a, c, idx)
  {
  }

  /** A number above all of a finite set. */
  ghost function Bound(s: set<nat>): (b: nat)
    ensures forall x :: x in s ==> x < b
  {
    if s == {} then 0 else
      var x :| x in s;
      assert forall y :: y in s ==> y == x || y in s - {x};
      Max(x + 1, Bound(s - {x}))
  }
}
