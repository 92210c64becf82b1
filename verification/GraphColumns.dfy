/** What a node stores per event, and what each stored value must be. */
module GraphColumns {
  import opened Events
  import opened Ancestry
  import opened Rounds
  import opened Elections

  datatype Verdict = Unknown | No | Yes

  /** `votes[i]` holds the votes, on this witness, of the witnesses of identity `i` in the
      next round. */
  datatype WitnessInfo = WitnessInfo(votes: seq<seq<bool>>, decided: Verdict, decidedRound: nat)

  type Row = seq<seq<Event>>
  type Slots = seq<Option<Event>>

  function EmptyRow(n: nat): (row: Row)
    ensures |row| == n && forall i :: 0 <= i < n ==> row[i] == []
  {
    if n == 0 then [] else EmptyRow(n - 1) + [[]]
  }

  function NoSlots(n: nat): (s: Slots)
    ensures |s| == n && forall i :: 0 <= i < n ==> s[i] == None
  {
    if n == 0 then [] else NoSlots(n - 1) + [None]
  }

  function AllFalse(n: nat): (s: seq<bool>)
    ensures |s| == n && forall i :: 0 <= i < n ==> !s[i]
  {
    if n == 0 then [] else AllFalse(n - 1) + [false]
  }

  function Zeros(n: nat): (s: seq<nat>)
    ensures |s| == n && forall i :: 0 <= i < n ==> s[i] == 0
  {
    if n == 0 then [] else Zeros(n - 1) + [0]
  }

  function NoPayloads(n: nat): (s: seq<seq<Bytes>>)
    ensures |s| == n && forall i :: 0 <= i < n ==> s[i] == []
  {
    if n == 0 then [] else NoPayloads(n - 1) + [[]]
  }

  function NoVotes(n: nat): (s: seq<seq<bool>>)
    ensures |s| == n && forall i :: 0 <= i < n ==> s[i] == []
  {
    if n == 0 then [] else NoVotes(n - 1) + [[]]
  }

  function RowAt(n: nat, aw: map<nat, Row>, r: nat): Row {
    if r in aw then aw[r] else EmptyRow(n)
  }

  // ----- Column invariants, over the events `S` whose columns are filled -----

  ghost predicate RoundsOk(nmt: nat, S: set<Event>, round: map<Event, nat>) {
    round.Keys == S && forall e :: e in S ==> round[e] == Round(nmt, e)
  }

  /** Row `r` holds, by identity, exactly the witnesses of round `r`, at most one each. */
  ghost predicate RowOk(n: nat, nmt: nat, S: set<Event>, r: nat, row: Row) {
    && |row| == n
    && forall i :: 0 <= i < n ==> |row[i]| <= 1 && forall w :: w in row[i] <==> w in Witnesses(nmt, S, r) && w.id == i
  }

  ghost predicate RowsOk(n: nat, nmt: nat, S: set<Event>, aw: map<nat, Row>) {
    && (forall r :: r in aw ==> RowOk(n, nmt, S, r, aw[r]))
    && forall w :: w in S && IsWitness(nmt, w) ==> Round(nmt, w) in aw
  }

  /** `v` lists by identity the witnesses of round `r` that `e` strongly sees. */
  ghost predicate IsSeenVector(n: nat, nmt: nat, e: Event, r: nat, v: Slots) {
    && |v| == n
    && (forall i :: 0 <= i < n && v[i].Some? ==> v[i].value in Seen(nmt, e, r) && v[i].value.id == i)
    && forall w :: w in Seen(nmt, e, r) ==> w.id < n && v[w.id] == Some(w)
  }

  ghost predicate SeesSound(n: nat, nmt: nat, ss: map<Event, Slots>) {
    forall e :: e in ss ==>
      |ss[e]| == n && forall i :: 0 <= i < n && ss[e][i].Some? ==> StronglySees(nmt, ss[e][i].value, e)
  }

  ghost predicate SeesOk(n: nat, nmt: nat, S: set<Event>, ss: map<Event, Slots>) {
    && ss.Keys <= S
    && SeesSound(n, nmt, ss)
    && (forall e :: e in ss ==> e.Derived?)
    && forall e :: e in S && e.Derived? ==> SeesRight(n, nmt, e, ss)
  }

  /** A witness has the vector of the round before its own; any other event has that of its own round,
      if it strongly sees a witness of it, and none otherwise. */
  ghost predicate SeesRight(n: nat, nmt: nat, e: Event, ss: map<Event, Slots>) {
    if IsWitness(nmt, e) then Round(nmt, e) > 0 && e in ss && IsSeenVector(n, nmt, e, Round(nmt, e) - 1, ss[e])
    else (e in ss <==> Seen(nmt, e, Round(nmt, e)) != {}) && (e in ss ==> IsSeenVector(n, nmt, e, Round(nmt, e), ss[e]))
  }

  /** The highest event of identity `i` in `C`; none if there is none. */
  ghost predicate IsHighest(C: set<Event>, i: nat, k: Option<Event>) {
    if k.None? then forall a :: a in C ==> a.id != i
    else k.value in C && k.value.id == i && forall a :: a in C && a.id == i ==> a.index <= k.value.index
  }

  ghost predicate Covers(n: nat, C: set<Event>, v: Slots) {
    |v| == n && forall i :: 0 <= i < n ==> IsHighest(C, i, v[i])
  }

  /** For every identity, the highest event among the ancestors of `e`, with `e`. */
  ghost predicate IsKnownVector(n: nat, e: Event, v: Slots) {
    Covers(n, Anc(e), v)
  }

  /** Enters `e` in its slot if it is higher than what is there. */
  function CheckEv(v: Slots, e: Event): (u: Slots)
    requires e.id < |v|
    ensures |u| == |v|
  {
    if v[e.id] == None || e.index > v[e.id].value.index then v[e.id := Some(e)] else v
  }

  lemma CheckEvCovers(n: nat, C: set<Event>, v: Slots, e: Event)
    requires Covers(n, C, v) && e.id < n
    ensures Covers(n, C + {e}, CheckEv(v, e))
  {
  }

  /** Enters all events of `w`, the highest ones of `D`. */
  method Merge(n: nat, v0: Slots, w: Slots, ghost C: set<Event>, ghost D: set<Event>) returns (v: Slots)
    requires Covers(n, C, v0) && Covers(n, D, w)
    ensures Covers(n, C + D, v)
  {
    v := v0;
    ghost var E := C;
    assert C + {} == C;
    var j := 0;
    while j < n
      invariant 0 <= j <= n
      invariant C <= E <= C + D && Covers(n, E, v)
      invariant forall k :: 0 <= k < j && w[k].Some? ==> w[k].value in E
    {
      if w[j].Some? {
        assert IsHighest(D, j, w[j]);
        CheckEvCovers(n, E, v, w[j].value);
        v := CheckEv(v, w[j].value);
        E := E + {w[j].value};
      }
      j := j + 1;
    }
    forall i | 0 <= i < n ensures IsHighest(C + D, i, v[i]) {
      assert IsHighest(D, i, w[i]) && IsHighest(E, i, v[i]);
    }
  }

  ghost predicate KnownOk(n: nat, S: set<Event>, known: map<Event, Slots>) {
    && known.Keys <= S
    && (forall e :: e in S && e.Derived? ==> e in known)
    && forall e :: e in known ==> IsKnownVector(n, e, known[e])
  }

  lemma RowAtOk(n: nat, nmt: nat, S: set<Event>, aw: map<nat, Row>, r: nat)
    requires RowsOk(n, nmt, S, aw)
    ensures RowOk(n, nmt, S, r, RowAt(n, aw, r))
  {
  }

  // ----- Counting -----

  function TrueCount(s: seq<bool>): nat {
    if s == [] then 0 else TrueCount(s[..|s| - 1]) + (if s[|s| - 1] then 1 else 0)
  }

  lemma {:induction false} TrueCountCard(s: seq<bool>, ids: set<nat>)
    requires forall i :: i in ids <==> 0 <= i < |s| && s[i]
    ensures TrueCount(s) == |ids|
  {
    if s != [] {
      var k := |s| - 1;
      TrueCountCard(s[..k], ids - {k});
      if s[k] {
        assert ids == (ids - {k}) + {k};
      } else {
        assert ids == ids - {k};
      }
    } else {
      assert ids == {};
    }
  }

  function NonNilCount(v: Slots): nat {
    if v == [] then 0 else NonNilCount(v[..|v| - 1]) + (if v[|v| - 1].Some? then 1 else 0)
  }

  lemma {:induction false} NonNilCard(v: Slots, W: set<Event>)
    requires forall i :: 0 <= i < |v| && v[i].Some? ==> v[i].value in W && v[i].value.id == i
    requires forall w :: w in W ==> w.id < |v| && v[w.id] == Some(w)
    ensures NonNilCount(v) == |W|
  {
    if v != [] {
      var k := |v| - 1;
      var U := if v[k].Some? then W - {v[k].value} else W;
      forall w | w in U ensures w.id < k && v[..k][w.id] == Some(w) {
        assert v[w.id] == Some(w);
      }
      forall i | 0 <= i < k && v[..k][i].Some? ensures v[..k][i].value in U && v[..k][i].value.id == i {
        assert v[..k][i] == v[i];
      }
      NonNilCard(v[..k], U);
    } else {
      assert W == {};
    }
  }

  /** How many of the identities below `|v|` that `v` lists have vote `b`. */
  function Tally(v: Slots, votes: seq<bool>, b: bool): nat
    requires |votes| >= |v|
  {
    if v == [] then 0
    else
      var k := |v| - 1;
      Tally(v[..k], votes, b) + (if v[k].Some? && votes[k] == b then 1 else 0)
  }

  lemma {:induction false} TallyCard(v: Slots, votes: seq<bool>, b: bool, W: set<Event>)
    requires |votes| >= |v|
    requires forall i :: 0 <= i < |v| && v[i].Some? ==> v[i].value.id == i && (v[i].value in W <==> votes[i] == b)
    requires forall w :: w in W ==> w.id < |v| && v[w.id] == Some(w)
    ensures Tally(v, votes, b) == |W|
  {
    if v != [] {
      var k := |v| - 1;
      if v[k].Some? && votes[k] == b {
        TallyCard(v[..k], votes, b, W - {v[k].value});
        assert W == (W - {v[k].value}) + {v[k].value};
      } else {
        TallyCard(v[..k], votes, b, W);
      }
    } else {
      assert W == {};
    }
  }

  /** How many identities have a witness in the row. */
  function WitnessCount(row: Row): nat {
    if row == [] then 0 else WitnessCount(row[..|row| - 1]) + (if |row[|row| - 1]| > 0 then 1 else 0)
  }

  lemma CountNone(row: Row)
    ensures WitnessCount(row[..0]) == 0
  {
  }

  lemma CountStep(row: Row, i: nat)
    requires i < |row|
    ensures WitnessCount(row[..i + 1]) == WitnessCount(row[..i]) + (if |row[i]| > 0 then 1 else 0)
  {
    assert row[..i + 1][..i] == row[..i];
  }

  lemma {:induction false} WitnessCountPrefix(row: Row, W: set<Event>)
    requires forall i :: 0 <= i < |row| ==> |row[i]| <= 1 && forall w :: w in row[i] <==> w in W && w.id == i
    requires forall w :: w in W ==> w.id < |row|
    ensures WitnessCount(row) == |W|
  {
    if row != [] {
      var k := |row| - 1;
      assert forall u :: u in row[k] <==> u in W && u.id == k;
      if |row[k]| > 0 {
        var w := row[k][0];
        WitnessCountPrefix(row[..k], W - {w});
        assert W == (W - {w}) + {w};
      } else {
        WitnessCountPrefix(row[..k], W);
      }
    } else {
      assert W == {};
    }
  }

  lemma WitnessCountCard(n: nat, nmt: nat, S: set<Event>, r: nat, row: Row)
    requires Dag(n, S) && RowOk(n, nmt, S, r, row)
    ensures WitnessCount(row) == |Witnesses(nmt, S, r)|
  {
    WitnessCountPrefix(row, Witnesses(nmt, S, r));
  }
}
