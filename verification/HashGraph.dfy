/** A node's event graph.  A column such as `round` or `known` holds, for every event, the
value of that field of the event; an event value stands for the one object the program
allocates for it. */
module HashGraph {
  import opened Events
  import opened Ancestry
  import opened Rounds
  import opened Elections
  import opened GraphColumns
  import opened Verdicts
  import opened DecidedPrefix
  import opened Batches

  function Remotes(e: Event): seq<Event> { if e.Derived? then e.remotes else [] }

  datatype AddError =
    | ErrInvalidPubIndex | ErrInvalidIndex | ErrInvalidHashSize | ErrInvalidRemoteAncestor
    | ErrDuplicateRemoteAncestors | ErrEventExists | ErrPrevIndexNotFound

  datatype AddResult = Added(event: Event) | CheckedOnly | Failed(error: AddError)

  /** The remote pointer at `k` is not to the event's own identity, has a hash of the right
      size, and is to another identity than those before it. */
  ghost predicate GoodRemote(info: EventInfo, k: nat)
    requires k < |info.remotes|
  {
    && info.remotes[k].id != info.local.id
    && HashSize(info.remotes[k].hash) == HASH_LEN
    && forall j :: 0 <= j < k ==> info.remotes[j].id != info.remotes[k].id
  }

  ghost predicate Acceptable(n: nat, info: EventInfo) {
    && info.local.id < n && info.local.index != 0 && HashSize(info.local.hash) == HASH_LEN
    && forall k :: 0 <= k < |info.remotes| ==> GoodRemote(info, k)
  }

  /** `e` can be added to `D`: it is well formed and its direct ancestors are there. */
  ghost predicate Rooted(n: nat, D: set<Event>, e: Event) {
    e.Derived? && WellFormed(n, e) && forall p :: p in Parents(e) ==> p in D
  }

  /** No event of `D` with the identity and index of `info` is a different event. */
  ghost predicate NoFork(D: set<Event>, info: EventInfo) {
    forall e :: e in D && e.id == info.local.id && e.index == info.local.index ==> Info(e) == info
  }

  ghost predicate Present(D: set<Event>, info: EventInfo) {
    exists e :: e in D && Info(e) == info
  }

  ghost predicate CanAdd(n: nat, D: set<Event>, info: EventInfo) {
    exists e :: Rooted(n, D, e) && Info(e) == info
  }

  /** One row per decided round, the first all zeros, and no entry falls from round to round. */
  ghost predicate RowsRise(dm: map<nat, seq<nat>>, n: nat) {
    && (forall r :: r in dm ==> |dm[r]| == n)
    && 0 in dm && (forall i :: 0 <= i < n && i < |dm[0]| ==> dm[0][i] == 0)
    && forall r, s, i :: r in dm && s in dm && r <= s && 0 <= i < n && i < |dm[r]| && i < |dm[s]| ==> dm[r][i] <= dm[s][i]
  }

  /** No row has changed, and the rows of the rounds past `last` hold the indices of the tails. */
  ghost predicate Snapshots(before: map<nat, seq<nat>>, last: nat, dm: map<nat, seq<nat>>, now: nat, tails: seq<Event>) {
    && (forall r :: r in before ==> r in dm && dm[r] == before[r])
    && forall r :: last < r <= now ==> r in dm && IndicesOf(tails, dm[r])
  }

  ghost predicate IndicesOf(tails: seq<Event>, ix: seq<nat>) {
    |ix| == |tails| && forall i :: 0 <= i < |tails| ==> ix[i] == tails[i].index
  }

  lemma SnapshotsSame(dm: map<nat, seq<nat>>, last: nat, tails: seq<Event>)
    ensures Snapshots(dm, last, dm, last, tails)
  {
  }

  lemma SnapshotsMore(before: map<nat, seq<nat>>, last: nat, dm: map<nat, seq<nat>>, now: nat, tails: seq<Event>, ix: seq<nat>)
    requires Snapshots(before, last, dm, now, tails) && last <= now && (forall r :: r in dm <==> 0 <= r <= now)
    requires |ix| == |tails| && forall i :: 0 <= i < |tails| ==> ix[i] == tails[i].index
    ensures Snapshots(before, last, dm[now + 1 := ix], now + 1, tails)
  {
    assert IndicesOf(tails, ix);
  }

  lemma RowsRiseMore(dm: map<nat, seq<nat>>, now: nat, tails: seq<Event>, ix: seq<nat>)
    requires RowsRise(dm, |tails|) && (forall r :: r in dm <==> 0 <= r <= now)
    requires forall r :: r in dm ==> |dm[r]| == |tails| && forall i :: 0 <= i < |tails| ==> dm[r][i] <= tails[i].index
    requires |ix| == |tails| && forall i :: 0 <= i < |tails| ==> ix[i] == tails[i].index
    ensures RowsRise(dm[now + 1 := ix], |tails|)
  {
  }

  /** Every event but the first ones passed the checks on its wire form. */
  ghost predicate AllAdmitted(n: nat, D: set<Event>) {
    forall e :: e in D && e.Derived? ==> |e.remotes| > 0 && Acceptable(n, Info(e))
  }

  /** `lower` is nowhere below an event that a search has already marked. */
  ghost predicate MarksMiss(lower: Event, upper: Event, mark: map<Event, bool>) {
    forall x :: x in mark && x in Anc(upper) ==> lower !in Anc(x)
  }

  /** The marks a search below `upper` has added are on events that do not lead to `lower`. */
  ghost predicate Swept(lower: Event, upper: Event, before: map<Event, bool>, mark: map<Event, bool>) {
    forall x :: x in mark ==> x in before || x == upper || (x in Anc(upper) && lower !in Anc(x))
  }

  /** Every identity with an event between `lower` and `x` is recorded in `sees`. */
  ghost predicate Covered(lower: Event, x: Event, sees: seq<bool>) {
    forall y :: y in Anc(x) && lower in Anc(y) ==> y.id < |sees| && sees[y.id]
  }

  ghost predicate MarksAnswer(lower: Event, mark: map<Event, bool>, sees: seq<bool>) {
    forall x :: x in mark ==> mark[x] == (lower in Anc(x)) && Covered(lower, x, sees)
  }

  /** The stored round of an event bounds the rounds of the events below it. */
  ghost predicate RoundsBound(nmt: nat, round: map<Event, nat>) {
    forall x, a :: x in round && a in Anc(x) && a != x ==> Round(nmt, a) <= round[x]
  }

  lemma MapSame<K, V>(m: map<K, V>, k: K)
    requires k in m
    ensures m[k := m[k]] == m
  {
  }

  lemma MapOverwrite<K, V>(m: map<K, V>, k: K, a: V, b: V)
    ensures m[k := a][k := b] == m[k := b]
  {
  }

  class Graph {
    const n: nat
    const nmt: nat

    ghost var events: set<Event>
    var tails: seq<Event>
    var round: map<Event, nat>
    var wi: map<Event, WitnessInfo>
    var stronglySees: map<Event, Slots>
    var known: map<Event, Slots>
    var allAncestorsDecided: set<Event>
    var allWitnessMap: map<nat, Row>
    var decidedRoundMap: map<nat, seq<nat>>
    var lastDecided: nat
    var eventCount: nat
    // scratch marks shared by all traversals: an event that is not a key is not marked
    var mark: map<Event, bool>
    var seen: seq<Event>

    ghost predicate MarksListed()
      reads this`mark, this`seen
    {
      forall e :: e in mark ==> e in seen
    }

    method ResetSeen()
      requires MarksListed()
      modifies this`mark, this`seen
      ensures mark == map[] && seen == []
    {
      var i := 0;
      while i < |seen|
        invariant 0 <= i <= |seen|
        invariant seen == old(seen)
        invariant forall e :: e in mark ==> e in seen[i..]
      {
        assert forall e :: e in seen[i..] ==> e == seen[i] || e in seen[i + 1..];
        mark := mark - {seen[i]};
        i := i + 1;
      }
      seen := [];
    }

    // ----- Plain reachability -----

    /** The remote ancestor tried first when an event has one for every other identity. */
    function ConvertIdx(choose: nat, other: Event): int {
      if choose <= other.id then choose else choose - 1
    }

    ghost predicate Searchable(lower: Event, upper: Event)
      reads this`events, this`round
    {
      && Dag(n, events) && ForkFree(events) && RoundsOk(nmt, events, round)
      && lower in events && upper in events && IsWitness(nmt, lower)
    }

    /** When the search arrives here from a witness without having found it among the local
        ancestors of `upper`, the shortcut index is a valid one. */
    lemma ShortcutInBounds(lower: Event, upper: Event)
      requires Searchable(lower, upper)
      requires lower != upper && round[lower] <= round[upper]
      requires upper.Derived? ==> lower !in Anc(upper.parent)
      requires |Remotes(upper)| == n - 1
      ensures 0 <= ConvertIdx(lower.id, upper) < |Remotes(upper)|
    {
      if lower.id == upper.id {
        if lower.index < upper.index {
          assert upper.parent in Parents(upper);
          ChainAncestor(n, events, lower, upper.parent);
        } else if upper.index < lower.index {
          WitnessOrder(n, nmt, events, upper, lower);
        }
      }
    }

    method CheckHasPath(lower: Event, upper: Event) returns (b: bool)
      requires Searchable(lower, upper) && MarksListed() && MarksMiss(lower, upper, mark)
      modifies this`mark, this`seen
      ensures MarksListed() && old(mark.Keys) <= mark.Keys
      ensures b == (lower in Anc(upper))
      ensures !b ==> forall x :: x in mark ==> x in old(mark) || x in Anc(upper)
      decreases upper, 2
    {
      hide Anc, Swept, Round, IsWitness;
      AncCases(lower, upper);
      AncCases(upper, upper);
      if upper in mark {
        return false;
      }
      if lower == upper {
        return true;
      }
      if round[lower] > round[upper] {
        if lower in Anc(upper) { RoundMonotone(nmt, lower, upper); }
        return false;
      }
      mark := mark[upper := true];
      seen := seen + [upper];
      SweptStart(lower, upper, old(mark));
      if upper.Derived? {
        assert upper.parent in Parents(upper);
        b := SearchAncestor(lower, upper, upper.parent, old(mark));
        if b { return true; }
      }
      if |Remotes(upper)| == n - 1 {
        ShortcutInBounds(lower, upper);
        b := SearchAncestor(lower, upper, Remotes(upper)[ConvertIdx(lower.id, upper)], old(mark));
        if b { return true; }
      }
      b := SearchRemotes(lower, upper, old(mark));
      if !b {
        SweptEnd(lower, upper, old(mark), mark);
      }
    }

    /** The search below all remote ancestors of `upper`. */
    method SearchRemotes(lower: Event, upper: Event, ghost before: map<Event, bool>) returns (b: bool)
      requires Searchable(lower, upper)
      requires MarksListed() && before.Keys <= mark.Keys
      requires MarksMiss(lower, upper, before) && Swept(lower, upper, before, mark)
      modifies this`mark, this`seen
      ensures MarksListed() && before.Keys <= mark.Keys
      ensures b == exists p :: p in Remotes(upper) && lower in Anc(p)
      ensures !b ==> Swept(lower, upper, before, mark)
      decreases upper, 1
    {
      hide Anc, Swept, MarksMiss, Searchable;
      var rs := Remotes(upper);
      var k := 0;
      while k < |rs|
        invariant 0 <= k <= |rs|
        invariant MarksListed() && before.Keys <= mark.Keys
        invariant Swept(lower, upper, before, mark)
        invariant forall p :: p in rs[..k] ==> lower !in Anc(p)
      {
        assert rs[k] in Parents(upper);
        b := SearchAncestor(lower, upper, rs[k], before);
        if b { return true; }
        assert rs[..k + 1] == rs[..k] + [rs[k]];
        k := k + 1;
      }
      assert rs[..k] == rs;
      return false;
    }

    static lemma SweptStart(lower: Event, upper: Event, mark: map<Event, bool>)
      ensures Swept(lower, upper, mark, mark[upper := true])
    {
    }

    static lemma SweptEnd(lower: Event, upper: Event, before: map<Event, bool>, mark: map<Event, bool>)
      requires Swept(lower, upper, before, mark)
      ensures forall x :: x in mark ==> x in before || x in Anc(upper)
    {
      AncCases(upper, upper);
    }

    /** The search below one direct ancestor `p` of `upper`; `before` are the marks there
        were when the search reached `upper`. */
    method SearchAncestor(lower: Event, upper: Event, p: Event, ghost before: map<Event, bool>) returns (b: bool)
      requires Searchable(lower, upper) && p in Parents(upper)
      requires MarksListed() && before.Keys <= mark.Keys
      requires MarksMiss(lower, upper, before) && Swept(lower, upper, before, mark)
      modifies this`mark, this`seen
      ensures MarksListed() && before.Keys <= mark.Keys
      ensures b == (lower in Anc(p))
      ensures !b ==> Swept(lower, upper, before, mark)
      decreases upper, 0
    {
      ParentAnc(p, upper);
      ghost var mid := mark;
      b := CheckHasPath(lower, p);
      if !b {
        forall x | x in mark && x !in mid ensures x in Anc(upper) && lower !in Anc(x) {
          AncTransitive(x, p);
        }
      }
    }

    /** Whether `lower` is an ancestor of `upper`, even when the marks of an outer traversal are
        still set, provided none of them is above `lower`. */
    method HasPath(lower: Event, upper: Event) returns (b: bool)
      requires Searchable(lower, upper) && MarksListed() && MarksMiss(lower, upper, mark)
      modifies this`mark, this`seen
      ensures mark == map[] && seen == []
      ensures b == (lower in Anc(upper))
    {
      b := CheckHasPath(lower, upper);
      ResetSeen();
    }

    // ----- Strongly seeing -----

    /** What the search from `root` relies on; `root` itself may still have a provisional round. */
    ghost predicate StronglySearchable(lower: Event, root: Event)
      reads this`round, this`stronglySees
    {
      && RoundsBound(nmt, round) && SeesSound(n, nmt, stronglySees)
      && lower in round && round[lower] == Round(nmt, lower) && lower.id < n
      && forall x :: x in Anc(root) ==> x in round && x.id < n
    }

    /** `sees` and the marks are right, or the search has already succeeded. */
    ghost predicate StrongSearch(lower: Event, root: Event, sees: seq<bool>, early: bool)
      reads this`mark, this`seen
    {
      && MarksListed() && |sees| == n
      && (if early then StronglySees(nmt, lower, root) else MarksAnswer(lower, mark, sees))
    }

    /** `sees` has gained only identities between `lower` and `upper`, and has lost none. */
    ghost predicate Gained(lower: Event, upper: Event, before: seq<bool>, sees: seq<bool>)
    {
      && |before| == |sees|
      && forall i :: 0 <= i < |sees| ==> (before[i] ==> sees[i]) && (sees[i] ==> before[i] || i in Between(lower, upper))
    }

    method RecStronglySees(lower: Event, upper: Event, sees0: seq<bool>, early0: bool, ghost root: Event)
      returns (b: bool, sees: seq<bool>, early: bool)
      requires StronglySearchable(lower, root) && upper in Anc(root)
      requires StrongSearch(lower, root, sees0, early0)
      modifies this`mark, this`seen
      ensures StrongSearch(lower, root, sees, early)
      ensures early0 ==> early
      ensures !early ==> b == (lower in Anc(upper)) && Covered(lower, upper, sees) && Gained(lower, upper, sees0, sees)
      decreases upper, 2
    {
      hide Anc;
      sees, early := sees0, early0;
      if early {
        return true, sees, early;
      }
      if upper in mark {
        return mark[upper], sees, early;
      }
      AncTransitive(upper, root);
      if round[lower] > round[upper] {
        NotBelow(lower, upper);
        return false, sees, early;
      }
      if lower == upper {
        sees := sees[upper.id := true];
        AncCases(upper, upper);
        SelfCovered(upper, sees0, sees);
        return true, sees, early;
      }
      if upper in stronglySees && round[upper] == round[lower] {
        if stronglySees[upper][lower.id] == Some(lower) {
          BetweenMonotone(lower, upper, root);
          SubsetCard(Between(lower, upper), Between(lower, root));
          return true, sees, true;
        }
      }
      var found, local := false, false;
      found, sees, early := StrongRemotes(lower, upper, sees, early, root);
      if upper.Derived? {
        ghost var mid := sees;
        assert upper.parent in Parents(upper);
        local, sees, early := StrongStep(lower, upper, upper.parent, sees, early, root);
        if !early {
          GainedTwice(lower, upper, sees0, mid, sees);
        }
      }
      b, sees := StrongFinish(lower, upper, found || local, sees0, sees, early, root);
    }

    /** The search below all remote ancestors of `upper`. */
    method StrongRemotes(lower: Event, upper: Event, sees0: seq<bool>, early0: bool, ghost root: Event)
      returns (found: bool, sees: seq<bool>, early: bool)
      requires StronglySearchable(lower, root) && upper in Anc(root)
      requires StrongSearch(lower, root, sees0, early0)
      modifies this`mark, this`seen
      ensures StrongSearch(lower, root, sees, early)
      ensures early0 ==> early
      ensures !early ==> found == exists p :: p in Remotes(upper) && lower in Anc(p)
      ensures !early ==> forall p :: p in Remotes(upper) ==> Covered(lower, p, sees)
      ensures !early ==> Gained(lower, upper, sees0, sees)
      decreases upper, 1
    {
      hide Anc, Covered, Gained, StrongSearch, StronglySearchable;
      sees, early, found := sees0, early0, false;
      var rs := Remotes(upper);
      GainedNothing(lower, upper, sees0);
      var k := 0;
      while k < |rs|
        invariant 0 <= k <= |rs|
        invariant StrongSearch(lower, root, sees, early)
        invariant early0 ==> early
        invariant !early ==> (found <==> exists p :: p in rs[..k] && lower in Anc(p))
        invariant !early ==> forall p :: p in rs[..k] ==> Covered(lower, p, sees)
        invariant !early ==> Gained(lower, upper, sees0, sees)
      {
        ghost var mid := sees;
        var b;
        assert rs[k] in Parents(upper);
        b, sees, early := StrongStep(lower, upper, rs[k], sees, early, root);
        if b { found := true; }
        assert rs[..k + 1] == rs[..k] + [rs[k]];
        if !early {
          GainedTwice(lower, upper, sees0, mid, sees);
          forall p | p in rs[..k] ensures Covered(lower, p, sees) {
            CoveredGrows(lower, upper, p, mid, sees);
          }
        }
        k := k + 1;
      }
      assert rs[..k] == rs;
    }

    /** The search below one direct ancestor `p` of `upper`. */
    method StrongStep(lower: Event, upper: Event, p: Event, sees0: seq<bool>, early0: bool, ghost root: Event)
      returns (b: bool, sees: seq<bool>, early: bool)
      requires StronglySearchable(lower, root) && upper in Anc(root) && p in Parents(upper)
      requires StrongSearch(lower, root, sees0, early0)
      modifies this`mark, this`seen
      ensures StrongSearch(lower, root, sees, early)
      ensures early0 ==> early
      ensures !early ==> b == (lower in Anc(p)) && Covered(lower, p, sees) && Gained(lower, upper, sees0, sees)
      decreases upper, 0
    {
      ParentAnc(p, upper);
      AncTransitive(upper, root);
      BetweenMonotone(lower, p, upper);
      b, sees, early := RecStronglySees(lower, p, sees0, early0, root);
    }

    /** Records the answer for `upper` once all its direct ancestors are answered. */
    method StrongFinish(lower: Event, upper: Event, reached: bool, ghost before: seq<bool>, sees0: seq<bool>, early: bool, ghost root: Event)
      returns (b: bool, sees: seq<bool>)
      requires upper.id < n && upper != lower
      requires StrongSearch(lower, root, sees0, early)
      requires !early ==> reached == exists p :: p in Parents(upper) && lower in Anc(p)
      requires !early ==> forall p :: p in Parents(upper) ==> Covered(lower, p, sees0)
      requires !early ==> Gained(lower, upper, before, sees0)
      modifies this`mark, this`seen
      ensures StrongSearch(lower, root, sees, early)
      ensures !early ==> b == (lower in Anc(upper)) && Covered(lower, upper, sees) && Gained(lower, upper, before, sees)
    {
      sees := sees0;
      seen := seen + [upper];
      ghost var before' := mark;
      mark := mark[upper := reached];
      b := reached;
      if reached {
        sees := sees[upper.id := true];
      }
      if !early {
        FinishAnswer(lower, upper, reached, sees0, sees, before');
        FinishGained(lower, upper, reached, before, sees0, sees);
      }
    }

    lemma FinishAnswer(lower: Event, upper: Event, reached: bool, sees0: seq<bool>, sees: seq<bool>, mark: map<Event, bool>)
      requires upper.id < |sees0| && upper != lower
      requires sees == if reached then sees0[upper.id := true] else sees0
      requires reached == exists p :: p in Parents(upper) && lower in Anc(p)
      requires forall p :: p in Parents(upper) ==> Covered(lower, p, sees0)
      requires MarksAnswer(lower, mark, sees0)
      ensures reached == (lower in Anc(upper))
      ensures Covered(lower, upper, sees)
      ensures MarksAnswer(lower, mark[upper := reached], sees)
    {
      hide Anc, Covered;
      AncCases(lower, upper);
      FinishCovered(lower, upper, reached, sees0, sees);
      forall x | x in mark ensures Covered(lower, x, sees) {
        CoveredKept(lower, x, sees0, sees);
      }
    }

    lemma CoveredKept(lower: Event, x: Event, a: seq<bool>, b: seq<bool>)
      requires |a| == |b| && forall i :: 0 <= i < |a| && a[i] ==> b[i]
      requires Covered(lower, x, a)
      ensures Covered(lower, x, b)
    {
    }

    lemma FinishCovered(lower: Event, upper: Event, reached: bool, sees0: seq<bool>, sees: seq<bool>)
      requires upper.id < |sees0|
      requires sees == if reached then sees0[upper.id := true] else sees0
      requires reached == (lower in Anc(upper))
      requires forall p :: p in Parents(upper) ==> Covered(lower, p, sees0)
      ensures Covered(lower, upper, sees)
    {
      hide Anc;
      forall y | y in Anc(upper) && lower in Anc(y) ensures y.id < |sees| && sees[y.id] {
        AncTransitive(y, upper);
        AncCases(y, upper);
        if y != upper {
          var p :| p in Parents(upper) && y in Anc(p);
          assert Covered(lower, p, sees0);
        }
      }
    }

    lemma FinishGained(lower: Event, upper: Event, reached: bool, before: seq<bool>, sees0: seq<bool>, sees: seq<bool>)
      requires upper.id < |sees0| && sees == if reached then sees0[upper.id := true] else sees0
      requires reached ==> lower in Anc(upper)
      requires Gained(lower, upper, before, sees0)
      ensures Gained(lower, upper, before, sees)
    {
      if reached {
        AncCases(upper, upper);
        assert upper.id in Between(lower, upper);
      }
    }

    lemma CoveredGrows(lower: Event, upper: Event, x: Event, a: seq<bool>, b: seq<bool>)
      requires Gained(lower, upper, a, b) && Covered(lower, x, a)
      ensures Covered(lower, x, b)
    {
    }

    lemma NotBelow(lower: Event, upper: Event)
      requires RoundsBound(nmt, round) && lower in round && upper in round && round[lower] == Round(nmt, lower)
      requires round[lower] > round[upper]
      ensures lower !in Anc(upper)
      ensures forall sees :: Covered(lower, upper, sees)
    {
      forall y | y in Anc(upper) && lower in Anc(y) ensures false {
        AncTransitive(y, upper);
      }
    }

    lemma SelfCovered(e: Event, before: seq<bool>, sees: seq<bool>)
      requires e.id < |before| && sees == before[e.id := true]
      ensures Covered(e, e, sees) && Gained(e, e, before, sees)
    {
      forall y | y in Anc(e) && e in Anc(y) ensures y == e {
        AncAntisymmetric(y, e);
      }
      assert e.id in Between(e, e);
    }

    lemma GainedNothing(lower: Event, upper: Event, a: seq<bool>)
      ensures Gained(lower, upper, a, a)
    {
    }

    lemma GainedTwice(lower: Event, upper: Event, a: seq<bool>, b: seq<bool>, c: seq<bool>)
      requires Gained(lower, upper, a, b) && Gained(lower, upper, b, c)
      ensures Gained(lower, upper, a, c)
    {
    }

    /** Whether the identities on the paths from `lower` to `upper` number at least `nmt`. */
    method DoesStronglySee(lower: Event, upper: Event) returns (b: bool)
      requires StronglySearchable(lower, upper) && mark == map[] && seen == []
      modifies this`mark, this`seen
      ensures mark == map[] && seen == []
      ensures b == StronglySees(nmt, lower, upper)
    {
      var b0, sees, early := RecStronglySees(lower, upper, AllFalse(n), false, upper);
      ResetSeen();
      if early {
        return true;
      }
      forall i ensures i in Between(lower, upper) <==> 0 <= i < n && sees[i] { }
      TrueCountCard(sees, Between(lower, upper));
      return TrueCount(sees) >= nmt;
    }

    // ----- Rounds and witnesses of a new event -----

    /** Rounds and strongly-seen witnesses are filled and right for exactly the events `S`. */
    ghost predicate StaticOk(S: set<Event>)
      reads this`round, this`stronglySees
    {
      && Dag(n, S) && ForkFree(S) && Quorums(n, nmt)
      && RoundsOk(nmt, S, round)
      && SeesOk(n, nmt, S, stronglySees)
    }

    /** All columns filled when an event is added are right for exactly the events `S`. */
    ghost predicate ColumnsOk(S: set<Event>)
      reads this`round, this`stronglySees, this`allWitnessMap, this`wi
    {
      && StaticOk(S)
      && RowsOk(n, nmt, S, allWitnessMap)
      && forall e :: e in wi <==> e in S && IsWitness(nmt, e)
    }

    /** `ev` is not in `S` and all its direct ancestors are. */
    ghost predicate Next(S: set<Event>, ev: Event) {
      && Dag(n, S) && Quorums(n, nmt)
      && ev !in S && ev.Derived? && WellFormed(n, ev) && forall p :: p in Parents(ev) ==> p in S
    }

    lemma NextAncestors(S: set<Event>, ev: Event)
      requires Next(S, ev)
      ensures Anc(ev) <= S + {ev}
      ensures Dag(n, S + {ev})
    {
      forall a | a in Anc(ev) ensures a in S + {ev} {
        AncCases(a, ev);
        if a != ev {
          var p :| p in Parents(ev) && a in Anc(p);
          DagClosed(n, S, p);
        }
      }
    }

    lemma SeenOfNext(S: set<Event>, ev: Event, r: nat)
      requires Next(S, ev)
      ensures Seen(nmt, ev, r) == set w | w in Witnesses(nmt, S, r) && StronglySees(nmt, w, ev)
    {
      hide Anc, Round, IsWitness, StronglySees;
      NextAncestors(S, ev);
      forall w | w in Witnesses(nmt, S, r) && StronglySees(nmt, w, ev) ensures w in Seen(nmt, ev, r) {
        StronglySeesAncestor(nmt, w, ev);
        assert WitnessOf(nmt, w, r, ev);
      }
      forall w | w in Seen(nmt, ev, r) ensures w in Witnesses(nmt, S, r) {
        assert WitnessOf(nmt, w, r, ev);
      }
    }

    lemma PendingBound(S: set<Event>, ev: Event)
      requires Next(S, ev) && ev in round && round[ev] == BaseRound(nmt, ev) && RoundsOk(nmt, S, round - {ev})
      ensures RoundsBound(nmt, round)
    {
      hide Anc, Round, BaseRound;
      forall x, a | x in round && a in Anc(x) && a != x ensures Round(nmt, a) <= round[x] {
        RoundMonotone(nmt, a, x);
        if x != ev {
          assert x in round - {ev};
        }
      }
    }

    /** The witnesses of round `r` that the new event `ev` strongly sees, by identity. */
    method WitnessesSeen(ev: Event, r: nat, ghost S: set<Event>) returns (v: Slots)
      requires Next(S, ev) && ev in round && round[ev] == BaseRound(nmt, ev) && RoundsOk(nmt, S, round - {ev})
      requires SeesSound(n, nmt, stronglySees) && RowsOk(n, nmt, S, allWitnessMap)
      requires mark == map[] && seen == []
      modifies this`mark, this`seen
      ensures mark == map[] && seen == []
      ensures IsSeenVector(n, nmt, ev, r, v)
      ensures NonNilCount(v) == |Seen(nmt, ev, r)|
    {
      hide Anc, Round, IsWitness, StronglySees, BaseRound, Seen;
      v := NoSlots(n);
      var row := RowAt(n, allWitnessMap, r);
      RowAtOk(n, nmt, S, allWitnessMap, r);
      PendingBound(S, ev);
      NextAncestors(S, ev);
      var i := 0;
      while i < n
        invariant 0 <= i <= n && |v| == n && mark == map[] && seen == []
        invariant forall k :: 0 <= k < i ==> v[k] == SlotFor(row[k], ev)
        invariant forall k :: i <= k < n ==> v[k] == None
      {
        var j := 0;
        while j < |row[i]|
          invariant 0 <= j <= |row[i]| <= 1 && |v| == n && mark == map[] && seen == []
          invariant forall k :: 0 <= k < n && k != i ==> v[k] == if k < i then SlotFor(row[k], ev) else None
          invariant v[i] == if j == 0 then None else SlotFor(row[i], ev)
        {
          var w := row[i][j];
          assert w in Witnesses(nmt, S, r) && w in round - {ev};
          var b := DoesStronglySee(w, ev);
          if b {
            v := v[i := Some(w)];
          }
          j := j + 1;
        }
        i := i + 1;
      }
      SeenVectorFromRow(S, ev, r, row, v);
      NonNilCard(v, Seen(nmt, ev, r));
    }

    ghost function SlotFor(found: seq<Event>, ev: Event): Option<Event>
      requires |found| <= 1
    {
      if found != [] && StronglySees(nmt, found[0], ev) then Some(found[0]) else None
    }

    lemma SeenVectorFromRow(S: set<Event>, ev: Event, r: nat, row: Row, v: Slots)
      requires Next(S, ev) && RowOk(n, nmt, S, r, row) && |v| == n
      requires forall k :: 0 <= k < n ==> v[k] == SlotFor(row[k], ev)
      ensures IsSeenVector(n, nmt, ev, r, v)
    {
      hide Anc, Round, IsWitness, StronglySees, Seen;
      SeenOfNext(S, ev, r);
      forall i | 0 <= i < n && v[i].Some? ensures v[i].value in Seen(nmt, ev, r) && v[i].value.id == i {
        assert row[i][0] in row[i];
      }
      forall w | w in Seen(nmt, ev, r) ensures w.id < n && v[w.id] == Some(w) {
        assert w in row[w.id];
      }
    }

    /** Sets the round of `ev`, whether it is a witness, and the witnesses it strongly sees. */
    method AssignRound(ev: Event, ghost S: set<Event>)
      requires ColumnsOk(S) && Next(S, ev) && mark == map[] && seen == []
      modifies this`mark, this`seen, this`round, this`wi, this`stronglySees
      ensures mark == map[] && seen == []
      ensures round == old(round)[ev := Round(nmt, ev)]
      ensures wi == if IsWitness(nmt, ev) then old(wi)[ev := WitnessInfo(NoVotes(n), Unknown, 0)] else old(wi)
      ensures SeesOk(n, nmt, S + {ev}, stronglySees)
    {
      hide Anc, Round, BaseRound, IsWitness, StronglySees, Seen;
      hide RowsOk, SeesOk, SeesSound, IsSeenVector, Dag, ForkFree, Quorums;
      SeesOkSound(S, stronglySees);
      assert ev.parent in Parents(ev);
      var r := MaxOfRounds(ev, S);
      round := round[ev := r];
      assert round - {ev} == old(round);
      if round[ev.parent] < r {
        wi := wi[ev := WitnessInfo(NoVotes(n), Unknown, 0)];
      }
      var v := WitnessesSeen(ev, r, S);
      PromoteOrKeep(ev, r, v, S, old(wi));
    }

    /** Moves `ev` to the next round when it strongly sees a quorum of its provisional round;
        otherwise a witness looks up the round before. */
    method PromoteOrKeep(ev: Event, r: nat, v0: Slots, ghost S: set<Event>, ghost wi0: map<Event, WitnessInfo>)
      requires Next(S, ev) && ev in round && round[ev] == r == BaseRound(nmt, ev) && RoundsOk(nmt, S, round - {ev})
      requires SeesOk(n, nmt, S, stronglySees) && RowsOk(n, nmt, S, allWitnessMap)
      requires ev !in wi0
      requires wi == if Round(nmt, ev.parent) < r then wi0[ev := WitnessInfo(NoVotes(n), Unknown, 0)] else wi0
      requires IsSeenVector(n, nmt, ev, r, v0) && NonNilCount(v0) == |Seen(nmt, ev, r)|
      requires mark == map[] && seen == []
      modifies this`mark, this`seen, this`round, this`wi, this`stronglySees
      ensures mark == map[] && seen == []
      ensures round == old(round)[ev := Round(nmt, ev)]
      ensures wi == if IsWitness(nmt, ev) then wi0[ev := WitnessInfo(NoVotes(n), Unknown, 0)] else wi0
      ensures SeesOk(n, nmt, S + {ev}, stronglySees)
    {
      hide Anc, Round, BaseRound, IsWitness, StronglySees, Seen, NonNilCount, NoVotes;
      hide RoundsOk, RowsOk, SeesOk, SeesSound, IsSeenVector, Dag, Quorums, WellFormed;
      QuorumIsPositive(S, ev);
      RoundCases(ev);
      SeesOkSound(S, stronglySees);
      SeesSoundUpdate(ev, r, v0, stronglySees);
      var info := WitnessInfo(NoVotes(n), Unknown, 0);
      MapOverwrite(wi0, ev, info, info);
      MapOverwrite(round, ev, r, Round(nmt, ev));
      ghost var before := stronglySees;
      var count := NonNilCount(v0);
      if count > 0 {
        stronglySees := stronglySees[ev := v0];
      }
      if count >= nmt {
        round := round[ev := round[ev] + 1];
        wi := wi[ev := info];
        SeesExtended(S, ev, r, v0, before, true);
      } else if ev in wi {
        LookBack(ev, r, S, before, v0);
        wi := wi[ev := info];
        assert round == old(round)[ev := Round(nmt, ev)];
      } else {
        SeesExtended(S, ev, r, v0, before, count > 0);
      }
    }

    /** A witness that stays in its provisional round records the round before. */
    method LookBack(ev: Event, r: nat, ghost S: set<Event>, ghost before: map<Event, Slots>, ghost v0: Slots)
      requires Next(S, ev) && ev in round && round[ev] == BaseRound(nmt, ev) && RoundsOk(nmt, S, round - {ev})
      requires Round(nmt, ev) == r > 0 && IsWitness(nmt, ev)
      requires SeesOk(n, nmt, S, before) && RowsOk(n, nmt, S, allWitnessMap)
      requires SeesSound(n, nmt, stronglySees)
      requires stronglySees == before || stronglySees == before[ev := v0]
      requires mark == map[] && seen == []
      modifies this`mark, this`seen, this`stronglySees
      ensures mark == map[] && seen == []
      ensures SeesOk(n, nmt, S + {ev}, stronglySees)
    {
      hide Anc, Round, BaseRound, IsWitness, StronglySees, Seen;
      hide RoundsOk, RowsOk, SeesOk, SeesSound, IsSeenVector, Dag, Quorums, WellFormed;
      var v := WitnessesSeen(ev, r - 1, S);
      MapOverwrite(before, ev, v0, v);
      stronglySees := stronglySees[ev := v];
      SeesExtended(S, ev, r - 1, v, before, true);
    }

    lemma RoundCases(ev: Event)
      requires ev.Derived?
      ensures Round(nmt, ev) == if |Seen(nmt, ev, BaseRound(nmt, ev))| >= nmt then BaseRound(nmt, ev) + 1 else BaseRound(nmt, ev)
      ensures Round(nmt, ev.parent) <= BaseRound(nmt, ev)
      ensures IsWitness(nmt, ev) <==> Round(nmt, ev.parent) < Round(nmt, ev)
    {
    }

    lemma QuorumIsPositive(S: set<Event>, ev: Event)
      requires Next(S, ev)
      ensures nmt > 0
    {
    }

    lemma SeesOkSound(S: set<Event>, ss: map<Event, Slots>)
      requires SeesOk(n, nmt, S, ss)
      ensures SeesSound(n, nmt, ss)
    {
    }

    lemma SeesSoundUpdate(ev: Event, r: nat, v: Slots, ss: map<Event, Slots>)
      requires SeesSound(n, nmt, ss) && IsSeenVector(n, nmt, ev, r, v)
      ensures SeesSound(n, nmt, ss[ev := v])
    {
      hide Anc, Round, StronglySees;
    }

    lemma SeesExtended(S: set<Event>, ev: Event, r: nat, v: Slots, before: map<Event, Slots>, stored: bool)
      requires SeesOk(n, nmt, S, before) && IsSeenVector(n, nmt, ev, r, v) && ev !in S && ev.Derived?
      requires if IsWitness(nmt, ev) then stored && Round(nmt, ev) == r + 1 else Round(nmt, ev) == r && (stored <==> Seen(nmt, ev, r) != {})
      ensures SeesOk(n, nmt, S + {ev}, if stored then before[ev := v] else before)
    {
      hide Anc, Round, IsWitness, StronglySees, Seen, IsSeenVector, SeesSound;
      var ss := if stored then before[ev := v] else before;
      SeesSoundUpdate(ev, r, v, before);
      assert ev !in before;
      forall e | e in S + {ev} && e.Derived? ensures SeesRight(n, nmt, e, ss) {
        if e != ev { assert SeesRight(n, nmt, e, before); }
      }
    }

    /** The largest stored round among the direct ancestors of `ev`. */
    method MaxOfRounds(ev: Event, ghost S: set<Event>) returns (r: nat)
      requires Next(S, ev) && RoundsOk(nmt, S, round)
      ensures r == BaseRound(nmt, ev)
    {
      hide Anc, Round;
      assert ev.parent in Parents(ev);
      r := round[ev.parent];
      var rs := ev.remotes;
      var k := |rs|;
      assert rs[k..] == [];
      while k > 0
        invariant 0 <= k <= |rs|
        invariant r == Max(Round(nmt, ev.parent), MaxRound(nmt, rs[k..]))
      {
        k := k - 1;
        assert rs[k] in Parents(ev);
        assert rs[k..][1..] == rs[k + 1..];
        if round[rs[k]] > r {
          r := round[rs[k]];
        }
      }
      assert rs[0..] == rs;
    }

    /** Enters a new witness in the row of its round. */
    method AddWitness(ev: Event, ghost S: set<Event>)
      requires Dag(n, S + {ev}) && ForkFree(S + {ev}) && ev !in S && IsWitness(nmt, ev)
      requires ev in round && round[ev] == Round(nmt, ev) && RowsOk(n, nmt, S, allWitnessMap)
      modifies this`allWitnessMap
      ensures RowsOk(n, nmt, S + {ev}, allWitnessMap)
    {
      hide Anc, Round, IsWitness;
      var r := round[ev];
      if r !in allWitnessMap {
        allWitnessMap := allWitnessMap[r := EmptyRow(n)];
      }
      var row := allWitnessMap[r];
      assert RowOk(n, nmt, S, r, row);
      allWitnessMap := allWitnessMap[r := row[ev.id := row[ev.id] + [ev]]];
      RowExtended(S, ev, r, row);
      forall q | q in allWitnessMap && q != r ensures RowOk(n, nmt, S + {ev}, q, allWitnessMap[q]) {
        assert Witnesses(nmt, S + {ev}, q) == Witnesses(nmt, S, q);
      }
    }

    lemma RowExtended(S: set<Event>, ev: Event, r: nat, row: Row)
      requires Dag(n, S + {ev}) && ForkFree(S + {ev}) && ev !in S && IsWitness(nmt, ev) && Round(nmt, ev) == r
      requires RowOk(n, nmt, S, r, row)
      ensures RowOk(n, nmt, S + {ev}, r, row[ev.id := row[ev.id] + [ev]])
    {
      hide Anc, Round, IsWitness;
      if row[ev.id] != [] {
        var w := row[ev.id][0];
        assert w in row[ev.id];
        WitnessUnique(n, nmt, S + {ev}, w, ev);
      }
      assert Witnesses(nmt, S + {ev}, r) == Witnesses(nmt, S, r) + {ev};
    }

    lemma RowsOfPlainEvent(S: set<Event>, ev: Event, aw: map<nat, Row>)
      requires !IsWitness(nmt, ev) && RowsOk(n, nmt, S, aw)
      ensures RowsOk(n, nmt, S + {ev}, aw)
    {
      forall r | r in aw ensures RowOk(n, nmt, S + {ev}, r, aw[r]) {
        assert Witnesses(nmt, S + {ev}, r) == Witnesses(nmt, S, r);
      }
    }

    /** The row of a round, created empty when there is none. */
    method GetAllWitnesses(r: nat, ghost S: set<Event>) returns (row: Row)
      requires RowsOk(n, nmt, S, allWitnessMap)
      modifies this`allWitnessMap
      ensures RowsOk(n, nmt, S, allWitnessMap)
      ensures RowOk(n, nmt, S, r, row) && |row| == n
    {
      hide Anc, Round, IsWitness;
      if r in allWitnessMap {
        row := allWitnessMap[r];
      } else {
        row := EmptyRow(n);
        allWitnessMap := allWitnessMap[r := row];
      }
    }

    // ----- Deciding a witness -----

    ghost predicate VotesHold(x: Event, r: nat, votes: seq<bool>)
      reads this`events
    {
      |votes| == n && forall w :: w in Witnesses(nmt, events, r) ==> w.id < n && votes[w.id] == Vote(nmt, x, w)
    }

    /** The marks of the outer traversal are on explored events. */
    ghost predicate MarksExplored()
      reads this`mark, this`seen, this`wi, this`events
    {
      MarksListed() && forall m :: m in mark ==> m in events && Explored(n, nmt, events, wi, m)
    }

    /** `x` is an undecided witness, everything below it is decided, and its election may be held. */
    ghost predicate Electable(x: Event)
      reads this`events, this`wi, this`round, this`stronglySees
    {
      && StaticOk(events) && IsWitness(nmt, x)
      && x in wi && x in events && x.Derived? && wi[x].decided == Unknown
      && VotesRight(n, nmt, events, x, wi[x].votes)
      && forall p :: p in Parents(x) ==> AllDecided(wi, p)
    }

    /** Counts the votes on `x` of the witnesses of the round before that `w` strongly sees. */
    method CountVotes(x: Event, w: Event, prevRow: Row, prevVotes: seq<bool>) returns (yes: nat, no: nat)
      requires StaticOk(events) && w in events && w.Derived? && IsWitness(nmt, w)
      requires Round(nmt, w) > 0 && VotesHold(x, Round(nmt, w) - 1, prevVotes)
      requires RowOk(n, nmt, events, Round(nmt, w) - 1, prevRow)
      ensures yes == |For(nmt, x, w, true)| && no == |For(nmt, x, w, false)|
    {
      hide Anc, Round, IsWitness, Seen, Vote, StronglySees, ForkFree, Dag, RowsOk, RoundsOk, StaticOk, For;
      var r := Round(nmt, w) - 1;
      SeenInRow(w, r, prevRow);
      var slots := stronglySees[w];
      yes, no := 0, 0;
      var j := 0;
      while j < n
        invariant 0 <= j <= n == |slots|
        invariant yes == Tally(slots[..j], prevVotes, true) && no == Tally(slots[..j], prevVotes, false)
      {
        assert slots[..j + 1][..j] == slots[..j];
        if prevRow[j] != [] {
          if slots[j] != None {
            if prevVotes[j] { yes := yes + 1; } else { no := no + 1; }
          }
        }
        j := j + 1;
      }
      assert slots[..n] == slots;
      TallyIsFor(x, w, slots, prevVotes, true);
      TallyIsFor(x, w, slots, prevVotes, false);
    }

    lemma SeenInRow(w: Event, r: nat, row: Row)
      requires StaticOk(events) && w in events && w.Derived? && IsWitness(nmt, w) && Round(nmt, w) == r + 1
      requires RowOk(n, nmt, events, r, row)
      ensures w in stronglySees && IsSeenVector(n, nmt, w, r, stronglySees[w]) && Dag(n, events)
      ensures forall j :: 0 <= j < n && stronglySees[w][j].Some? ==> row[j] != []
    {
      hide Anc, Round, IsWitness, Seen, StronglySees, StaticOk, Dag;
      SeesOfWitness(w, r);
      SeenAreWitnesses(n, nmt, events, w, r);
      forall j | 0 <= j < n && stronglySees[w][j].Some? ensures row[j] != [] {
        assert stronglySees[w][j].value in row[j];
      }
    }

    lemma SeesOfWitness(w: Event, r: nat)
      requires StaticOk(events) && w in events && w.Derived? && IsWitness(nmt, w) && Round(nmt, w) == r + 1
      ensures w in stronglySees && IsSeenVector(n, nmt, w, r, stronglySees[w]) && Dag(n, events)
    {
      hide Anc, Round, IsWitness, Seen, StronglySees, IsSeenVector, SeesSound, Dag, ForkFree, RoundsOk;
      assert SeesRight(n, nmt, w, stronglySees);
    }

    lemma TallyIsFor(x: Event, w: Event, slots: Slots, prevVotes: seq<bool>, b: bool)
      requires Dag(n, events) && w in events && Round(nmt, w) > 0
      requires IsSeenVector(n, nmt, w, Round(nmt, w) - 1, slots) && VotesHold(x, Round(nmt, w) - 1, prevVotes)
      ensures Tally(slots, prevVotes, b) == |For(nmt, x, w, b)|
    {
      hide Anc, Round, Seen, Vote;
      var r := Round(nmt, w) - 1;
      SeenAreWitnesses(n, nmt, events, w, r);
      forall v | v in Seen(nmt, w, r) ensures v in For(nmt, x, w, b) <==> prevVotes[v.id] == b {
        SeenBelow(w, r, v);
        assert VoteBelow(nmt, x, v, w) == Vote(nmt, x, v);
      }
      forall v | v in For(nmt, x, w, b) ensures v in Seen(nmt, w, r) { }
      TallyCard(slots, prevVotes, b, For(nmt, x, w, b));
    }

    lemma SeenBelow(w: Event, r: nat, v: Event)
      requires v in Seen(nmt, w, r)
      ensures v in Anc(w) && v != w
    {
    }

    /** `w` settled the election of `x`, and that is what changed in the recorded verdicts. */
    ghost predicate SettledBy(x: Event, r: nat, before: Infos, w: Event)
      reads this`events, this`wi
    {
      && x in before && w in events && Round(nmt, w) == r
      && exists b :: Decides(nmt, x, w, b) && wi == before[x := before[x].(decided := if b then Yes else No, decidedRound := r)]
    }

    /** The vote of one witness `w` on `x`; when its count is a quorum, records the verdict. */
    method JudgeWitness(x: Event, w: Event, r: nat, prevRow: Row, prevVotes: seq<bool>) returns (vote: bool, done: bool)
      requires Electable(x) && r >= Round(nmt, x) + 2 && VotesHold(x, r - 1, prevVotes)
      requires w in Witnesses(nmt, events, r) && RowOk(n, nmt, events, r - 1, prevRow)
      modifies this`wi
      ensures !done ==> wi == old(wi) && Electable(x) && vote == Vote(nmt, x, w) && Undecisive(x, w)
      ensures done ==> SettledBy(x, r, old(wi), w)
    {
      hide Anc, Round, IsWitness, Seen, Vote, StronglySees, ForkFree, Dag, SeesOk, AllDecided, VotesRight, RoundsOk;
      hide Decides, RowOk, RowsOk;
      WitnessFacts(w, r);
      var yes, no := CountVotes(x, w, prevRow, prevVotes);
      TallyFacts(x, w, yes, no);
      vote, done := false, false;
      if yes + no >= nmt {
        vote := yes >= no;
        if yes >= nmt {
          wi := wi[x := wi[x].(decidedRound := round[w], decided := Yes)];
          return vote, true;
        }
        if no >= nmt {
          wi := wi[x := wi[x].(decidedRound := round[w], decided := No)];
          return vote, true;
        }
      }
    }

    /** Holds the election of `x` in round `r`; when a witness settles it, records the verdict. */
    method TallyRow(x: Event, r: nat, prevVotes: seq<bool>) returns (done: bool, votes: seq<bool>, count: nat)
      requires Electable(x) && r >= Round(nmt, x) + 2 && VotesHold(x, r - 1, prevVotes)
      requires RowsOk(n, nmt, events, allWitnessMap)
      modifies this`wi, this`allWitnessMap
      ensures RowsOk(n, nmt, events, allWitnessMap)
      ensures !done ==> wi == old(wi) && VotesHold(x, r, votes) && count == |Witnesses(nmt, events, r)|
      ensures !done ==> forall w, b :: w in Witnesses(nmt, events, r) ==> !Decides(nmt, x, w, b)
      ensures done ==> exists w :: SettledBy(x, r, old(wi), w)
    {
      hide *;
      JudgedNone(x, r);
      votes := AllFalse(n);
      count := 0;
      var row := GetAllWitnesses(r, events);
      var prevRow := GetAllWitnesses(r - 1, events);
      RowCount(x, r, row);
      CountNone(row);
      var i := 0;
      while i < n
        invariant 0 <= i <= n && |votes| == n == |row|
        invariant count == WitnessCount(row[..i])
        invariant wi == old(wi) && Electable(x) && RowsOk(n, nmt, events, allWitnessMap)
        invariant Judged(x, r, votes, i)
      {
        CountStep(row, i);
        RowHead(r, row, i);
        ghost var votes0 := votes;
        if |row[i]| > 0 {
          count := count + 1;
          var vote;
          vote, done := JudgeWitness(x, row[i][0], r, prevRow, prevVotes);
          if done { return; }
          votes := votes[i := vote];
        }
        JudgedStep(x, r, row, votes0, votes, i);
        i := i + 1;
      }
      assert row[..n] == row;
      JudgedAll(x, r, votes);
      done := false;
    }

    lemma RowCount(x: Event, r: nat, row: Row)
      requires Electable(x) && RowOk(n, nmt, events, r, row)
      ensures WitnessCount(row) == |Witnesses(nmt, events, r)|
    {
      WitnessCountCard(n, nmt, events, r, row);
    }

    lemma RowHead(r: nat, row: Row, i: nat)
      requires RowOk(n, nmt, events, r, row) && i < n
      ensures row[i] != [] ==> row[i][0] in Witnesses(nmt, events, r)
    {
      if row[i] != [] { assert row[i][0] in row[i]; }
    }

    /** The witnesses of round `r` with identity below `i` have voted and none settles the election. */
    ghost predicate Judged(x: Event, r: nat, votes: seq<bool>, i: nat)
      reads this`events
    {
      |votes| == n && forall w :: w in Witnesses(nmt, events, r) && w.id < i ==> w.id < n && votes[w.id] == Vote(nmt, x, w) && Undecisive(x, w)
    }

    ghost predicate Undecisive(x: Event, w: Event) {
      forall b :: !Decides(nmt, x, w, b)
    }

    lemma JudgedNone(x: Event, r: nat)
      ensures Judged(x, r, AllFalse(n), 0)
    {
    }

    lemma JudgedStep(x: Event, r: nat, row: Row, votes0: seq<bool>, votes: seq<bool>, i: nat)
      requires RowOk(n, nmt, events, r, row) && Judged(x, r, votes0, i) && i < n
      requires if row[i] == [] then votes == votes0
        else votes == votes0[i := Vote(nmt, x, row[i][0])] && Undecisive(x, row[i][0])
      ensures Judged(x, r, votes, i + 1)
    {
      hide Vote, Undecisive, Witnesses;
      forall w | w in Witnesses(nmt, events, r) && w.id == i ensures row[i] == [w] {
        assert w in row[i];
      }
    }

    lemma JudgedAll(x: Event, r: nat, votes: seq<bool>)
      requires Judged(x, r, votes, n) && Electable(x)
      ensures VotesHold(x, r, votes)
      ensures forall w, b :: w in Witnesses(nmt, events, r) ==> !Decides(nmt, x, w, b)
    {
      hide Vote, Decides;
      forall w, b | w in Witnesses(nmt, events, r) ensures !Decides(nmt, x, w, b) {
        assert Undecisive(x, w);
      }
    }

    lemma WitnessFacts(w: Event, r: nat)
      requires StaticOk(events) && w in Witnesses(nmt, events, r) && r > 0
      ensures w in events && w.Derived? && IsWitness(nmt, w) && Round(nmt, w) == r && w in round && round[w] == r
    {
    }

    lemma TallyFacts(x: Event, w: Event, yes: nat, no: nat)
      requires StaticOk(events) && w in events && IsWitness(nmt, w) && Round(nmt, w) >= Round(nmt, x) + 2
      requires yes == |For(nmt, x, w, true)| && no == |For(nmt, x, w, false)|
      ensures nmt <= yes + no <= n
      ensures Vote(nmt, x, w) == (yes >= no)
      ensures Decides(nmt, x, w, true) <==> yes >= nmt
      ensures Decides(nmt, x, w, false) <==> no >= nmt
    {
      hide Anc, Round, Seen, IsWitness, ForkFree, Dag, RowsOk, SeesOk, RoundsOk;
      var r := Round(nmt, w) - 1;
      ForSplits(nmt, x, w);
      SeenAreWitnesses(n, nmt, events, w, r);
      WitnessesAtMostN(n, nmt, events, r);
      SubsetCard(Seen(nmt, w, r), Witnesses(nmt, events, r));
    }

    /** The vote on `x` of witness `w` of the next round, recorded or found by a search. */
    method VoteOf(x: Event, w: Event) returns (vote: bool)
      requires Electable(x) && MarksExplored()
      requires w in Witnesses(nmt, events, Round(nmt, x) + 1) && |Witnesses(nmt, events, Round(nmt, x) + 1)| >= nmt
      modifies this`wi, this`mark, this`seen
      ensures Electable(x) && MarksExplored()
      ensures vote == (x in Anc(w)) && w.id < n
      ensures wi == old(wi)[x := old(wi)[x].(votes := old(wi)[x].votes[w.id := [vote]])]
      ensures (mark == old(mark) && seen == old(seen)) || (mark == map[] && seen == [])
    {
      hide *;
      VoteFacts(x, w);
      if |wi[x].votes[w.id]| > 0 {
        RecordedVote(n, nmt, events, x, wi[x].votes, w);
        vote := wi[x].votes[w.id][0];
        AlreadyRecorded(wi, x, w.id, vote);
      } else {
        vote := SearchVote(x, w);
      }
    }

    lemma AlreadyRecorded(infos: Infos, x: Event, i: nat, vote: bool)
      requires x in infos && i < |infos[x].votes| && infos[x].votes[i] == [vote]
      ensures infos == infos[x := infos[x].(votes := infos[x].votes[i := [vote]])]
    {
      assert infos[x].votes[i := [vote]] == infos[x].votes;
      MapSame(infos, x);
    }

    method SearchVote(x: Event, w: Event) returns (vote: bool)
      requires Electable(x) && MarksExplored() && Dag(n, events) && ForkFree(events) && Searchable(x, w)
      requires w in Witnesses(nmt, events, Round(nmt, x) + 1) && |Witnesses(nmt, events, Round(nmt, x) + 1)| >= nmt
      requires w.id < n && |wi[x].votes| == n && |wi[x].votes[w.id]| == 0
      modifies this`wi, this`mark, this`seen
      ensures Electable(x) && MarksExplored()
      ensures vote == (x in Anc(w))
      ensures wi == old(wi)[x := old(wi)[x].(votes := old(wi)[x].votes[w.id := [vote]])]
      ensures mark == map[] && seen == []
    {
      hide Anc, Round, IsWitness, Explored, Tried, SeesOk, RoundsOk, AllDecided, VotesRight, StaticOk, Witnesses, Searchable, Dag, ForkFree;
      NotTried(n, nmt, events, x, wi[x].votes, w);
      forall m | m in mark ensures x !in Anc(m) {
        NoMarkAbove(n, nmt, events, wi, x, m);
      }
      vote := HasPath(x, w);
      var votes := wi[x].votes[w.id := [vote]];
      VotesRightStep(n, nmt, events, x, wi[x].votes, w);
      forall p | p in Parents(x) ensures AllDecided(wi[x := wi[x].(votes := votes)], p) {
        VotesOnly(wi, x, votes, p);
      }
      wi := wi[x := wi[x].(votes := votes)];
    }

    lemma VoteFacts(x: Event, w: Event)
      requires Electable(x) && w in Witnesses(nmt, events, Round(nmt, x) + 1)
      ensures w.id < n && |wi[x].votes| == n && |wi[x].votes[w.id]| <= 1 && Searchable(x, w) && Dag(n, events) && ForkFree(events)
      ensures x in wi && VotesRight(n, nmt, events, x, wi[x].votes)
    {
      hide Anc, Round, IsWitness, SeesOk, AllDecided;
    }

    /** Collects the votes on `x` of the next round, unless it has too few witnesses. */
    method CollectVotes(x: Event) returns (enough: bool, votes: seq<bool>)
      requires Electable(x) && MarksExplored() && RowsOk(n, nmt, events, allWitnessMap)
      modifies this`wi, this`allWitnessMap, this`mark, this`seen
      ensures Electable(x) && MarksExplored() && RowsOk(n, nmt, events, allWitnessMap)
      ensures OnlyVotes(x, old(wi), wi) && Tried(n, nmt, events, x, wi[x].votes)
      ensures (mark == old(mark) && seen == old(seen)) || (mark == map[] && seen == [])
      ensures enough <==> |Witnesses(nmt, events, Round(nmt, x) + 1)| >= nmt
      ensures enough ==> VotesHold(x, Round(nmt, x) + 1, votes)
    {
      hide *;
      RoundOf(x);
      var r := round[x] + 1;
      var row := GetAllWitnesses(r, events);
      votes := AllFalse(n);
      RowCount(x, r, row);
      OnlyVotesNone(x, wi);
      if WitnessCount(row) < nmt {
        TooFew(x);
        return false, votes;
      }
      enough := true;
      CollectedNone(x, votes);
      var i := 0;
      while i < n
        invariant 0 <= i <= n == |row| == |votes|
        invariant Electable(x) && MarksExplored() && RowsOk(n, nmt, events, allWitnessMap)
        invariant OnlyVotes(x, old(wi), wi)
        invariant (mark == old(mark) && seen == old(seen)) || (mark == map[] && seen == [])
        invariant Collected(x, wi, votes, i)
      {
        RowHead(r, row, i);
        CollectedSize(x, votes, i);
        ghost var wi0, votes0 := wi, votes;
        if |row[i]| > 0 {
          var vote := VoteOf(x, row[i][0]);
          if vote {
            votes := votes[i := true];
          }
          OnlyVotesStep(x, old(wi), wi0, wi, row[i][0].id, vote);
          CollectedStep(x, wi0, wi, row, votes0, i, vote);
        } else {
          CollectedSkip(x, wi, row, votes, i);
        }
        i := i + 1;
      }
      CollectedAll(x, votes);
    }

    lemma RoundOf(x: Event)
      requires Electable(x)
      ensures x in round && round[x] == Round(nmt, x)
    {
    }

    lemma ElectableVotes(x: Event)
      requires Electable(x)
      ensures x in wi && VotesRight(n, nmt, events, x, wi[x].votes)
    {
    }

    ghost predicate OnlyVotes(x: Event, a: Infos, b: Infos) {
      x in a && x in b && b == a[x := a[x].(votes := b[x].votes)]
    }

    lemma OnlyVotesNone(x: Event, a: Infos)
      requires Electable(x) && a == wi
      ensures OnlyVotes(x, a, a)
    {
    }

    lemma OnlyVotesStep(x: Event, a: Infos, b: Infos, c: Infos, i: nat, vote: bool)
      requires OnlyVotes(x, a, b) && x in b && i < |b[x].votes|
      requires c == b[x := b[x].(votes := b[x].votes[i := [vote]])]
      ensures OnlyVotes(x, a, c)
    {
      MapOverwrite(a, x, b[x], c[x]);
    }

    lemma TooFew(x: Event)
      requires Electable(x) && |Witnesses(nmt, events, Round(nmt, x) + 1)| < nmt
      ensures Tried(n, nmt, events, x, wi[x].votes)
    {
    }

    /** The witnesses of the round after `x` with identity below `i` have voted on `x`. */
    ghost predicate Collected(x: Event, infos: Infos, votes: seq<bool>, i: nat)
      reads this`events
    {
      && x in infos && |infos[x].votes| == n == |votes|
      && (forall w :: w in Witnesses(nmt, events, Round(nmt, x) + 1) && w.id < i ==>
            w.id < n && |infos[x].votes[w.id]| == 1 && votes[w.id] == (x in Anc(w)))
      && forall k :: i <= k < n ==> !votes[k]
    }

    lemma CollectedNone(x: Event, votes: seq<bool>)
      requires Electable(x) && votes == AllFalse(n)
      ensures Collected(x, wi, votes, 0)
    {
      hide Anc, Round, IsWitness, StaticOk, AllDecided;
    }

    lemma CollectedSize(x: Event, votes: seq<bool>, i: nat)
      requires Collected(x, wi, votes, i)
      ensures x in wi && |wi[x].votes| == n
    {
    }

    lemma RowSlot(r: nat, row: Row, i: nat)
      requires RowOk(n, nmt, events, r, row) && i < n
      ensures row[i] != [] ==> row[i][0].id == i
      ensures forall w :: w in Witnesses(nmt, events, r) && w.id == i ==> row[i] == [w]
    {
      hide Round, IsWitness, Witnesses;
      if row[i] != [] { assert row[i][0] in row[i]; }
      forall w | w in Witnesses(nmt, events, r) && w.id == i ensures row[i] == [w] {
        assert w in row[i];
      }
    }

    lemma CollectedSkip(x: Event, infos: Infos, row: Row, votes: seq<bool>, i: nat)
      requires Collected(x, infos, votes, i) && i < n && RowOk(n, nmt, events, Round(nmt, x) + 1, row) && row[i] == []
      ensures Collected(x, infos, votes, i + 1)
    {
      hide Anc, Round, Witnesses, RowOk;
      RowSlot(Round(nmt, x) + 1, row, i);
    }

    lemma CollectedStep(x: Event, a: Infos, b: Infos, row: Row, votes: seq<bool>, i: nat, vote: bool)
      requires RowOk(n, nmt, events, Round(nmt, x) + 1, row) && i < n && row[i] != []
      requires Collected(x, a, votes, i) && vote == (x in Anc(row[i][0])) && row[i][0].id < n
      requires b == a[x := a[x].(votes := a[x].votes[row[i][0].id := [vote]])]
      ensures Collected(x, b, if vote then votes[i := true] else votes, i + 1)
    {
      hide Anc, Round, Witnesses, RowOk;
      RowSlot(Round(nmt, x) + 1, row, i);
    }

    lemma CollectedAll(x: Event, votes: seq<bool>)
      requires Collected(x, wi, votes, n) && Electable(x)
      ensures VotesHold(x, Round(nmt, x) + 1, votes) && Tried(n, nmt, events, x, wi[x].votes)
    {
      hide Anc, Round, IsWitness, StaticOk, AllDecided, VotesRight, Vote;
      forall w | w in Witnesses(nmt, events, Round(nmt, x) + 1) ensures w.id < n && votes[w.id] == Vote(nmt, x, w) {
        InRange(w);
        FirstVote(x, w);
      }
    }

    lemma InRange(w: Event)
      requires StaticOk(events) && w in events
      ensures w.id < n
    {
      hide Anc, Round, IsWitness, RowsOk, SeesOk, RoundsOk, ForkFree;
    }

    lemma FirstVote(x: Event, w: Event)
      requires Round(nmt, w) == Round(nmt, x) + 1
      ensures Vote(nmt, x, w) == (x in Anc(w))
    {
      hide Anc, Round, For;
    }

    ghost predicate NoDeciderBelow(x: Event, r: nat)
      reads this`events
    {
      forall w, b :: w in events && Round(nmt, w) < r ==> !Decides(nmt, x, w, b)
    }

    lemma NoDeciderStart(x: Event, r: nat)
      requires r == Round(nmt, x) + 2
      ensures NoDeciderBelow(x, r)
    {
    }

    lemma NoDeciderStep(x: Event, r: nat)
      requires NoDeciderBelow(x, r)
      requires forall w, b :: w in Witnesses(nmt, events, r) ==> !Decides(nmt, x, w, b)
      ensures NoDeciderBelow(x, r + 1)
    {
      hide Anc, Round, IsWitness, For;
      forall w, b | w in events && Round(nmt, w) < r + 1 ensures !Decides(nmt, x, w, b) {
        if Round(nmt, w) == r && IsWitness(nmt, w) {
          assert w in Witnesses(nmt, events, r);
        }
      }
    }

    /** With too few witnesses in round `r` there are no later rounds, so nobody settles `x`. */
    lemma NoLaterRounds(x: Event, r: nat)
      requires Electable(x) && NoDeciderBelow(x, r + 1) && |Witnesses(nmt, events, r)| < nmt
      ensures Fails(nmt, events, x)
    {
      hide Anc, Round, IsWitness, Decides, Witnesses;
      forall w, b | w in events ensures !Decides(nmt, x, w, b) {
        if Round(nmt, w) > r {
          RoundsBelowAreFull(n, nmt, events, w, r);
        }
      }
    }

    static lemma {:induction false} RoundBound(nmt: nat, S: set<Event>) returns (m: nat)
      ensures forall e :: e in S ==> Round(nmt, e) <= m
    {
      if S == {} {
        m := 0;
      } else {
        var e :| e in S;
        var k := RoundBound(nmt, S - {e});
        m := Max(k, Round(nmt, e));
      }
    }

    lemma RowWithinBound(x: Event, r: nat, m: nat)
      requires Electable(x) && |Witnesses(nmt, events, r)| >= nmt && forall e :: e in events ==> Round(nmt, e) <= m
      ensures r <= m
    {
      hide Anc, Round, IsWitness;
      var w :| w in Witnesses(nmt, events, r);
    }

    method ComputeDecided(x: Event)
      requires Electable(x) && MarksExplored() && RowsOk(n, nmt, events, allWitnessMap)
      modifies this`wi, this`allWitnessMap, this`mark, this`seen
      ensures RowsOk(n, nmt, events, allWitnessMap)
      ensures (mark == old(mark) && seen == old(seen)) || (mark == map[] && seen == [])
      ensures Held(n, nmt, events, old(wi), wi, x)
      ensures x in wi && (wi[x].decided != Unknown ==> NoDeciderBelow(x, wi[x].decidedRound))
    {
      hide *;
      RoundOf(x);
      var enough, prevVotes := CollectVotes(x);
      NoDeciderStart(x, round[x] + 2);
      if !enough {
        NoLaterRounds(x, round[x] + 1);
        HeldInVain(x, old(wi));
        return;
      }
      ghost var m := RoundBound(nmt, events);
      ElectableVotes(x);
      ghost var wi1, mark1, seen1 := wi, mark, seen;
      var r := round[x] + 2;
      while true
        invariant r >= Round(nmt, x) + 2
        invariant Electable(x) && RowsOk(n, nmt, events, allWitnessMap)
        invariant wi == wi1 && OnlyVotes(x, old(wi), wi) && x in wi && mark == mark1 && seen == seen1
        invariant VotesRight(n, nmt, events, x, wi[x].votes) && Tried(n, nmt, events, x, wi[x].votes)
        invariant VotesHold(x, r - 1, prevVotes) && NoDeciderBelow(x, r)
        decreases m + 2 - r
      {
        var done, votes, count := TallyRow(x, r, prevVotes);
        if done {
          ghost var w :| SettledBy(x, r, wi1, w);
          HeldAndSettled(x, old(wi), wi1, r, w);
          return;
        }
        NoDeciderStep(x, r);
        if count < nmt {
          NoLaterRounds(x, r);
          HeldInVain(x, old(wi));
          return;
        }
        RowWithinBound(x, r, m);
        prevVotes := votes;
        r := r + 1;
      }
    }

    lemma HeldInVain(x: Event, before: Infos)
      requires Electable(x) && OnlyVotes(x, before, wi) && Tried(n, nmt, events, x, wi[x].votes) && Fails(nmt, events, x)
      ensures Held(n, nmt, events, before, wi, x) && x in wi && wi[x].decided == Unknown
    {
      hide Tried, Fails, VotesRight, StaticOk, AllDecided, IsWitness;
    }

    lemma HeldAndSettled(x: Event, before: Infos, mid: Infos, r: nat, w: Event)
      requires OnlyVotes(x, before, mid) && SettledBy(x, r, mid, w) && x in mid
      requires VotesRight(n, nmt, events, x, mid[x].votes) && Tried(n, nmt, events, x, mid[x].votes)
      ensures Held(n, nmt, events, before, wi, x) && x in wi && wi[x].decidedRound == r
    {
      hide Tried, VotesRight, Decides, Round;
      MapOverwrite(before, x, mid[x], wi[x]);
    }

    // ----- Deciding everything below an event -----

    /** The state that every step of the traversal keeps. */
    ghost predicate Traversal()
      reads this`events, this`wi, this`round, this`stronglySees, this`allWitnessMap, this`allAncestorsDecided, this`mark, this`seen
    {
      && ColumnsOk(events)
      && Settling(events, wi, allAncestorsDecided, mark, seen)
    }

    ghost predicate Settling(S: set<Event>, infos: Infos, cleared: set<Event>, marks: map<Event, bool>, listed: seq<Event>) {
      && VerdictsOk(n, nmt, S, infos, cleared)
      && (forall m :: m in marks ==> m in listed)
      && forall m :: m in marks ==> m in S && Explored(n, nmt, S, infos, m) && marks[m] == AllDecided(infos, m)
    }

    /** Tries to decide the witnesses below `e`, oldest first, and `e`.  The answer is whether
        all are decided. */
    method RecCheckDecided(e: Event, changed0: bool) returns (ret: bool, changed: bool)
      requires Traversal() && e in events
      modifies this`wi, this`allWitnessMap, this`allAncestorsDecided, this`mark, this`seen
      ensures Traversal()
      ensures Advances(n, nmt, events, old(wi), wi) && ChangedBelow(old(wi), wi, e)
      ensures ret == AllDecided(wi, e) && Explored(n, nmt, events, wi, e)
      ensures changed0 ==> changed
      ensures !changed ==> SameVerdicts(old(wi), wi)
      decreases e, 2
    {
      hide *;
      changed := changed0;
      Unchanged(wi, e);
      if e in allAncestorsDecided {
        ClearedIsDecided(e);
        return true, changed;
      }
      if e in mark {
        MarkAnswers(e);
        return mark[e], changed;
      }
      if e in wi && wi[e].decided != Unknown {
        DecidedIsSettled(e);
        SetMark(e, true);
        return true, changed;
      }
      var all;
      all, changed := CheckAncestors(e, changed);
      StrictIsBelow(old(wi), wi, e);
      if !all {
        NotAllBelow(e);
        SetMark(e, false);
        return false, changed;
      }
      if e !in wi {
        PlainIsSettled(e);
        Clear(e);
        SetMark(e, true);
        return true, changed;
      }
      StillUndecided(old(wi), wi, e);
      ret, changed := TryDecide(e, changed, old(wi));
    }

    /** Visits every direct ancestor of `e`, the local one first. */
    method CheckAncestors(e: Event, changed0: bool) returns (all: bool, changed: bool)
      requires Traversal() && e in events
      modifies this`wi, this`allWitnessMap, this`allAncestorsDecided, this`mark, this`seen
      ensures Traversal()
      ensures Advances(n, nmt, events, old(wi), wi) && ChangedStrictlyBelow(old(wi), wi, e)
      ensures all <==> forall p :: p in Parents(e) ==> AllDecided(wi, p)
      ensures forall p :: p in Parents(e) ==> Explored(n, nmt, events, wi, p)
      ensures changed0 ==> changed
      ensures !changed ==> SameVerdicts(old(wi), wi)
      decreases e, 1
    {
      hide *;
      all, changed := true, changed0;
      Unchanged(wi, e);
      var ps := Parents(e);
      var k := 0;
      while k < |ps|
        invariant 0 <= k <= |ps| && ps == Parents(e)
        invariant Traversal()
        invariant Advances(n, nmt, events, old(wi), wi) && ChangedStrictlyBelow(old(wi), wi, e)
        invariant all <==> forall p :: p in ps[..k] ==> AllDecided(wi, p)
        invariant forall p :: p in ps[..k] ==> Explored(n, nmt, events, wi, p)
        invariant changed0 ==> changed
        invariant !changed ==> SameVerdicts(old(wi), wi)
      {
        ghost var wi0 := wi;
        ParentInGraph(e, ps[k]);
        var b;
        b, changed := RecCheckDecided(ps[k], changed);
        all := all && b;
        AdvancesTwice(n, nmt, events, old(wi), wi0, wi);
        StrictlyBelowStep(old(wi), wi0, wi, ps[k], e);
        if !changed { SameVerdictsTwice(old(wi), wi0, wi); }
        forall q | q in ps[..k]
          ensures Explored(n, nmt, events, wi, q) && (AllDecided(wi0, q) <==> AllDecided(wi, q))
        {
          ExploredStays(n, nmt, events, wi0, wi, q);
        }
        assert ps[..k + 1] == ps[..k] + [ps[k]];
        k := k + 1;
      }
      assert ps[..k] == ps;
    }

    /** Holds the election of `e` when everything below it is decided. */
    method TryDecide(e: Event, changed0: bool, ghost wi0: Infos) returns (ret: bool, changed: bool)
      requires Traversal() && e in events && e in wi && wi[e].decided == Unknown
      requires forall p :: p in Parents(e) ==> AllDecided(wi, p)
      requires Advances(n, nmt, events, wi0, wi) && ChangedStrictlyBelow(wi0, wi, e)
      requires !changed0 ==> SameVerdicts(wi0, wi)
      modifies this`wi, this`allWitnessMap, this`allAncestorsDecided, this`mark, this`seen
      ensures Traversal()
      ensures Advances(n, nmt, events, wi0, wi) && ChangedBelow(wi0, wi, e)
      ensures ret == AllDecided(wi, e) && Explored(n, nmt, events, wi, e)
      ensures changed0 ==> changed
      ensures !changed ==> SameVerdicts(wi0, wi)
    {
      hide *;
      changed := changed0;
      CanBeElected(e);
      BeforeElection(e);
      ghost var wi1, mark1, seen1 := wi, mark, seen;
      ComputeDecided(e);
      HeldKeys(e, wi1);
      HeldAdvances(n, nmt, events, wi1, wi, e);
      HeldExplored(n, nmt, events, wi1, wi, e);
      AdvancesTwice(n, nmt, events, wi0, wi1, wi);
      BelowFromStrict(wi0, wi1, wi, e);
      AfterElection(e, wi1, mark1, seen1);
      ret := wi[e].decided != Unknown;
      if ret {
        Clear(e);
        changed := true;
      } else if !changed {
        SameWhenUndecided(e, wi0, wi1);
      }
      SetMark(e, ret);
    }

    /** The answer for `e` is remembered until the marks are wiped. */
    method SetMark(e: Event, b: bool)
      requires Traversal() && e in events && b == AllDecided(wi, e) && Explored(n, nmt, events, wi, e)
      modifies this`mark, this`seen
      ensures Traversal()
    {
      hide ColumnsOk, VerdictsOk, Explored, AllDecided;
      mark := mark[e := b];
      seen := seen + [e];
    }

    /** Notes that everything below `e`, with `e`, is decided. */
    method Clear(e: Event)
      requires Traversal() && e in events && AllDecided(wi, e)
      modifies this`allAncestorsDecided
      ensures Traversal()
    {
      hide ColumnsOk, VerdictOk, Explored, AllDecided;
      allAncestorsDecided := allAncestorsDecided + {e};
    }

    lemma Unchanged(a: Infos, e: Event)
      ensures Advances(n, nmt, events, a, a) && ChangedBelow(a, a, e) && ChangedStrictlyBelow(a, a, e) && SameVerdicts(a, a)
    {
    }

    lemma ClearedIsDecided(e: Event)
      requires Traversal() && e in allAncestorsDecided
      ensures AllDecided(wi, e) && Explored(n, nmt, events, wi, e)
    {
      hide ColumnsOk, VerdictOk, Anc;
    }

    lemma MarkAnswers(e: Event)
      requires Traversal() && e in mark
      ensures mark[e] == AllDecided(wi, e) && Explored(n, nmt, events, wi, e)
    {
      hide ColumnsOk, VerdictOk, Anc, AllDecided, Explored;
    }

    lemma DecidedIsSettled(e: Event)
      requires Traversal() && e in wi && wi[e].decided != Unknown
      ensures AllDecided(wi, e) && Explored(n, nmt, events, wi, e)
    {
      hide ColumnsOk;
      assert VerdictOk(n, nmt, events, wi, e);
    }

    lemma StrictIsBelow(a: Infos, b: Infos, e: Event)
      requires ChangedStrictlyBelow(a, b, e)
      ensures ChangedBelow(a, b, e)
    {
      hide Anc;
    }

    lemma NotAllBelow(e: Event)
      requires forall p :: p in Parents(e) ==> Explored(n, nmt, events, wi, p)
      requires !forall p :: p in Parents(e) ==> AllDecided(wi, p)
      ensures !AllDecided(wi, e) && Explored(n, nmt, events, wi, e)
    {
      hide *;
      var p :| p in Parents(e) && !AllDecided(wi, p);
      StuckAbove(n, nmt, events, wi, e, p);
      UndecidedAbove(wi, e, p);
      ExploredParents(n, nmt, events, wi, e);
    }

    lemma PlainIsSettled(e: Event)
      requires forall p :: p in Parents(e) ==> AllDecided(wi, p)
      requires e !in wi
      ensures AllDecided(wi, e) && Explored(n, nmt, events, wi, e)
    {
      hide *;
      AllDecidedParents(wi, e);
      ExploredWhenDecided(n, nmt, events, wi, e);
    }

    lemma StillUndecided(a: Infos, b: Infos, e: Event)
      requires ChangedStrictlyBelow(a, b, e) && e in b && !(e in a && a[e].decided != Unknown)
      ensures b[e].decided == Unknown
    {
      hide Anc;
    }

    lemma ParentInGraph(e: Event, p: Event)
      requires Traversal() && e in events && p in Parents(e)
      ensures p in events && p < e
    {
      hide Anc, Round, IsWitness, RowsOk, SeesOk, RoundsOk, ForkFree, Settling, Quorums;
    }

    lemma CanBeElected(e: Event)
      requires Traversal() && e in events && e in wi && wi[e].decided == Unknown
      requires forall p :: p in Parents(e) ==> AllDecided(wi, p)
      ensures Electable(e) && MarksExplored() && RowsOk(n, nmt, events, allWitnessMap)
    {
      hide Anc, AllDecided, Explored, VotesRight, SeesOk, RoundsOk, RowsOk, Decides, Dag, ForkFree;
      assert VerdictOk(n, nmt, events, wi, e);
    }

    lemma BeforeElection(e: Event)
      requires Traversal() && e in wi && wi[e].decided == Unknown
      ensures StaticOk(events) && e.Derived?
      ensures forall x :: x in wi <==> x in events && IsWitness(nmt, x)
      ensures Settling(events, wi, allAncestorsDecided, mark, seen)
    {
      hide StaticOk, RowsOk, IsWitness, Explored, AllDecided, Anc;
      assert VerdictOk(n, nmt, events, wi, e);
    }

    lemma HeldKeys(e: Event, before: Infos)
      requires Held(n, nmt, events, before, wi, e)
      ensures e in wi && e in before && wi.Keys == before.Keys && wi == before[e := wi[e]]
    {
    }

    lemma AfterElection(e: Event, wi1: Infos, mark1: map<Event, bool>, seen1: seq<Event>)
      requires StaticOk(events) && RowsOk(n, nmt, events, allWitnessMap) && e in events && e.Derived?
      requires forall x :: x in wi1 <==> x in events && IsWitness(nmt, x)
      requires Settling(events, wi1, allAncestorsDecided, mark1, seen1)
      requires Held(n, nmt, events, wi1, wi, e) && wi1[e].decided == Unknown
      requires forall p :: p in Parents(e) ==> AllDecided(wi1, p)
      requires (mark == mark1 && seen == seen1) || (mark == map[] && seen == [])
      ensures Traversal()
    {
      hide StaticOk, RowsOk, IsWitness, VerdictsOk, Explored, AllDecided, Held, Parents;
      HeldKeys(e, wi1);
      HeldAdvances(n, nmt, events, wi1, wi, e);
      HeldKeepsVerdicts(n, nmt, events, wi1, wi, e, allAncestorsDecided);
      forall m | m in mark ensures Explored(n, nmt, events, wi, m) && mark[m] == AllDecided(wi, m) {
        ExploredStays(n, nmt, events, wi1, wi, m);
      }
    }

    lemma SameWhenUndecided(e: Event, wi0: Infos, wi1: Infos)
      requires e in wi && e in wi1 && wi == wi1[e := wi[e]] && wi[e].decided == Unknown == wi1[e].decided
      requires SameVerdicts(wi0, wi1)
      ensures SameVerdicts(wi0, wi)
    {
      assert wi.Keys == wi1.Keys;
    }

    // ----- Reading off a round -----

    ghost function TheView(): View
      reads this`events, this`wi
    {
      ViewOf(events, wi)
    }

    /** What GetDecision relies on. */
    ghost predicate Readable()
      reads this`events, this`wi, this`round, this`stronglySees, this`allWitnessMap, this`allAncestorsDecided
    {
      && ColumnsOk(events)
      && VerdictsOk(n, nmt, events, wi, allAncestorsDecided)
      && forall i: nat :: i < n ==> Genesis(i, 0) in events
    }

    lemma ReadableIsSound()
      requires Readable()
      ensures Sound(n, nmt, TheView()) && Quorums(n, nmt)
      ensures forall x :: x in TheView().verdict <==> IsDecided(wi, x)
    {
      hide Anc, Dag, ForkFree, IsWitness, VerdictsOk, RoundsOk, SeesOk, RowsOk;
      ViewIsSound(n, nmt, events, wi, allAncestorsDecided);
    }

    /** Whether every witness in the row has a verdict, and how many identities have one. */
    method RowDecided(row: Row) returns (all: bool, count: nat)
      requires |row| == n && forall i, w :: 0 <= i < n && w in row[i] ==> w in wi
      ensures all <==> forall i, w :: 0 <= i < n && w in row[i] ==> wi[w].decided != Unknown
      ensures all ==> count == WitnessCount(row)
    {
      hide Anc;
      count := 0;
      var i := 0;
      CountNone(row);
      while i < n
        invariant 0 <= i <= n && count == WitnessCount(row[..i])
        invariant forall k, w :: 0 <= k < i && w in row[k] ==> wi[w].decided != Unknown
      {
        CountStep(row, i);
        if |row[i]| > 0 {
          count := count + 1;
        }
        var j := 0;
        while j < |row[i]|
          invariant 0 <= j <= |row[i]|
          invariant forall w :: w in row[i][..j] ==> wi[w].decided != Unknown
        {
          assert row[i][j] in row[i];
          if wi[row[i][j]].decided == Unknown {
            return false, count;
          }
          assert row[i][..j + 1] == row[i][..j] + [row[i][j]];
          j := j + 1;
        }
        assert row[i][..j] == row[i];
        i := i + 1;
      }
      assert row[..n] == row;
      all := true;
    }

    /** The proposals delivered by witness `x`; the witness before it is always decided. */
    method PayloadOf(x: Event) returns (out: seq<Bytes>)
      requires Readable() && x in events && x in wi && wi[x].decided == Yes
      ensures out == Payload(nmt, x)
    {
      hide *;
      var acc: seq<Bytes> := [];
      PayloadStart(x);
      if x.Derived? {
        if |x.buff| > 0 {
          acc := [x.buff];
        }
        var nxt := x.parent;
        while true
          invariant nxt in events && nxt in Anc(x)
          invariant Payload(nmt, x) == Since(nmt, nxt) + Reversed(acc)
          decreases nxt
        {
          if nxt in wi {
            PayloadStop(x, nxt);
            assert wi[nxt].decided != Unknown;
            break;
          }
          PayloadStep(x, nxt, acc);
          if |nxt.buff| > 0 {
            acc := acc + [nxt.buff];
          }
          nxt := nxt.parent;
        }
      }
      out := Reverse(acc);
    }

    lemma PayloadStart(x: Event)
      requires Readable() && x in events
      ensures x.Genesis? ==> Payload(nmt, x) == Reversed([])
      ensures x.Derived? ==> x.parent in events && x.parent in Anc(x)
      ensures x.Derived? && |x.buff| > 0 ==> Payload(nmt, x) == Since(nmt, x.parent) + Reversed([x.buff])
      ensures x.Derived? && |x.buff| == 0 ==> Payload(nmt, x) == Since(nmt, x.parent) + Reversed([])
    {
      hide Round, Anc, RowsOk, SeesOk, RoundsOk, VerdictsOk, ForkFree, IsWitness, Since;
      if x.Derived? {
        assert x.parent in Parents(x);
        ParentAnc(x.parent, x);
        assert [x.buff][..0] == [];
      }
    }

    lemma PayloadStop(x: Event, nxt: Event)
      requires Readable() && x in wi && x.Derived? && wi[x].decided == Yes && nxt in Anc(x) && nxt in wi
      ensures wi[nxt].decided != Unknown
      ensures forall acc :: Since(nmt, nxt) + Reversed(acc) == Reversed(acc)
    {
      hide Round, Anc, RowsOk, SeesOk, RoundsOk, VotesRight, Decides, Dag, ForkFree, Reversed;
      assert VerdictOk(n, nmt, events, wi, x);
      assert Since(nmt, nxt) == [];
    }

    lemma PayloadStep(x: Event, nxt: Event, acc: seq<Bytes>)
      requires Readable() && nxt in events && nxt !in wi && nxt in Anc(x)
      ensures nxt.Derived? && nxt.parent in events && nxt.parent in Anc(x) && nxt.parent < nxt
      ensures Since(nmt, nxt) + Reversed(acc) ==
        Since(nmt, nxt.parent) + Reversed(if |nxt.buff| > 0 then acc + [nxt.buff] else acc)
    {
      hide Round, Anc, RowsOk, SeesOk, RoundsOk, VerdictsOk, ForkFree;
      assert nxt.parent in Parents(nxt);
      ParentAnc(nxt.parent, nxt);
      AncTransitive(nxt, x);
      ReversedAppend(acc, nxt.buff);
    }

    /** Whether round `r` has decided, and if so what it delivers: for every identity whether its
        witness was accepted and the proposals that brings, oldest first. */
    method GetDecision(r: nat) returns (hasDecided: bool, decision: seq<seq<Bytes>>, rounds: seq<nat>,
                                        indices: seq<nat>, count: nat, bools: seq<bool>)
      requires Readable()
      modifies this`allWitnessMap
      ensures Readable() && (old(Valid()) ==> Valid())
      ensures hasDecided <==> RoundDecided(nmt, TheView(), r)
      ensures hasDecided ==> |decision| == |rounds| == |indices| == |bools| == n
      ensures hasDecided ==> forall i :: 0 <= i < n ==> Delivers(n, nmt, TheView(), r, i, bools[i], decision[i])
      ensures hasDecided ==> count == |Accepted(nmt, TheView(), r)|
      ensures hasDecided ==> forall w :: w in Witnesses(nmt, events, r) ==>
        w.id < n && w in wi && rounds[w.id] == wi[w].decidedRound && indices[w.id] == w.index
      ensures hasDecided ==> forall i :: 0 <= i < n && NoWitnessOf(r, i) ==> rounds[i] == 0 && indices[i] == 0
    {
      hide *;
      hasDecided, decision, rounds, indices, count, bools := false, [], [], [], 0, [];
      RowsReadable();
      var row := GetAllWitnesses(r, events);
      StillReadable();
      if old(Valid()) { RowsOnly(); }
      RowWitnesses(r, row);
      var all, wc := RowDecided(row);
      if !all {
        SomeUndecided(r, row);
        return;
      }
      CountWitnesses(r, row);
      if wc == 0 {
        NoWitnesses(r, row);
        return;
      }
      AllRowDecided(r, row);
      // the check that a decided round has at least nmt witnesses cannot fail
      assert wc >= nmt;
      hasDecided := true;
      decision, rounds, indices, bools := NoPayloads(n), Zeros(n), Zeros(n), AllFalse(n);
      DeliveredNone(r, row);
      var i := 0;
      while i < n
        invariant 0 <= i <= n == |row| == |decision| == |rounds| == |indices| == |bools|
        invariant Readable() && (old(Valid()) ==> Valid()) && RowOk(n, nmt, events, r, row) && RoundDecided(nmt, TheView(), r)
        invariant Delivered(r, row, i, decision, rounds, indices, bools)
        invariant count == TrueCount(bools[..i])
        invariant forall k :: i <= k < n ==> decision[k] == [] && !bools[k] && rounds[k] == 0 && indices[k] == 0
      {
        ghost var decision0, rounds0, indices0, bools0 := decision, rounds, indices, bools;
        RowHead(r, row, i);
        if |row[i]| > 0 {
          var w := row[i][0];
          WitnessReadable(r, w);
          rounds := rounds[i := wi[w].decidedRound];
          indices := indices[i := w.index];
          if wi[w].decided == Yes {
            var payload := PayloadOf(w);
            bools := bools[i := true];
            count := count + 1;
            decision := decision[i := payload];
          }
        }
        SlotFilled(row[i], decision[i], rounds[i], indices[i], bools[i]);
        DeliveredStep(r, row, i, decision0, rounds0, indices0, bools0, decision, rounds, indices, bools);
        CountTrue(bools0, bools, i);
        i := i + 1;
      }
      assert bools[..n] == bools;
      DeliveredAll(r, row, decision, rounds, indices, bools);
    }

    lemma RowsReadable()
      requires Readable()
      ensures RowsOk(n, nmt, events, allWitnessMap)
    {
    }

    twostate lemma StillReadable()
      requires old(Readable()) && RowsOk(n, nmt, events, allWitnessMap)
      requires events == old(events) && wi == old(wi) && round == old(round)
      requires stronglySees == old(stronglySees) && allAncestorsDecided == old(allAncestorsDecided)
      ensures Readable()
    {
      hide RowsOk, VerdictsOk, StaticOk, IsWitness;
      assert StaticOk(events);
    }

    lemma RowWitnesses(r: nat, row: Row)
      requires Readable() && RowOk(n, nmt, events, r, row)
      ensures forall i, w :: 0 <= i < n && w in row[i] ==> w in wi
    {
      hide Round, IsWitness, StaticOk, RowsOk, VerdictsOk;
    }

    lemma WitnessReadable(r: nat, w: Event)
      requires Readable() && w in Witnesses(nmt, events, r)
      ensures w in events && w in wi && w.id < n
    {
      hide Round, IsWitness, RoundsOk, SeesOk, RowsOk, VerdictsOk;
    }

    lemma SomeUndecided(r: nat, row: Row)
      requires Readable() && RowOk(n, nmt, events, r, row)
      requires forall i, w :: 0 <= i < n && w in row[i] ==> w in wi
      requires !forall i, w :: 0 <= i < n && w in row[i] ==> wi[w].decided != Unknown
      ensures !RoundDecided(nmt, TheView(), r)
    {
      hide Round, IsWitness, StaticOk, RowsOk, VerdictsOk;
      var i, w :| 0 <= i < n && w in row[i] && wi[w].decided == Unknown;
      assert w in Witnesses(nmt, events, r);
    }

    lemma CountWitnesses(r: nat, row: Row)
      requires Readable() && RowOk(n, nmt, events, r, row)
      ensures WitnessCount(row) == |Witnesses(nmt, events, r)|
    {
      hide Round, IsWitness, RowOk, RowsOk, VerdictsOk;
      WitnessCountCard(n, nmt, events, r, row);
    }

    lemma NoWitnesses(r: nat, row: Row)
      requires |Witnesses(nmt, events, r)| == 0
      ensures !RoundDecided(nmt, TheView(), r)
    {
      hide Witnesses;
    }

    lemma AllRowDecided(r: nat, row: Row)
      requires Readable() && RowOk(n, nmt, events, r, row) && |Witnesses(nmt, events, r)| != 0
      requires forall i, w :: 0 <= i < n && w in row[i] ==> w in wi && wi[w].decided != Unknown
      ensures RoundDecided(nmt, TheView(), r) && |Witnesses(nmt, events, r)| >= nmt
    {
      hide Round, IsWitness, RoundsOk, SeesOk, RowsOk, VerdictsOk;
      forall w | w in Witnesses(nmt, events, r) ensures w in TheView().verdict.Keys {
        assert w in row[w.id];
      }
      ReadableIsSound();
      DecidedRoundIsFull(n, nmt, TheView(), r);
    }

    /** The outputs for the identities below `i` are those of the round. */
    ghost predicate Delivered(r: nat, row: Row, i: nat, decision: seq<seq<Bytes>>, rounds: seq<nat>, indices: seq<nat>, bools: seq<bool>)
      reads this`events, this`wi
    {
      && |row| == |decision| == |rounds| == |indices| == |bools| == n
      && forall k :: 0 <= k < i && k < n ==> SlotDelivered(row[k], decision[k], rounds[k], indices[k], bools[k])
    }

    ghost predicate SlotDelivered(slot: seq<Event>, payload: seq<Bytes>, decidedIn: nat, index: nat, yes: bool)
      reads this`wi
    {
      if slot == [] then !yes && payload == [] && decidedIn == 0 && index == 0
      else
        var w := slot[0];
        && w in wi && decidedIn == wi[w].decidedRound && index == w.index
        && yes == (wi[w].decided == Yes)
        && payload == if yes then Payload(nmt, w) else []
    }

    lemma SlotFilled(slot: seq<Event>, payload: seq<Bytes>, decidedIn: nat, index: nat, yes: bool)
      requires slot == [] ==> !yes && payload == [] && decidedIn == 0 && index == 0
      requires slot != [] ==> slot[0] in wi && decidedIn == wi[slot[0]].decidedRound && index == slot[0].index
      requires slot != [] ==> yes == (wi[slot[0]].decided == Yes) && payload == if yes then Payload(nmt, slot[0]) else []
      ensures SlotDelivered(slot, payload, decidedIn, index, yes)
    {
    }

    lemma DeliveredNone(r: nat, row: Row)
      requires |row| == n
      ensures Delivered(r, row, 0, NoPayloads(n), Zeros(n), Zeros(n), AllFalse(n))
      ensures TrueCount(AllFalse(n)[..0]) == 0
      ensures forall k :: 0 <= k < n ==> NoPayloads(n)[k] == [] && !AllFalse(n)[k] && Zeros(n)[k] == 0
    {
    }

    lemma DeliveredStep(r: nat, row: Row, i: nat, d0: seq<seq<Bytes>>, rs0: seq<nat>, ix0: seq<nat>, b0: seq<bool>,
                        d: seq<seq<Bytes>>, rs: seq<nat>, ix: seq<nat>, bs: seq<bool>)
      requires Delivered(r, row, i, d0, rs0, ix0, b0) && i < n && !b0[i] && d0[i] == []
      requires |d| == |rs| == |ix| == |bs| == n
      requires forall k :: 0 <= k < n && k != i ==> d[k] == d0[k] && rs[k] == rs0[k] && ix[k] == ix0[k] && bs[k] == b0[k]
      requires SlotDelivered(row[i], d[i], rs[i], ix[i], bs[i])
      ensures Delivered(r, row, i + 1, d, rs, ix, bs)
    {
      hide SlotDelivered;
    }

    lemma CountTrue(b0: seq<bool>, b: seq<bool>, i: nat)
      requires |b0| == |b| && i < |b| && forall k :: 0 <= k < |b| && k != i ==> b[k] == b0[k]
      ensures TrueCount(b[..i + 1]) == TrueCount(b0[..i]) + (if b[i] then 1 else 0)
    {
      assert b[..i + 1][..i] == b0[..i];
    }

    lemma DeliveredAll(r: nat, row: Row, decision: seq<seq<Bytes>>, rounds: seq<nat>, indices: seq<nat>, bools: seq<bool>)
      requires Readable() && RowOk(n, nmt, events, r, row) && RoundDecided(nmt, TheView(), r)
      requires Delivered(r, row, n, decision, rounds, indices, bools)
      ensures forall i :: 0 <= i < n ==> Delivers(n, nmt, TheView(), r, i, bools[i], decision[i])
      ensures TrueCount(bools) == |Accepted(nmt, TheView(), r)|
      ensures forall w :: w in Witnesses(nmt, events, r) ==>
        w.id < n && w in wi && rounds[w.id] == wi[w].decidedRound && indices[w.id] == w.index
      ensures forall i :: 0 <= i < n && NoWitnessOf(r, i) ==> rounds[i] == 0 && indices[i] == 0
    {
      hide Round, IsWitness, RoundsOk, SeesOk, RowsOk, VerdictsOk, Payload, RowOk;
      forall i | 0 <= i < n ensures Delivers(n, nmt, TheView(), r, i, bools[i], decision[i]) {
        SlotAccepted(r, row, i);
        assert SlotDelivered(row[i], decision[i], rounds[i], indices[i], bools[i]);
      }
      forall w | w in Witnesses(nmt, events, r)
        ensures w.id < n && w in wi && rounds[w.id] == wi[w].decidedRound && indices[w.id] == w.index
      {
        RowSlot(r, row, w.id);
        assert SlotDelivered(row[w.id], decision[w.id], rounds[w.id], indices[w.id], bools[w.id]);
      }
      forall i | 0 <= i < n && NoWitnessOf(r, i) ensures rounds[i] == 0 && indices[i] == 0 {
        SlotWitness(r, row, i);
        assert SlotDelivered(row[i], decision[i], rounds[i], indices[i], bools[i]);
      }
      AcceptedIds(r, row, decision, rounds, indices, bools);
    }

    /** Identity `i` has no witness in round `r`. */
    ghost predicate NoWitnessOf(r: nat, i: nat)
      reads this`events
    {
      forall w :: w in Witnesses(nmt, events, r) ==> w.id != i
    }

    lemma SlotWitness(r: nat, row: Row, i: nat)
      requires RowOk(n, nmt, events, r, row) && i < n
      ensures row[i] != [] ==> row[i][0] in Witnesses(nmt, events, r) && row[i][0].id == i
    {
      hide Round, IsWitness, Witnesses;
      if row[i] != [] { assert row[i][0] in row[i]; }
    }

    lemma SlotAccepted(r: nat, row: Row, i: nat)
      requires Readable() && RowOk(n, nmt, events, r, row) && i < n
      ensures forall x :: x in Accepted(nmt, TheView(), r) && x.id == i ==> row[i] == [x]
      ensures row[i] != [] && row[i][0] in wi && wi[row[i][0]].decided == Yes ==>
        row[i][0] in Accepted(nmt, TheView(), r) && row[i][0].id == i
    {
      hide Round, IsWitness, RoundsOk, SeesOk, RowsOk, VerdictsOk;
      RowSlot(r, row, i);
      if row[i] != [] { assert row[i][0] in row[i]; }
    }

    lemma AcceptedIds(r: nat, row: Row, decision: seq<seq<Bytes>>, rounds: seq<nat>, indices: seq<nat>, bools: seq<bool>)
      requires Readable() && RowOk(n, nmt, events, r, row)
      requires Delivered(r, row, n, decision, rounds, indices, bools)
      ensures TrueCount(bools) == |Accepted(nmt, TheView(), r)|
    {
      hide Round, IsWitness, RoundsOk, SeesOk, RowsOk, VerdictsOk, Payload, RowOk;
      var A := Accepted(nmt, TheView(), r);
      forall a, b | a in A && b in A && a.id == b.id ensures a == b {
        SlotAccepted(r, row, a.id);
      }
      IdsCard(A);
      forall i ensures i in Ids(A) <==> 0 <= i < n && bools[i] {
        if 0 <= i < n {
          SlotAccepted(r, row, i);
          assert SlotDelivered(row[i], decision[i], rounds[i], indices[i], bools[i]);
        }
      }
      TrueCountCard(bools, Ids(A));
    }

    // ----- Adding a witness -----

    /** Each tail is the last event of its identity. */
    ghost predicate TailsOk()
      reads this`events, this`tails
    {
      TailsOkFor(events)
    }

    ghost predicate TailsOkFor(S: set<Event>)
      reads this`tails
    {
      && |tails| == n
      && (forall i: nat :: i < n ==> Genesis(i, 0) in S && tails[i] in S && tails[i].id == i)
      && forall e :: e in S ==> e.id < n && e.index <= tails[e.id].index
    }

    /** The decided rounds are exactly an unbroken prefix, and for each the indices of the tails
        at the time it decided were kept. */
    ghost predicate LastDecidedOk()
      reads this`events, this`wi, this`lastDecided
    {
      PrefixDecided(nmt, TheView(), lastDecided) && !RoundDecided(nmt, TheView(), lastDecided + 1)
    }

    ghost predicate AtMostTails(ix: seq<nat>)
      reads this`tails
    {
      |ix| == |tails| && forall i :: 0 <= i < |tails| ==> ix[i] <= tails[i].index
    }

    ghost predicate DecidedMapOk()
      reads this`tails, this`lastDecided, this`decidedRoundMap
    {
      && (forall r :: r in decidedRoundMap <==> 0 <= r <= lastDecided)
      && (forall r :: r in decidedRoundMap ==> AtMostTails(decidedRoundMap[r]))
      && RowsRise(decidedRoundMap, |tails|)
    }

    /** The indices of the tails. */
    method TailIndices() returns (ix: seq<nat>)
      ensures |ix| == |tails| && forall i :: 0 <= i < |tails| ==> ix[i] == tails[i].index
    {
      ix := [];
      var i := 0;
      while i < |tails|
        invariant 0 <= i <= |tails| && |ix| == i
        invariant forall k :: 0 <= k < i ==> ix[k] == tails[k].index
      {
        ix := ix + [tails[i].index];
        i := i + 1;
      }
    }

    /** Advances over every round that has become decided. */
    method AdvanceLastDecided()
      requires Readable() && TailsOk() && DecidedMapOk() && PrefixDecided(nmt, TheView(), lastDecided)
      modifies this`allWitnessMap, this`lastDecided, this`decidedRoundMap
      ensures Readable() && DecidedMapOk() && LastDecidedOk() && lastDecided >= old(lastDecided)
      ensures Snapshots(old(decidedRoundMap), old(lastDecided), decidedRoundMap, lastDecided, tails)
    {
      hide *;
      SnapshotsSame(decidedRoundMap, lastDecided, tails);
      ghost var m := RoundBound(nmt, events);
      var dec, _, _, _, _, _ := GetDecision(lastDecided + 1);
      while dec
        invariant Readable() && TailsOk() && DecidedMapOk() && PrefixDecided(nmt, TheView(), lastDecided)
        invariant dec <==> RoundDecided(nmt, TheView(), lastDecided + 1)
        invariant lastDecided >= old(lastDecided)
        invariant Snapshots(old(decidedRoundMap), old(lastDecided), decidedRoundMap, lastDecided, tails)
        decreases m - lastDecided
      {
        var ix := TailIndices();
        DecidedRows();
        SnapshotsMore(old(decidedRoundMap), old(lastDecided), decidedRoundMap, lastDecided, tails, ix);
        RecordDecided(ix, m);
        var more, _, _, _, _, _ := GetDecision(lastDecided + 1);
        dec := more;
      }
      PrefixEnds();
    }

    lemma LastDecidedMeans()
      requires LastDecidedOk()
      ensures PrefixDecided(nmt, TheView(), lastDecided) && !RoundDecided(nmt, TheView(), lastDecided + 1)
    {
    }

    lemma PrefixEnds()
      requires PrefixDecided(nmt, TheView(), lastDecided) && !RoundDecided(nmt, TheView(), lastDecided + 1)
      ensures LastDecidedOk()
    {
    }

    method RecordDecided(ix: seq<nat>, ghost m: nat)
      requires DecidedMapOk() && PrefixDecided(nmt, TheView(), lastDecided) && RoundDecided(nmt, TheView(), lastDecided + 1)
      requires |ix| == |tails| && forall i :: 0 <= i < |tails| ==> ix[i] == tails[i].index
      requires forall e :: e in events ==> Round(nmt, e) <= m
      modifies this`lastDecided, this`decidedRoundMap
      ensures DecidedMapOk() && PrefixDecided(nmt, TheView(), lastDecided)
      ensures lastDecided == old(lastDecided) + 1 <= m
      ensures decidedRoundMap == old(decidedRoundMap)[lastDecided := ix]
    {
      hide Round, IsWitness, RowsRise;
      ghost var w :| w in Witnesses(nmt, events, lastDecided + 1);
      RowsRiseMore(decidedRoundMap, lastDecided, tails, ix);
      lastDecided := lastDecided + 1;
      decidedRoundMap := decidedRoundMap[lastDecided := ix];
    }

    lemma DecidedRows()
      requires DecidedMapOk()
      ensures forall r :: r in decidedRoundMap <==> 0 <= r <= lastDecided
    {
      hide RowsRise;
    }

    /** The new witness `ev` may settle elections below it, and may itself be a late witness. */
    method CheckDecided(ev: Event, ghost S: set<Event>, ghost wi0: Infos, ghost info: WitnessInfo)
      requires Traversal() && Readable() && TailsOk() && DecidedMapOk() && mark == map[] && seen == []
      requires events == S + {ev} && ev !in S && wi == wi0[ev := info] && info.decided == Unknown
      requires Dag(n, S) && Sound(n, nmt, ViewOf(S, wi0)) && ev.Derived? && IsWitness(nmt, ev)
      requires forall x :: x in wi0 <==> x in S && IsWitness(nmt, x)
      requires PrefixDecided(nmt, ViewOf(S, wi0), lastDecided) && !RoundDecided(nmt, ViewOf(S, wi0), lastDecided + 1)
      modifies this`wi, this`allWitnessMap, this`allAncestorsDecided, this`mark, this`seen, this`lastDecided, this`decidedRoundMap
      ensures Readable() && DecidedMapOk() && LastDecidedOk() && mark == map[] && seen == []
      ensures Final(wi0, wi) && lastDecided >= old(lastDecided) && Explored(n, nmt, events, wi, ev)
      ensures Snapshots(old(decidedRoundMap), old(lastDecided), decidedRoundMap, lastDecided, tails)
    {
      hide *;
      SnapshotsSame(decidedRoundMap, lastDecided, tails);
      var _, valDecided := RecCheckDecided(ev, false);
      TraversalListed();
      ResetSeen();
      NowReadable();
      FinalStep(events, wi0, ev, info);
      ExtendedNow(ev, S, wi0, info);
      PrefixKept(n, nmt, S, wi0, ev, wi, allAncestorsDecided, lastDecided);
      SameView();
      if valDecided {
        AdvanceLastDecided();
      } else {
        NoNewRound(n, nmt, S, wi0, ev, info, wi, lastDecided + 1);
        PrefixEnds();
      }
    }

    lemma FinalStep(S: set<Event>, wi0: Infos, ev: Event, info: WitnessInfo)
      requires ev !in wi0 && Advances(n, nmt, S, wi0[ev := info], wi)
      ensures Final(wi0, wi)
    {
      hide Fails, Tried;
    }

    lemma SameView()
      ensures TheView() == ViewOf(events, wi)
    {
    }

    lemma TraversalListed()
      requires Traversal()
      ensures MarksListed() && ColumnsOk(events) && VerdictsOk(n, nmt, events, wi, allAncestorsDecided)
    {
      hide ColumnsOk, VerdictsOk;
    }

    twostate lemma NowReadable()
      requires old(Readable()) && events == old(events)
      requires ColumnsOk(events) && VerdictsOk(n, nmt, events, wi, allAncestorsDecided)
      ensures Readable()
    {
      hide ColumnsOk, VerdictsOk;
    }

    lemma ExtendedNow(ev: Event, S: set<Event>, wi0: Infos, info: WitnessInfo)
      requires ColumnsOk(events) && VerdictsOk(n, nmt, events, wi, allAncestorsDecided)
      requires events == S + {ev} && ev !in S && ev.Derived? && IsWitness(nmt, ev) && info.decided == Unknown
      requires Dag(n, S) && Sound(n, nmt, ViewOf(S, wi0))
      requires forall x :: x in wi0 <==> x in S && IsWitness(nmt, x)
      requires Advances(n, nmt, events, wi0[ev := info], wi) && Explored(n, nmt, events, wi, ev)
      ensures Extended(n, nmt, S, wi0, ev, wi, allAncestorsDecided)
    {
      hide Anc, IsWitness, VerdictsOk, Advances, Explored, Sound, RoundsOk, SeesOk, RowsOk, ForkFree, ViewOf;
      forall p | p in Parents(ev) ensures p in S {
        ParentAnc(p, ev);
        AncCases(ev, ev);
      }
    }

    /** Gives the new event `ev` its round, and decides what can be decided if it is a witness. */
    method ComputeWitness(ev: Event)
      requires Readable() && LastDecidedOk() && mark == map[] && seen == []
      requires Next(events, ev) && ForkFree(events + {ev})
      requires |tails| == n && TailsOkFor(events + {ev}) && DecidedMapOk()
      modifies this`events, this`round, this`wi, this`stronglySees, this`allWitnessMap, this`allAncestorsDecided,
               this`mark, this`seen, this`lastDecided, this`decidedRoundMap
      ensures events == old(events) + {ev}
      ensures Readable() && TailsOk() && LastDecidedOk() && DecidedMapOk() && mark == map[] && seen == []
      ensures Final(old(wi), wi) && lastDecided >= old(lastDecided) && (IsWitness(nmt, ev) ==> Explored(n, nmt, events, wi, ev))
      ensures Snapshots(old(decidedRoundMap), old(lastDecided), decidedRoundMap, lastDecided, tails)
    {
      hide *;
      SnapshotsSame(decidedRoundMap, lastDecided, tails);
      ghost var S, wi0, cleared := events, wi, allAncestorsDecided;
      ReadableColumns();
      ReadableIsSound();
      SameView();
      LastDecidedMeans();
      GenesisIn(S);
      ghost var round0 := round;
      AssignRound(ev, S);
      RoundsExtended(ev, S, round0);
      Grown(ev, S, wi0, cleared);
      if ev in wi {
        AddWitness(ev, S);
        events := events + {ev};
        NewState(ev, S);
        CheckDecided(ev, S, wi0, WitnessInfo(NoVotes(n), Unknown, 0));
      } else {
        RowsOfPlainEvent(S, ev, allWitnessMap);
        events := events + {ev};
        NewState(ev, S);
        FinalSame(wi);
        PlainKeepsPrefix(ev, S);
      }
    }

    lemma FinalSame(a: Infos)
      ensures Final(a, a)
    {
    }

    lemma FinalTwice(a: Infos, b: Infos, c: Infos)
      requires Final(a, b) && Final(b, c)
      ensures Final(a, c)
    {
    }

    lemma GenesisIn(S: set<Event>)
      requires Readable() && S == events
      ensures forall i: nat :: i < n ==> Genesis(i, 0) in S
      ensures RoundsOk(nmt, S, round) && Quorums(n, nmt)
    {
      hide Anc, IsWitness, VerdictsOk, RowsOk, SeesOk, RoundsOk, Dag, ForkFree;
    }

    lemma NewState(ev: Event, S: set<Event>)
      requires events == S + {ev} && Dag(n, events) && ForkFree(events) && Quorums(n, nmt)
      requires RoundsOk(nmt, events, round) && SeesOk(n, nmt, events, stronglySees) && RowsOk(n, nmt, events, allWitnessMap)
      requires forall x :: x in wi <==> x in events && IsWitness(nmt, x)
      requires VerdictsOk(n, nmt, events, wi, allAncestorsDecided)
      requires forall i: nat :: i < n ==> Genesis(i, 0) in S
      requires mark == map[] && seen == [] && TailsOkFor(events)
      ensures Readable() && Traversal() && TailsOk()
    {
      hide Anc, IsWitness, VerdictsOk, RowsOk, SeesOk, RoundsOk, Dag, ForkFree, TailsOkFor, Quorums;
    }

    lemma PlainKeepsPrefix(ev: Event, S: set<Event>)
      requires events == S + {ev} && !IsWitness(nmt, ev)
      requires PrefixDecided(nmt, ViewOf(S, wi), lastDecided) && !RoundDecided(nmt, ViewOf(S, wi), lastDecided + 1)
      ensures LastDecidedOk()
    {
      hide IsWitness, RoundDecided, ViewOf;
      SameView();
      forall r ensures RoundDecided(nmt, ViewOf(events, wi), r) == RoundDecided(nmt, ViewOf(S, wi), r) {
        PlainKeepsRounds(nmt, S, wi, ev, r);
      }
    }

    lemma ReadableColumns()
      requires Readable()
      ensures ColumnsOk(events) && VerdictsOk(n, nmt, events, wi, allAncestorsDecided)
      ensures RowsOk(n, nmt, events, allWitnessMap) && Dag(n, events)
      ensures forall x :: x in wi <==> x in events && IsWitness(nmt, x)
    {
      hide Anc, IsWitness, VerdictsOk, RowsOk, SeesOk, RoundsOk;
    }

    /** After the round is assigned: what is known about the columns, whether or not `ev` is a witness. */
    lemma Grown(ev: Event, S: set<Event>, wi0: Infos, cleared: set<Event>)
      requires Next(S, ev) && VerdictsOk(n, nmt, S, wi0, cleared)
      requires forall x :: x in wi0 <==> x in S && IsWitness(nmt, x)
      requires wi == if IsWitness(nmt, ev) then wi0[ev := WitnessInfo(NoVotes(n), Unknown, 0)] else wi0
      requires ev in round && round[ev] == Round(nmt, ev)
      ensures ev in wi <==> IsWitness(nmt, ev)
      ensures Dag(n, S + {ev}) && ev.Derived? && ev !in S
      ensures VerdictsOk(n, nmt, S + {ev}, wi, cleared)
      ensures forall x :: x in wi <==> x in S + {ev} && IsWitness(nmt, x)
    {
      hide Anc, IsWitness, VerdictsOk, Round;
      NextAncestors(S, ev);
      VerdictsExtended(n, nmt, S, wi0, cleared, ev);
    }

    lemma RoundsExtended(ev: Event, S: set<Event>, round0: map<Event, nat>)
      requires RoundsOk(nmt, S, round0)
      ensures RoundsOk(nmt, S + {ev}, round0[ev := Round(nmt, ev)])
    {
      hide Round;
    }

    // ----- The highest event of every identity below an event -----

    /** The stored vector, computed from the vectors of the direct ancestors when there is none. */
    method ComputeKnownItem(ev: Event)
      requires Dag(n, events) && ev in events && known.Keys <= events
      requires forall e :: e in known ==> IsKnownVector(n, e, known[e])
      requires forall p :: p in Parents(ev) && p.Derived? ==> p in known
      modifies this`known
      ensures ev in known && IsKnownVector(n, ev, known[ev])
      ensures known == old(known)[ev := known[ev]]
    {
      hide Anc, Covers, IsKnownVector;
      if ev !in known {
        var v := ComputeKnown(ev);
        known := known[ev := v];
      } else {
        MapSame(known, ev);
      }
    }

    method ComputeKnown(ev: Event) returns (v: Slots)
      requires Dag(n, events) && ev in events
      requires forall e :: e in known ==> IsKnownVector(n, e, known[e])
      requires forall p :: p in Parents(ev) && p.Derived? ==> p in known
      ensures IsKnownVector(n, ev, v)
    {
      hide Anc, Covers;
      EmptyCovers();
      v := NoSlots(n);
      CheckEvCovers(n, {}, v, ev);
      v := CheckEv(v, ev);
      ghost var C := {} + {ev};
      if ev.Derived? {
        assert ev.parent in Parents(ev);
        if ev.parent in known {
          v := Merge(n, v, known[ev.parent], C, Anc(ev.parent));
          C := C + Anc(ev.parent);
        } else {
          LowerParent(ev, C, v);
          C := C + Anc(ev.parent);
        }
        var rs := ev.remotes;
        var k := 0;
        while k < |rs|
          invariant 0 <= k <= |rs| && Covers(n, C, v)
          invariant forall a :: a in C <==> a == ev || a in Anc(ev.parent) || exists p :: p in rs[..k] && a in Anc(p)
        {
          var r := rs[k];
          assert r in Parents(ev);
          CoversSize(C, v);
          CheckEvCovers(n, C, v, r);
          v := CheckEv(v, r);
          ghost var C1 := C + {r};
          AncCases(r, r);
          if r in known {
            v := Merge(n, v, known[r], C1, Anc(r));
          } else {
            GenesisAnc(r);
            assert C1 + Anc(r) == C1;
          }
          assert C1 + Anc(r) == C + Anc(r);
          C := C + Anc(r);
          assert rs[..k + 1] == rs[..k] + [r];
          k := k + 1;
        }
        assert rs[..k] == rs;
      }
      AncestorsAre(ev, C);
    }

    lemma EmptyCovers()
      ensures Covers(n, {}, NoSlots(n)) && |NoSlots(n)| == n
    {
    }

    lemma CoversSize(C: set<Event>, v: Slots)
      requires Covers(n, C, v)
      ensures |v| == n
    {
    }

    lemma GenesisAnc(g: Event)
      requires g.Genesis?
      ensures Anc(g) == {g}
    {
    }

    lemma LowerParent(ev: Event, C: set<Event>, v: Slots)
      requires ev.Derived? && WellFormed(n, ev) && ev.parent.Genesis? && C == {} + {ev} && Covers(n, C, v)
      ensures Covers(n, C + Anc(ev.parent), v)
    {
      GenesisAnc(ev.parent);
      forall i | 0 <= i < n ensures IsHighest(C + Anc(ev.parent), i, v[i]) {
        assert IsHighest(C, i, v[i]);
        assert ev in C;
      }
    }

    lemma AncestorsAre(ev: Event, C: set<Event>)
      requires ev.Genesis? ==> C == {} + {ev}
      requires ev.Derived? ==> forall a :: a in C <==> a == ev || a in Anc(ev.parent) || exists p :: p in ev.remotes && a in Anc(p)
      ensures C == Anc(ev)
    {
      hide Anc;
      forall a ensures a in C <==> a in Anc(ev) {
        AncCases(a, ev);
        if ev.Derived? {
          assert ev.parent in Parents(ev);
          if p :| p in ev.remotes && a in Anc(p) { assert p in Parents(ev); }
          if p :| p in Parents(ev) && a in Anc(p) { assert p == ev.parent || p in ev.remotes; }
        }
      }
    }

    // ----- The graph as a whole -----

    ghost predicate Valid()
      reads this
    {
      && Readable() && TailsOk() && LastDecidedOk() && DecidedMapOk()
      && KnownOk(n, events, known) && AllAdmitted(n, events)
      && mark == map[] && seen == [] && eventCount == |events|
    }

    /** One first event per identity, all accepted. */
    constructor (nodeCount: nat, quorum: nat)
      requires Quorums(nodeCount, quorum)
      ensures Valid() && n == nodeCount && nmt == quorum
      ensures events == set i: nat | i < nodeCount :: Genesis(i, 0)
    {
      hide Valid, Quorums;
      n, nmt := nodeCount, quorum;
      events := set i: nat | i < nodeCount :: Genesis(i, 0);
      tails := Firsts(nodeCount);
      var firsts := Firsts(nodeCount);
      round := map e | e in firsts :: 0;
      wi := map e | e in firsts :: WitnessInfo([], Yes, 0);
      stronglySees, known, allAncestorsDecided := map[], map[], {};
      allWitnessMap := map[0 := FirstRow(nodeCount)];
      decidedRoundMap, lastDecided := map[0 := Zeros(nodeCount)], 0;
      eventCount := nodeCount;
      mark, seen := map[], [];
      new;
      Start();
    }

    lemma Start()
      requires Quorums(n, nmt) && events == set i: nat | i < n :: Genesis(i, 0)
      requires tails == Firsts(n) && allWitnessMap == map[0 := FirstRow(n)]
      requires round.Keys == events && forall e :: e in round ==> round[e] == 0
      requires wi.Keys == events && forall e :: e in wi ==> wi[e] == WitnessInfo([], Yes, 0)
      requires stronglySees == map[] && known == map[] && allAncestorsDecided == {}
      requires decidedRoundMap == map[0 := Zeros(n)] && lastDecided == 0
      requires mark == map[] && seen == [] && eventCount == n
      ensures Valid()
    {
      hide Readable, TailsOk, LastDecidedOk, DecidedMapOk, KnownOk, Quorums, Acceptable;
      GenesisPrefixCard(n);
      StartsValid();
    }

    lemma StartsValid()
      requires Quorums(n, nmt) && events == set i: nat | i < n :: Genesis(i, 0)
      requires tails == Firsts(n) && allWitnessMap == map[0 := FirstRow(n)]
      requires round.Keys == events && forall e :: e in round ==> round[e] == 0
      requires wi.Keys == events && forall e :: e in wi ==> wi[e] == WitnessInfo([], Yes, 0)
      requires stronglySees == map[] && known == map[] && allAncestorsDecided == {}
      requires decidedRoundMap == map[0 := Zeros(n)] && lastDecided == 0
      ensures Readable() && TailsOk() && LastDecidedOk() && DecidedMapOk() && KnownOk(n, events, known)
    {
      hide *;
      FirstFacts();
      FirstRows();
      FirstColumns();
      FirstReport();
    }

    lemma FirstFacts()
      requires events == set i: nat | i < n :: Genesis(i, 0)
      ensures forall e :: e in events ==> e.Genesis? && e.id < n && e.index == 0 && IsWitness(nmt, e) && Round(nmt, e) == 0
      ensures forall i: nat :: i < n ==> Genesis(i, 0) in events
    {
      hide Round, IsWitness;
      forall e | e in events ensures e.Genesis? && e.id < n && e.index == 0 && IsWitness(nmt, e) && Round(nmt, e) == 0 {
        GenesisRound(nmt, e);
        FirstIsWitness(e);
      }
    }

    lemma FirstColumns()
      requires Quorums(n, nmt)
      requires forall e :: e in events ==> e.Genesis? && e.id < n && e.index == 0 && IsWitness(nmt, e) && Round(nmt, e) == 0
      requires forall i: nat :: i < n ==> Genesis(i, 0) in events
      requires round.Keys == events && forall e :: e in round ==> round[e] == 0
      requires wi.Keys == events && forall e :: e in wi ==> wi[e] == WitnessInfo([], Yes, 0)
      requires stronglySees == map[] && allAncestorsDecided == {}
      requires RowsOk(n, nmt, events, allWitnessMap)
      ensures Readable()
    {
      hide Anc, Round, IsWitness, Seen, StronglySees, Decides, AllDecided, RowsOk, Quorums;
      assert Dag(n, events) && ForkFree(events);
      assert SeesOk(n, nmt, events, stronglySees);
      forall x | x in wi ensures VerdictOk(n, nmt, events, wi, x) { }
    }

    lemma FirstReport()
      requires forall e :: e in events ==> e.Genesis? && e.id < n && e.index == 0 && Round(nmt, e) == 0
      requires forall i: nat :: i < n ==> Genesis(i, 0) in events
      requires tails == Firsts(n) && known == map[] && decidedRoundMap == map[0 := Zeros(n)] && lastDecided == 0
      ensures TailsOk() && LastDecidedOk() && DecidedMapOk() && KnownOk(n, events, known)
    {
      hide Anc, Round, IsWitness;
      assert Witnesses(nmt, events, 1) == {};
    }

    lemma FirstIsWitness(e: Event)
      requires e.Genesis?
      ensures IsWitness(nmt, e)
    {
    }

    lemma FirstRows()
      requires events == set i: nat | i < n :: Genesis(i, 0)
      requires forall e :: e in events ==> IsWitness(nmt, e) && Round(nmt, e) == 0
      ensures RowsOk(n, nmt, events, map[0 := FirstRow(n)])
    {
      hide Anc, Round, IsWitness;
      var row := FirstRow(n);
      forall i | 0 <= i < n ensures forall w :: w in row[i] <==> w in Witnesses(nmt, events, 0) && w.id == i {
        assert row[i] == [Genesis(i, 0)];
      }
      assert RowOk(n, nmt, events, 0, row);
    }

    // ----- Adding an event -----

    /** Why the fields of an event are refused: the checks in order, then per remote pointer. */
    ghost predicate Refused(info: EventInfo, err: AddError) {
      if info.local.id >= n then err == ErrInvalidPubIndex
      else if info.local.index == 0 then err == ErrInvalidIndex
      else if HashSize(info.local.hash) != HASH_LEN then err == ErrInvalidHashSize
      else exists k :: 0 <= k < |info.remotes| && FirstBadRemote(info, k) && err == RemoteError(info, k)
    }

    ghost predicate FirstBadRemote(info: EventInfo, k: nat)
      requires k < |info.remotes|
    {
      !GoodRemote(info, k) && forall j :: 0 <= j < k ==> GoodRemote(info, j)
    }

    function RemoteError(info: EventInfo, k: nat): AddError
      requires k < |info.remotes|
    {
      if info.remotes[k].id == info.local.id then ErrInvalidRemoteAncestor
      else if HashSize(info.remotes[k].hash) != HASH_LEN then ErrInvalidHashSize
      else ErrDuplicateRemoteAncestors
    }

    method Validate(info: EventInfo) returns (err: Option<AddError>)
      ensures err.None? <==> Acceptable(n, info)
      ensures err.Some? ==> Refused(info, err.value)
    {
      if info.local.id >= n {
        return Some(ErrInvalidPubIndex);
      }
      if info.local.index == 0 {
        return Some(ErrInvalidIndex);
      }
      if HashSize(info.local.hash) != HASH_LEN {
        return Some(ErrInvalidHashSize);
      }
      var ids: seq<nat> := [];
      var k := 0;
      while k < |info.remotes|
        invariant 0 <= k <= |info.remotes| && |ids| == k
        invariant forall j :: 0 <= j < k ==> GoodRemote(info, j) && ids[j] == info.remotes[j].id
      {
        var nxt := info.remotes[k];
        if nxt.id == info.local.id {
          assert FirstBadRemote(info, k);
          return Some(ErrInvalidRemoteAncestor);
        }
        if HashSize(nxt.hash) != HASH_LEN {
          assert FirstBadRemote(info, k);
          return Some(ErrInvalidHashSize);
        }
        var j := 0;
        while j < |ids|
          invariant 0 <= j <= |ids|
          invariant forall q :: 0 <= q < j ==> ids[q] != nxt.id
        {
          if nxt.id == ids[j] {
            assert FirstBadRemote(info, k);
            return Some(ErrDuplicateRemoteAncestors);
          }
          j := j + 1;
        }
        ids := ids + [nxt.id];
        k := k + 1;
      }
      err := None;
    }

    /** Walks from the tail of `id` down to index `idx`. */
    method EventAt(id: nat, idx: nat) returns (e: Event)
      requires Valid() && id < n
      ensures e in events && e.id == id
      ensures e.index == idx || (e.index < idx && e == tails[id])
    {
      e := tails[id];
      while e.index > idx
        invariant e in events && e.id == id && (e.index >= idx || e == tails[id])
        decreases e.index
      {
        ParentIn(e);
        e := e.parent;
      }
    }

    lemma ParentIn(e: Event)
      requires Valid() && e in events && e.index > 0
      ensures e.Derived? && e.parent in events && e.parent.id == e.id && e.parent.index == e.index - 1
    {
      hide Anc, Round, IsWitness, RowsOk, SeesOk, RoundsOk, VerdictsOk, TailsOkFor, KnownOk, LastDecidedOk, DecidedMapOk;
      assert e.Derived? ==> e.parent in Parents(e);
    }

    lemma OnlyOne(e: Event, f: Event)
      requires Valid() && e in events && f in events && e.id == f.id && e.index == f.index
      ensures e == f
    {
      hide Anc, Round, IsWitness, RowsOk, SeesOk, RoundsOk, VerdictsOk, TailsOkFor, KnownOk, LastDecidedOk, DecidedMapOk, Dag;
    }

    lemma BelowTail(e: Event)
      requires Valid() && e in events
      ensures e.id < n && |tails| == n && e.index <= tails[e.id].index && tails[e.id] in events && tails[e.id].id == e.id
    {
      hide Readable, KnownOk, LastDecidedOk, DecidedMapOk;
    }

    /** The event a pointer refers to, if the graph holds it. */
    method FindPointer(p: EventPointer) returns (o: Option<Event>)
      requires Valid() && p.id < n
      ensures o.Some? ==> o.value in events && Pointer(o.value) == p
      ensures o.None? ==> forall e :: e in events ==> Pointer(e) != p
    {
      hide Valid;
      var e := EventAt(p.id, p.index);
      forall f | f in events && Pointer(f) == p ensures e == f {
        BelowTail(f);
        if e.index == p.index { OnlyOne(e, f); }
      }
      if e.index == p.index && p.hash == HashOf(e) {
        o := Some(e);
      } else {
        o := None;
      }
    }

    /** The events all remote pointers refer to, if the graph holds them all. */
    method FindRemotes(ps: seq<EventPointer>) returns (o: Option<seq<Event>>)
      requires Valid() && forall k :: 0 <= k < |ps| ==> ps[k].id < n
      ensures o.Some? ==> Pointers(o.value) == ps && forall e :: e in o.value ==> e in events
      ensures o.None? ==> forall es :: Pointers(es) == ps ==> exists e :: e in es && e !in events
    {
      hide Valid, Pointers;
      var found: seq<Event> := [];
      var k := 0;
      while k < |ps|
        invariant 0 <= k <= |ps| == |ps| && |found| == k
        invariant forall j :: 0 <= j < k ==> found[j] in events && Pointer(found[j]) == ps[j]
      {
        var e := FindPointer(ps[k]);
        if e.None? {
          forall es | Pointers(es) == ps ensures exists e :: e in es && e !in events {
            assert Pointer(es[k]) == ps[k];
            assert es[k] in es;
          }
          return None;
        }
        found := found + [e.value];
        k := k + 1;
      }
      o := Some(found);
      assert Pointers(found) == ps;
    }

    /** Adds the event described by `info`, or says why not.  A second, different event at an
        index of an identity is not handled. */
    method AddEvent(info: EventInfo, checkOnly: bool) returns (res: AddResult)
      requires Valid() && NoFork(events, info)
      requires |info.remotes| > 0 && forall k :: 0 <= k < |info.remotes| ==> info.remotes[k].id < n
      modifies this
      ensures Valid()
      ensures !Acceptable(n, info) ==> res.Failed? && Refused(info, res.error)
      ensures Acceptable(n, info) ==>
        if Present(old(events), info) then res == Failed(ErrEventExists)
        else if !CanAdd(n, old(events), info) then res == Failed(ErrPrevIndexNotFound)
        else if checkOnly then res == CheckedOnly
        else res.Added?
      ensures !res.Added? ==> unchanged(this)
      ensures res.Added? ==> Info(res.event) == info && Rooted(n, old(events), res.event)
      ensures res.Added? ==> res.event !in old(events) && events == old(events) + {res.event}
      ensures Final(old(wi), wi) && lastDecided >= old(lastDecided)
      ensures res.Added? && IsWitness(nmt, res.event) ==> Explored(n, nmt, events, wi, res.event)
      ensures Snapshots(old(decidedRoundMap), old(lastDecided), decidedRoundMap, lastDecided, tails)
    {
      hide *;
      SnapshotsSame(decidedRoundMap, lastDecided, tails);
      FinalSame(wi);
      var bad := Validate(info);
      if bad.Some? {
        return Failed(bad.value);
      }
      AcceptableMeans(info);
      var same := EventAt(info.local.id, info.local.index);
      if same.index == info.local.index && Info(same) == info {
        IsPresent(same, info);
        return Failed(ErrEventExists);
      }
      NotPresent(same, info);
      var prev := EventPointer(info.local.id, info.local.index - 1, info.local.hash);
      var local := FindPointer(prev);
      if local.None? {
        NoLocal(info, prev);
        return Failed(ErrPrevIndexNotFound);
      }
      var remotes := FindRemotes(info.remotes);
      if remotes.None? {
        NoRemotes(info);
        return Failed(ErrPrevIndexNotFound);
      }
      var ev := Derived(info.local.id, info.local.index, local.value, remotes.value, info.buff);
      Resolved(info, prev, local.value, remotes.value, ev);
      if checkOnly {
        return CheckedOnly;
      }
      Insert(ev, info);
      res := Added(ev);
    }

    lemma AcceptableMeans(info: EventInfo)
      requires Acceptable(n, info)
      ensures info.local.id < n && info.local.index > 0
    {
    }

    lemma IsPresent(e: Event, info: EventInfo)
      requires e in events && Info(e) == info
      ensures Present(events, info)
    {
    }

    lemma InfoFields(e: Event)
      ensures Info(e).local.id == e.id && Info(e).local.index == e.index
      ensures e.Derived? ==> Info(e).local.hash == HashOf(e.parent) && Info(e).remotes == Pointers(e.remotes) && Info(e).buff == e.buff
    {
    }

    lemma NotPresent(same: Event, info: EventInfo)
      requires Valid() && same in events && same.id == info.local.id
      requires same.index == info.local.index || (same.index < info.local.index && same == tails[same.id])
      requires !(same.index == info.local.index && Info(same) == info)
      ensures !Present(events, info)
    {
      hide Valid, Info;
      forall e | e in events ensures Info(e) != info {
        InfoFields(e);
        if Info(e) == info {
          BelowTail(e);
          if same.index == info.local.index { OnlyOne(e, same); }
        }
      }
    }

    lemma NoLocal(info: EventInfo, prev: EventPointer)
      requires info.local.index > 0 && prev == EventPointer(info.local.id, info.local.index - 1, info.local.hash)
      requires forall e :: e in events ==> Pointer(e) != prev
      ensures !CanAdd(n, events, info)
    {
      hide Info, Pointers;
      forall e | Rooted(n, events, e) ensures Info(e) != info {
        InfoFields(e);
        assert e.parent in Parents(e);
      }
    }

    lemma NoRemotes(info: EventInfo)
      requires forall es :: Pointers(es) == info.remotes ==> exists e :: e in es && e !in events
      ensures !CanAdd(n, events, info)
    {
      hide Info, Pointers, WellFormed;
      forall e | Rooted(n, events, e) ensures Info(e) != info {
        InfoFields(e);
        assert forall r :: r in e.remotes ==> r in Parents(e);
      }
    }

    lemma Resolved(info: EventInfo, prev: EventPointer, local: Event, remotes: seq<Event>, ev: Event)
      requires Acceptable(n, info) && prev == EventPointer(info.local.id, info.local.index - 1, info.local.hash)
      requires local in events && Pointer(local) == prev
      requires Pointers(remotes) == info.remotes && forall e :: e in remotes ==> e in events
      requires ev == Derived(info.local.id, info.local.index, local, remotes, info.buff)
      requires !Present(events, info)
      ensures Rooted(n, events, ev) && Info(ev) == info && ev !in events && CanAdd(n, events, info)
    {
      hide Pointers;
      assert Rooted(n, events, ev) && Info(ev) == info;
    }

    /** Makes `ev` the tail of its identity and fills all its columns. */
    method Insert(ev: Event, ghost info: EventInfo)
      requires Valid() && NoFork(events, info) && Info(ev) == info && ev !in events && Rooted(n, events, ev)
      requires !Present(events, info) && Acceptable(n, info) && |info.remotes| > 0
      modifies this
      ensures Valid() && events == old(events) + {ev}
      ensures Final(old(wi), wi) && lastDecided >= old(lastDecided) && (IsWitness(nmt, ev) ==> Explored(n, nmt, events, wi, ev))
      ensures Snapshots(old(decidedRoundMap), old(lastDecided), decidedRoundMap, lastDecided, tails)
    {
      hide *;
      RoomFor(ev, info);
      // the local ancestor is the tail, so no fork was found incorrectly
      assert tails[ev.id] == ev.parent;
      ValidParts();
      MoveTail(ev);
      ComputeWitness(ev);
      eventCount := eventCount + 1;
      KnownBelow(ev, old(events));
      ComputeKnownItem(ev);
      AdmittedToo(ev, info, old(events));
      AllValid(ev, old(events), old(known));
    }

    lemma RoomFor(ev: Event, info: EventInfo)
      requires Valid() && NoFork(events, info) && Info(ev) == info && ev !in events && Rooted(n, events, ev)
      requires !Present(events, info)
      ensures ev.Derived? && WellFormed(n, ev) && ev.id < n == |tails| && tails[ev.id] == ev.parent
      ensures ForkFree(events + {ev}) && Next(events, ev)
    {
      hide Valid, Info, Dag, ForkFree, Quorums;
      assert ev.parent in Parents(ev);
      InfoFields(ev);
      ValidGraph();
      BelowTail(ev.parent);
      var t := tails[ev.id];
      if t.index >= ev.index {
        TakenAt(ev.id, ev.index, t);
      } else {
        OnlyOne(t, ev.parent);
      }
      NoForkAfter(ev, info);
    }

    lemma ValidGraph()
      requires Valid()
      ensures Dag(n, events) && ForkFree(events) && Quorums(n, nmt) && |tails| == n
    {
      hide Anc, Round, IsWitness, RowsOk, SeesOk, RoundsOk, VerdictsOk, KnownOk, LastDecidedOk, DecidedMapOk, Dag, ForkFree;
    }

    lemma NoForkAfter(ev: Event, info: EventInfo)
      requires ForkFree(events) && NoFork(events, info) && Info(ev) == info && !Present(events, info)
      ensures ForkFree(events + {ev})
    {
      hide Info;
      InfoFields(ev);
    }

    lemma AdmittedToo(ev: Event, info: EventInfo, S: set<Event>)
      requires AllAdmitted(n, S) && Acceptable(n, info) && |info.remotes| > 0 && Info(ev) == info && events == S + {ev}
      ensures AllAdmitted(n, events)
    {
      hide Acceptable, Info;
      InfoFields(ev);
    }

    lemma ValidParts()
      requires Valid()
      ensures Readable() && LastDecidedOk() && DecidedMapOk() && TailsOkFor(events) && KnownOk(n, events, known)
      ensures mark == map[] && seen == [] && eventCount == |events| && |tails| == n && AllAdmitted(n, events)
    {
      hide Readable, LastDecidedOk, DecidedMapOk, KnownOk, AllAdmitted;
    }

    method MoveTail(ev: Event)
      requires TailsOkFor(events) && DecidedMapOk() && ev.Derived? && WellFormed(n, ev) && tails[ev.id] == ev.parent
      modifies this`tails
      ensures TailsOkFor(events + {ev}) && DecidedMapOk()
    {
      tails := tails[ev.id := ev];
      assert forall r :: r in decidedRoundMap ==> AtMostTails(decidedRoundMap[r]) by {
        forall r | r in decidedRoundMap ensures AtMostTails(decidedRoundMap[r]) {
          assert old(AtMostTails(decidedRoundMap[r]));
        }
      }
    }

    lemma KnownBelow(ev: Event, S: set<Event>)
      requires KnownOk(n, S, known) && Readable() && events == S + {ev} && Rooted(n, S, ev)
      ensures Dag(n, events) && ev in events && known.Keys <= events
      ensures forall e :: e in known ==> IsKnownVector(n, e, known[e])
      ensures forall p :: p in Parents(ev) && p.Derived? ==> p in known
    {
      hide Anc, IsKnownVector, IsWitness, RowsOk, SeesOk, RoundsOk, VerdictsOk;
    }

    lemma AllValid(ev: Event, S: set<Event>, known0: map<Event, Slots>)
      requires events == S + {ev} && ev !in S && eventCount == |S| + 1
      requires Readable() && TailsOk() && LastDecidedOk() && DecidedMapOk() && mark == map[] && seen == []
      requires KnownOk(n, S, known0) && ev in known && IsKnownVector(n, ev, known[ev]) && known == known0[ev := known[ev]]
      requires AllAdmitted(n, events)
      ensures Valid()
    {
      hide Readable, TailsOk, LastDecidedOk, DecidedMapOk, IsKnownVector, AllAdmitted;
    }

    // ----- Adding what another node sent -----

    /** The received events are ones AddEvent can be asked to add, and fork with nothing. */
    ghost predicate Compatible(D: set<Event>, infos: seq<EventInfo>) {
      && (forall a :: a in infos && a.local.id < n ==> Askable(D, a))
      && forall a, b :: a in infos && b in infos && a.local.id == b.local.id && a.local.index == b.local.index ==> a == b
    }

    ghost predicate Askable(D: set<Event>, a: EventInfo) {
      NoFork(D, a) && |a.remotes| > 0 && forall k :: 0 <= k < |a.remotes| ==> a.remotes[k].id < n
    }

    /** Where the received events are: added, refused, or still in the lists. */
    ghost predicate Sorting(E: set<Event>, D: set<Event>, infos: seq<EventInfo>, added: seq<Event>, all: seq<seq<EventInfo>>, invalid: seq<EventInfo>) {
      && Listed(all)
      && multiset(infos) == multiset(InfosOf(added)) + multiset(invalid) + Union(all)
      && E == D + (set e | e in added) && (forall e :: e in added ==> e !in D)
      && (forall a :: a in invalid ==> !Acceptable(n, a) || Present(E, a))
      && Compatible(E, infos)
    }

    ghost predicate Listed(all: seq<seq<EventInfo>>) {
      |all| == n && forall i :: 0 <= i < n ==> SortedByIndex(all[i]) && forall a :: a in all[i] ==> a.local.id == i
    }

    /** Nothing at the head of a list can be added. */
    ghost predicate Blocked(all: seq<seq<EventInfo>>)
      reads this`events
    {
      |all| == n && forall i :: 0 <= i < n && all[i] != [] ==> Waits(events, all[i][0])
    }

    ghost predicate Waits(D: set<Event>, a: EventInfo) {
      Acceptable(n, a) && !Present(D, a) && !CanAdd(n, D, a)
    }

    /** Sorts the received events into one list per identity. */
    method Distribute(infos: seq<EventInfo>) returns (all: seq<seq<EventInfo>>, invalid: seq<EventInfo>)
      requires Compatible(events, infos)
      ensures Sorting(events, events, infos, [], all, invalid)
    {
      hide Acceptable, Present, Askable, CanAdd, Compatible, Union, SortedByIndex, Sort, Sorting;
      all, invalid := PerIdentity(infos);
      var i := 0;
      while i < n
        invariant 0 <= i <= n == |all|
        invariant multiset(infos) == multiset(invalid) + Union(all)
        invariant forall i, a :: 0 <= i < n && a in all[i] ==> a.local.id == i
        invariant forall j :: 0 <= j < i ==> SortedByIndex(all[j])
      {
        SortSorts(all[i]);
        UnionSame(all, i, Sort(all[i]));
        assert forall a :: a in Sort(all[i]) ==> a in multiset(all[i]);
        all := all[i := Sort(all[i])];
        i := i + 1;
      }
      Distributed(infos, all, invalid);
    }

    method PerIdentity(infos: seq<EventInfo>) returns (all: seq<seq<EventInfo>>, invalid: seq<EventInfo>)
      ensures |all| == n && multiset(infos) == multiset(invalid) + Union(all)
      ensures forall i, a :: 0 <= i < n && a in all[i] ==> a.local.id == i
      ensures forall a :: a in invalid ==> a.local.id >= n
    {
      hide Union;
      all, invalid := Empties(n), [];
      var k := 0;
      while k < |infos|
        invariant 0 <= k <= |infos| && |all| == n
        invariant multiset(infos[..k]) == multiset(invalid) + Union(all)
        invariant forall i, a :: 0 <= i < n && a in all[i] ==> a.local.id == i
        invariant forall a :: a in invalid ==> a.local.id >= n
      {
        var nxt := infos[k];
        assert infos[..k + 1] == infos[..k] + [nxt];
        if nxt.local.id >= n {
          invalid := invalid + [nxt];
        } else {
          UnionAppend(all, nxt.local.id, nxt);
          all := all[nxt.local.id := all[nxt.local.id] + [nxt]];
        }
        k := k + 1;
      }
      assert infos[..k] == infos;
    }

    lemma Distributed(infos: seq<EventInfo>, all: seq<seq<EventInfo>>, invalid: seq<EventInfo>)
      requires Compatible(events, infos) && |all| == n
      requires multiset(infos) == multiset(invalid) + Union(all)
      requires forall i, a :: 0 <= i < n && a in all[i] ==> a.local.id == i
      requires forall i :: 0 <= i < n ==> SortedByIndex(all[i])
      requires forall a :: a in invalid ==> a.local.id >= n
      ensures Sorting(events, events, infos, [], all, invalid)
    {
      hide Present, Askable, CanAdd, SortedByIndex;
      var none: seq<Event> := [];
      assert multiset(InfosOf(none)) == multiset{};
      assert events + (set e | e in none) == events;
    }

    method AddEvents(infos: seq<EventInfo>) returns (added: seq<Event>, remainder: seq<EventInfo>, invalid: seq<EventInfo>)
      requires Valid() && Compatible(events, infos)
      modifies this
      ensures Valid()
      ensures multiset(infos) == multiset(InfosOf(added)) + multiset(invalid) + multiset(remainder)
      ensures events == old(events) + (set e | e in added) && forall e :: e in added ==> e !in old(events)
      ensures forall a :: a in invalid ==> !Acceptable(n, a) || Present(events, a)
      ensures forall a :: a in remainder ==> !Present(events, a) && !CanAdd(n, events, a)
      ensures Supplied(old(events), infos) ==> remainder == []
      ensures InOrder(old(events), added)
      ensures Final(old(wi), wi) && lastDecided >= old(lastDecided)
    {
      hide *;
      added := [];
      NoneInOrder(events);
      FinalSame(wi);
      var all;
      all, invalid := Distribute(infos);
      var errorCount := 0;
      SortingShape(old(events), infos, added, all, invalid);
      if n == 0 { NothingBlocked(all); }
      while errorCount < n
        invariant Valid() && Sorting(events, old(events), infos, added, all, invalid) && |all| == n
        invariant 0 <= errorCount <= n && InOrder(old(events), added)
        invariant Final(old(wi), wi) && lastDecided >= old(lastDecided)
        invariant errorCount == n ==> Blocked(all)
        decreases Size(all), n - errorCount
      {
        ghost var infos0 := wi;
        added, all, invalid, errorCount := OnePass(old(events), infos, added, all, invalid);
        FinalTwice(old(wi), infos0, wi);
      }
      remainder := Concat(all);
      Split(old(events), infos, added, all, invalid, remainder);
      forall a | a in remainder ensures !Present(events, a) && !CanAdd(n, events, a) {
        NotAddable(old(events), infos, added, all, invalid, remainder, a);
      }
      if Supplied(old(events), infos) {
        NothingLeft(old(events), infos, added, all, invalid, remainder);
      }
    }

    /** Every received event is acceptable, and its direct ancestors are in the graph or received. */
    ghost predicate Supplied(D: set<Event>, infos: seq<EventInfo>) {
      forall a :: a in infos ==> Acceptable(n, a) && exists e :: SuppliedBy(D, infos, a, e)
    }

    ghost predicate SuppliedBy(D: set<Event>, infos: seq<EventInfo>, a: EventInfo, e: Event) {
      Info(e) == a && e.Derived? && WellFormed(n, e) && forall p :: p in Parents(e) ==> p in D || Info(p) in infos
    }

    /** What is left over is not in the graph and cannot be added to it. */
    lemma NotAddable(D: set<Event>, infos: seq<EventInfo>, added: seq<Event>, all: seq<seq<EventInfo>>, invalid: seq<EventInfo>, remainder: seq<EventInfo>, a: EventInfo)
      requires Valid() && Sorting(events, D, infos, added, all, invalid) && Blocked(all)
      requires |all| == n && multiset(remainder) == Union(all) && a in remainder
      ensures !Present(events, a) && !CanAdd(n, events, a)
    {
      hide Valid, Sorting, Blocked, Union, Info;
      assert a in multiset(remainder);
      UnionMembers(all, a);
      var i :| 0 <= i < n && a in all[i];
      HeadWaits(all, i);
      forall e | Info(e) == a ensures e !in events && !Rooted(n, events, e) {
        if Rooted(n, events, e) { StillWaiting(D, infos, added, all, invalid, i, e); }
        if e in events { StillTaken(D, infos, added, all, invalid, i, e); }
      }
    }

    lemma StillTaken(D: set<Event>, infos: seq<EventInfo>, added: seq<Event>, all: seq<seq<EventInfo>>, invalid: seq<EventInfo>, i: nat, e: Event)
      requires Valid() && Sorting(events, D, infos, added, all, invalid)
      requires i < n && i < |all| && Info(e) in all[i] && e in events
      ensures !Waits(events, all[i][0])
    {
      hide Valid, Info, Acceptable, Present, CanAdd, InfosOf, Union, Compatible, Waits;
      var h := all[i][0];
      Received(D, infos, added, all, invalid, i, h);
      Received(D, infos, added, all, invalid, i, Info(e));
      InfoFields(e);
      assert SortedByIndex(all[i]);
      IndexTaken(h, e);
    }

    lemma SortingShape(D: set<Event>, infos: seq<EventInfo>, added: seq<Event>, all: seq<seq<EventInfo>>, invalid: seq<EventInfo>)
      requires Sorting(events, D, infos, added, all, invalid)
      ensures |all| == n
    {
    }

    lemma NothingBlocked(all: seq<seq<EventInfo>>)
      requires n == 0 && |all| == 0
      ensures Blocked(all)
    {
    }

    lemma Split(D: set<Event>, infos: seq<EventInfo>, added: seq<Event>, all: seq<seq<EventInfo>>, invalid: seq<EventInfo>, remainder: seq<EventInfo>)
      requires Sorting(events, D, infos, added, all, invalid) && multiset(remainder) == Union(all)
      ensures multiset(infos) == multiset(InfosOf(added)) + multiset(invalid) + multiset(remainder)
      ensures events == D + (set e | e in added) && forall e :: e in added ==> e !in D
      ensures forall a :: a in invalid ==> !Acceptable(n, a) || Present(events, a)
    {
      hide Acceptable, Present, Askable, SortedByIndex;
    }

    /** Tries the oldest remaining event of every identity once. */
    method OnePass(ghost D: set<Event>, ghost infos: seq<EventInfo>, added0: seq<Event>, all0: seq<seq<EventInfo>>, invalid0: seq<EventInfo>)
      returns (added: seq<Event>, all: seq<seq<EventInfo>>, invalid: seq<EventInfo>, errorCount: nat)
      requires Valid() && Sorting(events, D, infos, added0, all0, invalid0) && |all0| == n && n > 0 && InOrder(D, added0)
      modifies this
      ensures Valid() && Sorting(events, D, infos, added, all, invalid) && |all| == n && InOrder(D, added)
      ensures Final(old(wi), wi) && lastDecided >= old(lastDecided)
      ensures errorCount <= n
      ensures errorCount == n ==> Blocked(all) && all == all0
      ensures errorCount < n ==> Size(all) < Size(all0)
      ensures Size(all) <= Size(all0)
    {
      hide *;
      added, all, invalid, errorCount := added0, all0, invalid0, 0;
      BlockedNone(all);
      FinalSame(wi);
      var i := 0;
      while i < n
        invariant 0 <= i <= n == |all| && errorCount <= i
        invariant Valid() && Sorting(events, D, infos, added, all, invalid) && InOrder(D, added)
        invariant Final(old(wi), wi) && lastDecided >= old(lastDecided)
        invariant errorCount == i ==> all == all0 && BlockedBelow(all, i)
        invariant errorCount < i ==> Size(all) < Size(all0)
        invariant Size(all) <= Size(all0)
      {
        if |all[i]| == 0 {
          if errorCount == i { BlockedSkip(all, i); }
          errorCount := errorCount + 1;
        } else {
          HeadAskable(D, infos, added, all, invalid, i);
          ghost var D0, infos0 := events, wi;
          var res := AddEvent(all[i][0], false);
          FinalTwice(old(wi), infos0, wi);
          AddCases(all[i][0], D0, res);
          if res == Failed(ErrPrevIndexNotFound) {
            if errorCount == i { BlockedHead(all, i); }
            errorCount := errorCount + 1;
          } else {
            SizeTail(all, i);
            if res.Added? {
              OneInOrder(D, infos, added, all, invalid, res.event, D0);
              AfterAdd(D, infos, added, all, invalid, i, res.event, D0);
              added := added + [res.event];
            } else {
              AfterRefusal(D, infos, added, all, invalid, i, D0);
              invalid := invalid + [all[i][0]];
            }
            all := all[i := all[i][1..]];
          }
        }
        i := i + 1;
      }
      BlockedAll(all);
    }

    /** Each event is new when it is added, and its direct ancestors were there before it. */
    ghost predicate InOrder(D: set<Event>, added: seq<Event>) {
      forall k :: 0 <= k < |added| ==> NewAt(D, added, k)
    }

    ghost predicate NewAt(D: set<Event>, added: seq<Event>, k: nat)
      requires k < |added|
    {
      added[k] !in D && added[k] !in added[..k] && forall p :: p in Parents(added[k]) ==> p in D || p in added[..k]
    }

    lemma NoneInOrder(D: set<Event>)
      ensures InOrder(D, [])
    {
    }

    lemma OneInOrder(D: set<Event>, infos: seq<EventInfo>, added: seq<Event>, all: seq<seq<EventInfo>>, invalid: seq<EventInfo>, e: Event, D0: set<Event>)
      requires InOrder(D, added) && Sorting(D0, D, infos, added, all, invalid) && Valid() && e !in D0 && events == D0 + {e}
      ensures InOrder(D, added + [e])
    {
      hide *;
      OriginOf(D, infos, added, all, invalid, D0);
      ParentsThere(e, D0);
      OrderAppend(D, added, e);
    }

    lemma OriginOf(D: set<Event>, infos: seq<EventInfo>, added: seq<Event>, all: seq<seq<EventInfo>>, invalid: seq<EventInfo>, D0: set<Event>)
      requires Sorting(D0, D, infos, added, all, invalid)
      ensures forall x :: x in D0 <==> x in D || x in added
    {
      hide Acceptable, Present, Compatible, Listed, InfosOf, Union, Info;
    }

    lemma ParentsThere(e: Event, D0: set<Event>)
      requires Valid() && e !in D0 && events == D0 + {e}
      ensures forall p :: p in Parents(e) ==> p in D0
    {
      hide *;
      DagNow();
      NotOwn(e, D0);
    }

    lemma DagNow()
      requires Valid()
      ensures Dag(n, events)
    {
      hide Dag, VerdictsOk, RowsOk, SeesOk, RoundsOk;
    }

    lemma NotOwn(e: Event, D0: set<Event>)
      requires Dag(n, events) && events == D0 + {e}
      ensures forall p :: p in Parents(e) ==> p in D0
    {
      forall p | p in Parents(e) ensures p != e { assert p < e; }
    }

    lemma OrderAppend(D: set<Event>, added: seq<Event>, e: Event)
      requires InOrder(D, added) && e !in D && e !in added && forall p :: p in Parents(e) ==> p in D || p in added
      ensures InOrder(D, added + [e])
    {
      var more := added + [e];
      forall k | 0 <= k < |more| ensures NewAt(D, more, k) {
        if k < |added| {
          assert NewAt(D, added, k) && more[..k] == added[..k];
        } else {
          assert more[..k] == added;
        }
      }
    }

    ghost predicate BlockedBelow(all: seq<seq<EventInfo>>, i: nat)
      reads this`events
    {
      |all| == n && forall j :: 0 <= j < i && j < n && all[j] != [] ==> Waits(events, all[j][0])
    }

    lemma BlockedNone(all: seq<seq<EventInfo>>)
      requires |all| == n
      ensures BlockedBelow(all, 0)
    {
    }

    lemma BlockedSkip(all: seq<seq<EventInfo>>, i: nat)
      requires BlockedBelow(all, i) && i < n && all[i] == []
      ensures BlockedBelow(all, i + 1)
    {
      hide Waits;
    }

    lemma BlockedHead(all: seq<seq<EventInfo>>, i: nat)
      requires BlockedBelow(all, i) && i < n && all[i] != [] && Waits(events, all[i][0])
      ensures BlockedBelow(all, i + 1)
    {
      hide Waits;
    }

    lemma BlockedAll(all: seq<seq<EventInfo>>)
      ensures BlockedBelow(all, n) ==> Blocked(all)
    {
      hide Waits;
    }

    /** An event still in a list was received. */
    lemma Received(D: set<Event>, infos: seq<EventInfo>, added: seq<Event>, all: seq<seq<EventInfo>>, invalid: seq<EventInfo>, i: nat, a: EventInfo)
      requires Sorting(events, D, infos, added, all, invalid) && i < n && a in all[i]
      ensures a in infos && a.local.id == i && Askable(events, a)
    {
      hide Acceptable, Present, Askable, SortedByIndex, InfosOf;
      UnionMembers(all, a);
      assert a in multiset(infos);
    }

    lemma HeadAskable(D: set<Event>, infos: seq<EventInfo>, added: seq<Event>, all: seq<seq<EventInfo>>, invalid: seq<EventInfo>, i: nat)
      requires Sorting(events, D, infos, added, all, invalid) && i < n == |all| && all[i] != []
      ensures all[i][0] in infos && NoFork(events, all[i][0]) && |all[i][0].remotes| > 0
      ensures forall k :: 0 <= k < |all[i][0].remotes| ==> all[i][0].remotes[k].id < n
    {
      hide Sorting;
      Received(D, infos, added, all, invalid, i, all[i][0]);
    }

    /** The outcomes of adding an event that was received. */
    lemma AddCases(a: EventInfo, D0: set<Event>, res: AddResult)
      requires !Acceptable(n, a) ==> res.Failed? && Refused(a, res.error)
      requires Acceptable(n, a) ==>
        if Present(D0, a) then res == Failed(ErrEventExists)
        else if !CanAdd(n, D0, a) then res == Failed(ErrPrevIndexNotFound)
        else res.Added?
      ensures res == Failed(ErrPrevIndexNotFound) ==> Waits(D0, a)
      ensures res != Failed(ErrPrevIndexNotFound) && !res.Added? ==> !Acceptable(n, a) || Present(D0, a)
    {
      hide Acceptable, Present, CanAdd;
    }


    lemma AfterAdd(D: set<Event>, infos: seq<EventInfo>, added: seq<Event>, all: seq<seq<EventInfo>>, invalid: seq<EventInfo>, i: nat, e: Event, D0: set<Event>)
      requires Sorting(D0, D, infos, added, all, invalid) && i < n && |all| == n && all[i] != [] && all[i][0] in infos
      requires Info(e) == all[i][0] && e !in D0 && events == D0 + {e}
      ensures Sorting(events, D, infos, added + [e], all[i := all[i][1..]], invalid)
    {
      hide Acceptable, Present, Compatible, Listed, InfosOf, Union, Info;
      var h := all[i][0];
      InfosAppend(added, e);
      UnionTail(all, i);
      ListedTail(all, i);
      assert multiset(InfosOf(added + [e])) == multiset(InfosOf(added)) + multiset{h};
      assert multiset(InfosOf(added)) + multiset{h} + multiset(invalid) + Union(all[i := all[i][1..]])
          == multiset(InfosOf(added)) + multiset(invalid) + (Union(all[i := all[i][1..]]) + multiset{h});
      forall a | a in invalid && Present(D0, a) ensures Present(events, a) {
        PresentGrows(D0, events, a);
      }
      CompatibleGrows(D0, infos, e);
    }

    lemma AfterRefusal(D: set<Event>, infos: seq<EventInfo>, added: seq<Event>, all: seq<seq<EventInfo>>, invalid: seq<EventInfo>, i: nat, D0: set<Event>)
      requires Sorting(D0, D, infos, added, all, invalid) && i < n && |all| == n && all[i] != [] && events == D0
      requires !Acceptable(n, all[i][0]) || Present(D0, all[i][0])
      ensures Sorting(events, D, infos, added, all[i := all[i][1..]], invalid + [all[i][0]])
    {
      hide Acceptable, Present, Compatible, Listed, InfosOf, Union, Info;
      var h := all[i][0];
      UnionTail(all, i);
      ListedTail(all, i);
      assert multiset(invalid + [h]) == multiset(invalid) + multiset{h};
      assert multiset(InfosOf(added)) + (multiset(invalid) + multiset{h}) + Union(all[i := all[i][1..]])
          == multiset(InfosOf(added)) + multiset(invalid) + (Union(all[i := all[i][1..]]) + multiset{h});
    }

    lemma ListedTail(all: seq<seq<EventInfo>>, i: nat)
      requires Listed(all) && i < n && all[i] != []
      ensures Listed(all[i := all[i][1..]])
    {
    }

    lemma PresentGrows(D: set<Event>, E: set<Event>, a: EventInfo)
      requires Present(D, a) && D <= E
      ensures Present(E, a)
    {
    }

    lemma CompatibleGrows(D0: set<Event>, infos: seq<EventInfo>, e: Event)
      requires Compatible(D0, infos) && Info(e) in infos
      ensures Compatible(D0 + {e}, infos)
    {
      hide Info;
      InfoFields(e);
    }

    /** If the heads all wait although everything was supplied, then every received event is in
        the graph, so nothing waits. */
    lemma NothingLeft(D: set<Event>, infos: seq<EventInfo>, added: seq<Event>, all: seq<seq<EventInfo>>, invalid: seq<EventInfo>, remainder: seq<EventInfo>)
      requires Valid() && Sorting(events, D, infos, added, all, invalid) && Blocked(all)
      requires Supplied(D, infos) && multiset(remainder) == Union(all) && |all| == n
      ensures remainder == []
    {
      hide *;
      if remainder != [] {
        ListNotEmpty(all, remainder);
        var i :| 0 <= i < n && i < |all| && all[i] != [];
        Received(D, infos, added, all, invalid, i, all[i][0]);
        HeadWaits(all, i);
        SuppliedMeans(D, infos, all[i][0]);
        var e :| SuppliedBy(D, infos, all[i][0], e);
        SuppliedInfo(D, infos, all[i][0], e);
        Arrived(D, infos, added, all, invalid, e);
        WaitsAbsent(all[i][0], e);
      }
    }

    lemma ListNotEmpty(all: seq<seq<EventInfo>>, remainder: seq<EventInfo>)
      requires multiset(remainder) == Union(all) && remainder != [] && |all| == n
      ensures exists i :: 0 <= i < n && i < |all| && all[i] != []
    {
      hide Union;
      assert remainder[0] in multiset(remainder);
      UnionMembers(all, remainder[0]);
    }

    lemma HeadWaits(all: seq<seq<EventInfo>>, i: nat)
      requires Blocked(all) && i < n && i < |all| && all[i] != []
      ensures Waits(events, all[i][0])
    {
      hide Waits;
    }

    lemma WaitsAbsent(a: EventInfo, e: Event)
      requires Waits(events, a) && Info(e) == a
      ensures e !in events
    {
      hide Acceptable, CanAdd;
    }

    lemma SuppliedMeans(D: set<Event>, infos: seq<EventInfo>, a: EventInfo)
      requires Supplied(D, infos) && a in infos
      ensures Acceptable(n, a) && exists e :: SuppliedBy(D, infos, a, e)
    {
      hide Acceptable, SuppliedBy;
    }

    lemma SuppliedInfo(D: set<Event>, infos: seq<EventInfo>, a: EventInfo, e: Event)
      requires SuppliedBy(D, infos, a, e)
      ensures Info(e) == a && e.Derived? && WellFormed(n, e) && forall p :: p in Parents(e) ==> p in D || Info(p) in infos
    {
    }

    /** Every event that was received is in the graph. */
    lemma {:induction false} Arrived(D: set<Event>, infos: seq<EventInfo>, added: seq<Event>, all: seq<seq<EventInfo>>, invalid: seq<EventInfo>, e: Event)
      requires Valid() && Sorting(events, D, infos, added, all, invalid) && Blocked(all) && Supplied(D, infos)
      requires Info(e) in infos
      ensures e in events
      decreases e
    {
      hide Valid, Sorting, Blocked, Supplied, Info, SuppliedBy, Acceptable, WellFormed;
      SuppliedMeans(D, infos, Info(e));
      var f :| SuppliedBy(D, infos, Info(e), f);
      SuppliedInfo(D, infos, Info(e), f);
      InfoInjective(e, f);
      forall p | p in Parents(e) ensures p in events {
        if p in D {
          OldStays(D, infos, added, all, invalid, p);
        } else {
          Arrived(D, infos, added, all, invalid, p);
        }
      }
      if e !in events {
        Whereabouts(D, infos, added, all, invalid, Info(e), e);
        var i :| 0 <= i < n && i < |all| && Info(e) in all[i];
        StillWaiting(D, infos, added, all, invalid, i, e);
        HeadWaits(all, i);
      }
    }

    lemma OldStays(D: set<Event>, infos: seq<EventInfo>, added: seq<Event>, all: seq<seq<EventInfo>>, invalid: seq<EventInfo>, p: Event)
      requires Sorting(events, D, infos, added, all, invalid) && p in D
      ensures p in events
    {
      hide Acceptable, Present, Compatible, Listed, InfosOf, Union;
    }

    /** A received event that is not in the graph is still in a list. */
    lemma Whereabouts(D: set<Event>, infos: seq<EventInfo>, added: seq<Event>, all: seq<seq<EventInfo>>, invalid: seq<EventInfo>, a: EventInfo, e: Event)
      requires Sorting(events, D, infos, added, all, invalid) && a in infos && Acceptable(n, a) && Info(e) == a && e !in events
      ensures |all| == n && exists i :: 0 <= i < n && i < |all| && a in all[i]
    {
      hide Acceptable, Compatible, Union, Info, SortedByIndex;
      assert a in multiset(infos);
      if a in multiset(InfosOf(added)) {
        var k :| 0 <= k < |added| && InfosOf(added)[k] == a;
        InfoInjective(added[k], e);
      }
      if a in invalid {
        var f :| f in events && Info(f) == a;
        InfoInjective(f, e);
      }
      assert a in Union(all);
      UnionMembers(all, a);
    }

    /** The head of a list cannot wait while a later event of the list has all its ancestors. */
    lemma StillWaiting(D: set<Event>, infos: seq<EventInfo>, added: seq<Event>, all: seq<seq<EventInfo>>, invalid: seq<EventInfo>, i: nat, e: Event)
      requires Valid() && Sorting(events, D, infos, added, all, invalid)
      requires i < n && i < |all| && Info(e) in all[i] && Rooted(n, events, e)
      ensures !Waits(events, all[i][0])
    {
      hide Valid, Info, Acceptable, Present, CanAdd, InfosOf, Union, Compatible, Waits;
      var h := all[i][0];
      Received(D, infos, added, all, invalid, i, h);
      Received(D, infos, added, all, invalid, i, Info(e));
      InfoFields(e);
      assert SortedByIndex(all[i]);
      assert h.local.index <= e.index;
      if h.local.index == e.index {
        SameReceived(infos, h, Info(e));
        CanStillAdd(h, e);
      } else {
        assert e.parent in Parents(e);
        IndexTaken(h, e.parent);
      }
    }

    lemma SameReceived(infos: seq<EventInfo>, a: EventInfo, b: EventInfo)
      requires Compatible(events, infos) && a in infos && b in infos && a.local.id == b.local.id && a.local.index == b.local.index
      ensures a == b
    {
      hide Askable;
    }

    lemma CanStillAdd(h: EventInfo, e: Event)
      requires Info(e) == h && Rooted(n, events, e)
      ensures !Waits(events, h)
    {
      hide Acceptable, Present, Info;
    }

    lemma IndexTaken(h: EventInfo, t: Event)
      requires Valid() && NoFork(events, h) && t in events && t.id == h.local.id && t.index >= h.local.index
      ensures !Waits(events, h)
    {
      hide Valid, Acceptable, CanAdd, Info;
      TakenAt(h.local.id, h.local.index, t);
    }

    /** If the chain of an identity reaches index `idx`, it has an event there. */
    lemma {:induction false} TakenAt(id: nat, idx: nat, t: Event)
      requires Valid() && t in events && t.id == id && t.index >= idx
      ensures exists e :: e in events && e.id == id && e.index == idx
      decreases t.index
    {
      hide Valid;
      if t.index > idx {
        ParentIn(t);
        TakenAt(id, idx, t.parent);
      }
    }

    // ----- What another node does not have -----

    /** `e` is an event of another identity that `from` does not reach; first events are never sent. */
    ghost predicate Missing(from: Event, e: Event)
      reads this`events
    {
      e in events && e.index > 0 && e.id != from.id && e !in Anc(from)
    }

    /** `ret` lists the missing events of identities below `i`, and those of `i` past index `idx`. */
    ghost predicate Gathered(from: Event, ret: seq<Event>, i: nat, idx: nat)
      reads this`events
    {
      && (forall j, k :: 0 <= j < k < |ret| ==> ret[j] != ret[k])
      && forall e :: e in ret <==> Missing(from, e) && (e.id < i || (e.id == i && e.index > idx))
    }

    ghost predicate GatheredBelow(from: Event, ret: seq<Event>, i: nat)
      reads this`events
    {
      && (forall j, k :: 0 <= j < k < |ret| ==> ret[j] != ret[k])
      && forall e :: e in ret <==> Missing(from, e) && e.id < i
    }

    /** The events to which there is no path from the latest event of `id`. */
    method ComputeDiffID(id: nat) returns (ret: seq<Event>)
      requires Valid() && id < n
      modifies this`known
      ensures Valid()
      ensures |tails| == n && tails[id] in events && tails[id].id == id
      ensures forall e :: e in events && e.id == id ==> e in Anc(tails[id])
      ensures forall j, k :: 0 <= j < k < |ret| ==> ret[j] != ret[k]
      ensures forall e :: e in ret <==> Missing(tails[id], e)
    {
      hide Valid, Anc, Missing;
      TailOf(id);
      ret := ComputeDiff(tails[id]);
    }

    lemma TailOf(id: nat)
      requires Valid() && id < n
      ensures |tails| == n && tails[id] in events && tails[id].id == id
      ensures forall e :: e in events && e.id == id ==> e in Anc(tails[id])
    {
      hide Valid, Anc, Dag, ForkFree;
      ValidGraph();
      FirstIn(id);
      BelowTail(Genesis(id, 0));
      forall e | e in events && e.id == id ensures e in Anc(tails[id]) {
        BelowTail(e);
        ChainAncestor(n, events, e, tails[id]);
      }
    }

    lemma FirstIn(id: nat)
      requires Valid() && id < n
      ensures Genesis(id, 0) in events
    {
      hide ColumnsOk, VerdictsOk, LastDecidedOk, DecidedMapOk, TailsOk, KnownOk, AllAdmitted;
    }

    method ComputeDiff(from: Event) returns (ret: seq<Event>)
      requires Valid() && from in events
      modifies this`known
      ensures Valid()
      ensures forall j, k :: 0 <= j < k < |ret| ==> ret[j] != ret[k]
      ensures forall e :: e in ret <==> Missing(from, e)
    {
      hide *;
      var v := KnownOf(from);
      ret := [];
      NoneGathered(from);
      var i := 0;
      while i < n
        invariant 0 <= i <= n && Valid()
        invariant GatheredBelow(from, ret, i)
      {
        TailOf(i);
        if i == from.id {
          SkipOwn(from, ret);
        } else {
          KnownLength(from, v);
          ret := CollectChain(from, v[i], i, ret);
        }
        i := i + 1;
      }
      AllGathered(from, ret);
    }

    /** The stored vector of `from`, filled in if it is not there yet. */
    method KnownOf(from: Event) returns (v: Slots)
      requires Valid() && from in events
      modifies this`known
      ensures Valid() && IsKnownVector(n, from, v)
    {
      hide *;
      ValidGraph();
      KnownReadable(from);
      ghost var known0 := known;
      ComputeKnownItem(from);
      v := known[from];
      StillKnown(from, known0);
      StillValid();
    }

    lemma KnownReadable(from: Event)
      requires Valid() && from in events
      ensures KnownOk(n, events, known) && known.Keys <= events
      ensures forall e :: e in known ==> IsKnownVector(n, e, known[e])
      ensures forall p :: p in Parents(from) && p.Derived? ==> p in known
    {
      hide IsKnownVector, ColumnsOk, VerdictsOk, LastDecidedOk, DecidedMapOk, TailsOk, Acceptable, Dag, AllAdmitted;
      ValidGraph();
      ParentsIn(from);
    }

    lemma ParentsIn(e: Event)
      requires Valid() && e in events
      ensures forall p :: p in Parents(e) ==> p in events
    {
      hide Valid;
      ValidGraph();
    }

    lemma StillKnown(from: Event, known0: map<Event, Slots>)
      requires KnownOk(n, events, known0) && from in events && from in known && IsKnownVector(n, from, known[from])
      requires known == known0[from := known[from]]
      ensures KnownOk(n, events, known)
    {
      hide IsKnownVector;
    }

    /** Only the stored vectors may have changed. */
    twostate lemma StillValid()
      requires old(Valid()) && KnownOk(n, events, known)
      requires events == old(events) && wi == old(wi) && round == old(round) && stronglySees == old(stronglySees)
      requires allWitnessMap == old(allWitnessMap) && allAncestorsDecided == old(allAncestorsDecided)
      requires tails == old(tails) && lastDecided == old(lastDecided) && decidedRoundMap == old(decidedRoundMap)
      requires mark == old(mark) && seen == old(seen) && eventCount == old(eventCount)
      ensures Valid()
    {
      hide ColumnsOk, VerdictsOk, KnownOk, AllAdmitted;
    }

    /** Only the rows of witnesses may have changed. */
    twostate lemma RowsOnly()
      requires old(Valid()) && Readable()
      requires events == old(events) && wi == old(wi) && known == old(known)
      requires tails == old(tails) && lastDecided == old(lastDecided) && decidedRoundMap == old(decidedRoundMap)
      requires mark == old(mark) && seen == old(seen) && eventCount == old(eventCount)
      ensures Valid()
    {
      hide Readable, KnownOk, AllAdmitted, RowsRise;
    }

    lemma NoneGathered(from: Event)
      ensures GatheredBelow(from, [], 0)
    {
    }

    lemma SkipOwn(from: Event, ret: seq<Event>)
      requires GatheredBelow(from, ret, from.id)
      ensures GatheredBelow(from, ret, from.id + 1)
    {
    }

    lemma AllGathered(from: Event, ret: seq<Event>)
      requires Valid() && GatheredBelow(from, ret, n)
      ensures forall j, k :: 0 <= j < k < |ret| ==> ret[j] != ret[k]
      ensures forall e :: e in ret <==> Missing(from, e)
    {
      hide Valid, Anc;
      forall e | e in events ensures e.id < n { BelowTail(e); }
    }

    lemma KnownLength(from: Event, v: Slots)
      requires IsKnownVector(n, from, v)
      ensures |v| == n && forall i :: 0 <= i < n ==> IsHighest(Anc(from), i, v[i])
    {
      hide IsHighest;
    }

    /** Walks the chain of identity `i` down from its tail to the highest event `from` reaches. */
    method CollectChain(from: Event, high: Option<Event>, i: nat, ret0: seq<Event>) returns (ret: seq<Event>)
      requires Valid() && i < n == |tails| && i != from.id && tails[i] in events && tails[i].id == i
      requires from in events && IsHighest(Anc(from), i, high) && GatheredBelow(from, ret0, i)
      ensures GatheredBelow(from, ret, i + 1)
    {
      hide Valid, Anc, Gathered, GatheredBelow, IsHighest;
      ret := ret0;
      var t := tails[i];
      StartChain(from, ret, i);
      while t.index > 0 && t !in ret && (high.None? || t.index > high.value.index)
        invariant t in events && t.id == i && Gathered(from, ret, i, t.index)
        decreases t.index
      {
        NotReached(from, high, i, t);
        OneMore(from, ret, i, t);
        ret := ret + [t];
        ParentIn(t);
        t := t.parent;
      }
      NotTwice(from, ret, i, t);
      ChainDone(from, high, ret, i, t);
    }

    lemma StartChain(from: Event, ret: seq<Event>, i: nat)
      requires Valid() && GatheredBelow(from, ret, i) && i < n == |tails| && tails[i].id == i
      ensures Gathered(from, ret, i, tails[i].index)
    {
      hide Valid, Anc;
      forall e | e in events ensures e.id == i ==> e.index <= tails[i].index { BelowTail(e); }
    }

    lemma NotReached(from: Event, high: Option<Event>, i: nat, t: Event)
      requires IsHighest(Anc(from), i, high) && t.id == i && (high.None? || t.index > high.value.index)
      ensures t !in Anc(from)
    {
    }

    lemma OneMore(from: Event, ret: seq<Event>, i: nat, t: Event)
      requires Valid() && Gathered(from, ret, i, t.index) && t in events && t.id == i && i != from.id
      requires t.index > 0 && t !in Anc(from)
      ensures Gathered(from, ret + [t], i, t.index - 1)
    {
      hide Valid, Anc;
      forall e | e in events && e.id == t.id && e.index == t.index ensures e == t {
        OnlyOne(e, t);
      }
    }

    lemma NotTwice(from: Event, ret: seq<Event>, i: nat, t: Event)
      requires Gathered(from, ret, i, t.index) && t.id == i
      ensures t !in ret
    {
    }

    lemma ChainDone(from: Event, high: Option<Event>, ret: seq<Event>, i: nat, t: Event)
      requires Valid() && from in events && IsHighest(Anc(from), i, high) && Gathered(from, ret, i, t.index) && t in events && t.id == i
      requires t.index == 0 || (high.Some? && t.index <= high.value.index)
      ensures GatheredBelow(from, ret, i + 1)
    {
      hide Valid, Anc, Dag, ForkFree;
      ValidGraph();
      DagClosed(n, events, from);
      forall e | Missing(from, e) && e.id == i ensures e.index > t.index {
        if t.index > 0 && e.index <= high.value.index {
          ChainAncestor(n, events, e, high.value);
          AncTransitive(high.value, from);
        }
      }
    }

    // ----- The events behind a decision -----

    /** The indices below those of the events that made round `r` decide. */
    ghost function LowRow(r: nat): seq<nat>
      reads this`decidedRoundMap, this`lastDecided
      requires lastDecided in decidedRoundMap
    {
      if r == 1 then Zeros(n) else if r > 1 && r - 1 in decidedRoundMap then decidedRoundMap[r - 1] else decidedRoundMap[lastDecided]
    }

    /** `e` was not there when round `r - 1` decided, and was when round `r` did, if it has. */
    ghost predicate DecidedWith(r: nat, e: Event)
      reads this`events, this`decidedRoundMap, this`lastDecided
      requires lastDecided in decidedRoundMap
    {
      && e in events && e.id < |LowRow(r)| && LowRow(r)[e.id] < e.index
      && (r in decidedRoundMap ==> e.id < |decidedRoundMap[r]| && e.index <= decidedRoundMap[r][e.id])
    }

    ghost predicate ListedBelow(r: nat, ret: seq<Event>, i: nat)
      reads this`events, this`decidedRoundMap, this`lastDecided
      requires lastDecided in decidedRoundMap
    {
      && (forall j, k :: 0 <= j < k < |ret| ==> ret[j] != ret[k])
      && forall e :: e in ret <==> DecidedWith(r, e) && e.id < i
    }

    ghost predicate ListedPast(r: nat, ret: seq<Event>, i: nat, idx: nat)
      reads this`events, this`decidedRoundMap, this`lastDecided
      requires lastDecided in decidedRoundMap
    {
      && (forall j, k :: 0 <= j < k < |ret| ==> ret[j] != ret[k])
      && forall e :: e in ret <==> DecidedWith(r, e) && (e.id < i || (e.id == i && e.index > idx))
    }

    /** The events that came between the decisions of round `r - 1` and of round `r`; for a round that
        has not decided, all since the last decision. */
    method GetDecisionEvents(r: nat) returns (ret: seq<Event>)
      requires Valid()
      ensures lastDecided in decidedRoundMap
      ensures forall j, k :: 0 <= j < k < |ret| ==> ret[j] != ret[k]
      ensures forall e :: e in ret <==> DecidedWith(r, e)
    {
      hide *;
      HasRows();
      var from := if r == 1 then Zeros(n) else if r > 1 && r - 1 in decidedRoundMap then decidedRoundMap[r - 1] else decidedRoundMap[lastDecided];
      var high: seq<nat>;
      if r in decidedRoundMap {
        high := decidedRoundMap[r];
      } else {
        high := TailIndices();
      }
      LowIs(r, from);
      HighIs(r, high);
      ret := [];
      NoneListed(r);
      var i := 0;
      while i < n
        invariant 0 <= i <= n && |tails| == |from| == |high| == n && ListedBelow(r, ret, i)
      {
        TailOf(i);
        ret := ListChain(r, from, high, i, ret);
        i := i + 1;
      }
      AllListed(r, ret);
    }

    lemma HasRows()
      requires Valid()
      ensures lastDecided in decidedRoundMap && |tails| == n && (forall r :: r in decidedRoundMap ==> |decidedRoundMap[r]| == n)
      ensures RowsRise(decidedRoundMap, n) && (forall r :: r in decidedRoundMap <==> 0 <= r <= lastDecided)
    {
      hide Readable, LastDecidedOk, KnownOk, AllAdmitted;
    }

    lemma LowIs(r: nat, from: seq<nat>)
      requires lastDecided in decidedRoundMap && (forall r :: r in decidedRoundMap ==> |decidedRoundMap[r]| == n)
      requires from == if r == 1 then Zeros(n) else if r > 1 && r - 1 in decidedRoundMap then decidedRoundMap[r - 1] else decidedRoundMap[lastDecided]
      ensures from == LowRow(r) && |from| == n
    {
    }

    lemma HighIs(r: nat, high: seq<nat>)
      requires Valid() && |high| == n
      requires if r in decidedRoundMap then high == decidedRoundMap[r] else |tails| == n && forall i :: 0 <= i < n ==> high[i] == tails[i].index
      ensures forall e :: e in events ==> e.id < n && (e.index <= high[e.id] <==> (r in decidedRoundMap ==> e.index <= decidedRoundMap[r][e.id]))
    {
      hide Valid;
      forall e | e in events ensures e.id < n && (r !in decidedRoundMap ==> e.index <= high[e.id]) { BelowTail(e); }
    }

    lemma NoneListed(r: nat)
      requires lastDecided in decidedRoundMap
      ensures ListedBelow(r, [], 0)
    {
    }

    lemma AllListed(r: nat, ret: seq<Event>)
      requires Valid() && lastDecided in decidedRoundMap && ListedBelow(r, ret, n)
      ensures forall j, k :: 0 <= j < k < |ret| ==> ret[j] != ret[k]
      ensures forall e :: e in ret <==> DecidedWith(r, e)
    {
      hide Valid, LowRow;
      forall e | e in events ensures e.id < n { BelowTail(e); }
    }

    /** Walks the chain of identity `i` down from its tail. */
    method ListChain(r: nat, from: seq<nat>, high: seq<nat>, i: nat, ret0: seq<Event>) returns (ret: seq<Event>)
      requires Valid() && lastDecided in decidedRoundMap && i < n == |tails| && tails[i] in events && tails[i].id == i
      requires |from| == |high| == n && from == LowRow(r) && (forall s :: s in decidedRoundMap ==> |decidedRoundMap[s]| == n)
      requires forall e :: e in events ==> e.id < n && (e.index <= high[e.id] <==> (r in decidedRoundMap ==> e.index <= decidedRoundMap[r][e.id]))
      requires ListedBelow(r, ret0, i)
      ensures ListedBelow(r, ret, i + 1)
    {
      hide Valid, ListedBelow, ListedPast, LowRow;
      ret := ret0;
      var t := tails[i];
      StartList(r, ret, i);
      while t.index > from[i]
        invariant t in events && t.id == i && ListedPast(r, ret, i, t.index)
        decreases t.index
      {
        ListOne(r, ret, i, t, t.index <= high[i]);
        if t.index > 0 && t.index <= high[i] {
          ret := ret + [t];
        }
        ParentIn(t);
        t := t.parent;
      }
      EndList(r, ret, i, t.index);
    }

    lemma StartList(r: nat, ret: seq<Event>, i: nat)
      requires Valid() && lastDecided in decidedRoundMap && i < n == |tails| && ListedBelow(r, ret, i)
      ensures ListedPast(r, ret, i, tails[i].index)
    {
      hide Valid, LowRow;
      forall e | e in events ensures e.id == i ==> e.index <= tails[i].index { BelowTail(e); }
    }

    lemma ListOne(r: nat, ret: seq<Event>, i: nat, t: Event, take: bool)
      requires Valid() && lastDecided in decidedRoundMap && ListedPast(r, ret, i, t.index) && t in events && t.id == i && t.index > 0
      requires i < |LowRow(r)| && t.index > LowRow(r)[i] && (r in decidedRoundMap ==> i < |decidedRoundMap[r]|)
      requires take <==> (r in decidedRoundMap ==> t.index <= decidedRoundMap[r][i])
      ensures ListedPast(r, if take then ret + [t] else ret, i, t.index - 1)
    {
      hide Valid, LowRow;
      forall e | e in events && e.id == t.id && e.index == t.index ensures e == t { OnlyOne(e, t); }
    }

    lemma EndList(r: nat, ret: seq<Event>, i: nat, idx: nat)
      requires lastDecided in decidedRoundMap && ListedPast(r, ret, i, idx) && i < |LowRow(r)| && idx <= LowRow(r)[i]
      ensures ListedBelow(r, ret, i + 1)
    {
      hide LowRow;
    }

    /** Every event past the first ones comes with exactly one round: a decided one, or the next. */
    lemma DecidedWithOne(e: Event) returns (r: nat)
      requires Valid() && e in events && e.index > 0
      ensures lastDecided in decidedRoundMap && 1 <= r <= lastDecided + 1 && DecidedWith(r, e)
      ensures forall s :: 1 <= s <= lastDecided + 1 && DecidedWith(s, e) ==> s == r
    {
      hide Valid;
      HasRows();
      BelowTail(e);
      r := 1;
      while r <= lastDecided && e.index > decidedRoundMap[r][e.id]
        invariant 1 <= r <= lastDecided + 1 && LowRow(r)[e.id] < e.index
      {
        r := r + 1;
      }
      forall s | 1 <= s <= lastDecided + 1 && DecidedWith(s, e) ensures s == r {
        OnlyRound(e, r, s);
        OnlyRound(e, s, r);
      }
    }

    /** The rows rise, so an event past one of them is past all before it. */
    lemma OnlyRound(e: Event, r: nat, s: nat)
      requires lastDecided in decidedRoundMap && RowsRise(decidedRoundMap, n) && (forall r :: r in decidedRoundMap <==> 0 <= r <= lastDecided)
      requires 1 <= r <= lastDecided + 1 && 1 <= s <= lastDecided + 1 && DecidedWith(r, e) && DecidedWith(s, e)
      ensures r >= s
    {
    }
  }

  function Firsts(n: nat): (s: seq<Event>)
    ensures |s| == n && forall i :: 0 <= i < n ==> s[i] == Genesis(i, 0)
    ensures forall e :: e in s <==> e.Genesis? && e.id < n && e.index == 0
  {
    if n == 0 then [] else Firsts(n - 1) + [Genesis(n - 1, 0)]
  }

  function FirstRow(n: nat): (row: Row)
    ensures |row| == n && forall i :: 0 <= i < n ==> row[i] == [Genesis(i, 0)]
  {
    if n == 0 then [] else FirstRow(n - 1) + [[Genesis(n - 1, 0)]]
  }
}
