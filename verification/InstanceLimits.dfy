/** A short run after which the started index is behind. */
module InstanceLimits {
  import opened Events
  import opened InstanceState

  /** When instances need others to complete, two decisions without a value, the second of which changes the
      members, leave the started index behind the one before the current index. */
  method StartedFallsBack() returns (win: Instances)
    ensures win.Valid() && win.needsConcurrent > 1 && win.startedIndex + 1 < win.localIndex
  {
    hide Instances.Valid, Instances.WindowOk, MachinesOk, Decided;
    win := new Instances(1, 0, 2, true);
    win.StartNext();
    win.StartNext();
    win.StartNext();
    assert 4 in win.ready;
    win.DoneIndex(Decision([], 0, None, false));
    ghost var d := Decision([], 1, Some(4), true);
    assert FirstKnown(d, 2, win.ready, 4) && NoneStored(win.proposalInfo, 2, 4);
    assert win.FallsBack(d);
    win.DoneIndex(Decision([], 1, Some(4), true));
  }
}
