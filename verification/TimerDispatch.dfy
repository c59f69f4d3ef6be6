/** Dispatching the expired timers of an event loop, with callbacks that call back
    into the loop, and whole runs of a loop. */
module TimerDispatch {
  import opened Options
  import opened Timespecs
  import opened TimerHeaps

  /** The heap's storage after some operations: same array or a new one, and the
      same timers, possibly with new ones behind them. */
  twostate predicate Extended(h: TimerHeap)
    reads h
  {
    && (h.data == old(h.data) || fresh(h.data))
    && old(h.sources) <= h.sources
    && forall i | old(|h.sources|) <= i < |h.sources| :: fresh(h.sources[i])
  }

  /** Whether every kernel call the operation may make succeeds. */
  predicate KernelOk(op: Op) {
    op.Update? ==> op.ok
  }

  /** One call a program or a callback makes on timers it still owns. */
  method Perform(h: TimerHeap, op: Op)
    requires h.Ready() && op.ClockSane()
    modifies h, h.data, h.sources`heapIdx, h.sources`deadline, h.sources`removed
    ensures h.Ready() && Extended(h)
    ensures h.Seen() == Apply(old(h.Seen()), op)
    ensures KernelOk(op) && old(h.synced) ==> h.synced
  {
    match op
    case Add(fdOk, allocOk) =>
      var _ := h.AddTimer(fdOk, allocOk);
    case Update(id, msDelay, now, ok) =>
      if id < |h.sources| && !h.sources[id].removed {
        var _ := h.UpdateTimer(h.sources[id], msDelay, now, ok);
      }
    case Remove(id, ok, allocOk) =>
      if id < |h.sources| && !h.sources[id].removed {
        h.RemoveTimer(h.sources[id], ok, allocOk);
      }
  }

  ghost predicate Sane(ops: seq<Op>) {
    forall i | 0 <= i < |ops| :: ops[i].ClockSane()
  }

  ghost predicate KernelAlwaysOk(ops: seq<Op>) {
    forall i | 0 <= i < |ops| :: KernelOk(ops[i])
  }

  ghost predicate AllOk(script: seq<seq<Op>>) {
    forall i | 0 <= i < |script| :: KernelAlwaysOk(script[i])
  }

  ghost predicate AllSane(script: seq<seq<Op>>) {
    forall i | 0 <= i < |script| :: Sane(script[i])
  }

  method PerformAll(h: TimerHeap, ops: seq<Op>)
    requires h.Ready() && Sane(ops)
    modifies h, h.data, h.sources`heapIdx, h.sources`deadline, h.sources`removed
    ensures h.Ready() && Extended(h)
    ensures h.Seen() == ApplyAll(old(h.Seen()), ops)
    ensures KernelAlwaysOk(ops) && old(h.synced) ==> h.synced
    decreases |ops|
  {
    if ops != [] {
      Perform(h, ops[0]);
      PerformAll(h, ops[1..]);
    }
  }

  // ---------- Callbacks ----------

  /** What the `n`-th callback does when it runs: any finite list of calls. */
  function Calls(script: seq<seq<Op>>, n: nat): seq<Op> {
    if n < |script| then script[n] else []
  }

  /** The timers due in this dispatch are taken in order; the callback of one that
      has been removed meanwhile is skipped, all others run and may edit the loop.
      The result is the loop afterwards and the timers whose callbacks ran. */
  function RunCallbacks(v: View, due: seq<nat>, script: seq<seq<Op>>): (View, seq<nat>)
    decreases |due|
  {
    if due == [] then (v, [])
    else
      var (mid, fired) := RunCallbacks(v, due[..|due| - 1], script);
      var t := due[|due| - 1];
      if t in mid.live then (ApplyAll(mid, Calls(script, |fired|)), fired + [t]) else (mid, fired)
  }

  /** The due timers are linked through `nextDue`, in order, ending in null. */
  ghost predicate Chain(head: Timer?, due: seq<Timer>)
    reads due
  {
    && head == (if due == [] then null else due[0])
    && forall i | 0 <= i < |due| :: due[i].nextDue == if i + 1 < |due| then due[i + 1] else null
  }

  ghost function Ids(due: seq<Timer>): (ids: seq<nat>)
    ensures |ids| == |due| && forall i | 0 <= i < |ids| :: ids[i] == due[i].id
  {
    seq(|due|, i requires 0 <= i < |due| => due[i].id)
  }

  /** What the user of a loop sees, if it is in order. */
  ghost function Held(h: TimerHeap): Option<View>
    reads h, h.data, h.sources
  {
    if h.Ready() then Some(h.Seen()) else None
  }

  lemma OneCallback(v0: View, due: seq<nat>, k: nat, script: seq<seq<Op>>, v: View, before: seq<nat>)
    requires k < |due| && RunCallbacks(v0, due[..k], script) == (v, before)
    ensures RunCallbacks(v0, due[..k + 1], script)
      == if due[k] in v.live then (ApplyAll(v, Calls(script, |before|)), before + [due[k]]) else (v, before)
  {
    assert due[..k + 1][..k] == due[..k];
  }

  /** One turn of the dispatch loop: the callback of the `k`-th due timer, if it is
      not removed. `calls` callbacks have run before. */
  method TakeTurn(h: TimerHeap, t: Timer, script: seq<seq<Op>>, calls: nat,
                  ghost v0: View, ghost due: seq<nat>, ghost k: nat, ghost before: seq<nat>, ghost v: View)
    returns (next: Timer?, calls': nat, ghost fired: seq<nat>)
    requires Held(h) == Some(v) && h.IsSource(t)
    requires AllSane(script)
    requires k < |due| && due[k] == t.id && |before| == calls
    requires RunCallbacks(v0, due[..k], script) == (v, before)
    modifies h, h.data, h.sources`heapIdx, h.sources`deadline, h.sources`removed
    ensures Held(h) == Some(RunCallbacks(v0, due[..k + 1], script).0) && Extended(h)
    ensures RunCallbacks(v0, due[..k + 1], script).1 == fired && |fired| == calls'
    ensures next == old(t.nextDue)
    ensures AllOk(script) && old(h.synced) ==> h.synced
  {
    calls', fired := calls, before;
    OneCallback(v0, due, k, script, v, before);
    assert t.removed <==> due[k] !in v.live;
    if !t.removed {
      PerformAll(h, Calls(script, calls));
      calls', fired := calls + 1, before + [t.id];
    }
    next := t.nextDue;
  }

  /** A turn at place `k` of the chain. */
  method WalkOn(h: TimerHeap, cursor: Timer, script: seq<seq<Op>>, calls: nat,
                ghost due: seq<Timer>, ghost k: nat, ghost start: View, ghost before: seq<nat>, ghost v: View)
    returns (next: Timer?, calls': nat, ghost fired: seq<nat>, ghost v': View)
    requires Held(h) == Some(v) && AllSane(script) && k < |due| && cursor == due[k] && |before| == calls
    requires (forall t <- due :: h.IsSource(t)) && Chain(due[0], due)
    requires RunCallbacks(start, Ids(due)[..k], script) == (v, before)
    modifies h, h.data, h.sources`heapIdx, h.sources`deadline, h.sources`removed
    ensures Held(h) == Some(v') && Extended(h)
    ensures RunCallbacks(start, Ids(due)[..k + 1], script) == (v', fired) && |fired| == calls'
    ensures next == if k + 1 < |due| then due[k + 1] else null
    ensures AllOk(script) && old(h.synced) ==> h.synced
  {
    assert due[k] in due && due[k].nextDue == if k + 1 < |due| then due[k + 1] else null;
    next, calls', fired := TakeTurn(h, cursor, script, calls, start, Ids(due), k, before, v);
    v' := RunCallbacks(start, Ids(due)[..k + 1], script).0;
  }

  /** Walks the chain of due timers, calling back those not removed. */
  method RunDue(h: TimerHeap, head: Timer?, ghost due: seq<Timer>, script: seq<seq<Op>>)
    returns (ghost fired: seq<nat>)
    requires h.Ready() && Chain(head, due) && AllSane(script)
    requires forall t <- due :: h.IsSource(t)
    modifies h, h.data, h.sources`heapIdx, h.sources`deadline, h.sources`removed
    ensures h.Ready() && Extended(h)
    ensures (h.Seen(), fired) == RunCallbacks(old(h.Seen()), Ids(due), script)
    ensures AllOk(script) && old(h.synced) ==> h.synced
  {
    var listCursor := head;
    var calls := 0;
    fired := [];
    ghost var k := 0;
    ghost var start := h.Seen();
    ghost var v := start;
    while listCursor != null
      invariant 0 <= k <= |due| && listCursor == if k < |due| then due[k] else null
      invariant Held(h) == Some(v) && Extended(h)
      invariant RunCallbacks(start, Ids(due)[..k], script) == (v, fired) && |fired| == calls
      invariant AllOk(script) && old(h.synced) ==> h.synced
      decreases |due| - k
    {
      listCursor, calls, fired, v := WalkOn(h, listCursor, script, calls, due, k, start, fired, v);
      k := k + 1;
    }
    assert Ids(due)[..|due|] == Ids(due);
  }

  // ---------- Expiry ----------

  /** Distinct timers of `before`, in the order of their deadlines there. */
  ghost predicate InOrder(before: map<nat, Timespec>, ids: seq<nat>) {
    && (forall i | 0 <= i < |ids| :: ids[i] in before)
    && forall i, j | 0 <= i < j < |ids| :: ids[i] != ids[j] && AtMost(before[ids[i]], before[ids[j]])
  }

  /** `ids` are expired timers out of `before`, earliest first, and `armed` are the rest. */
  ghost predicate Taken(before: map<nat, Timespec>, now: Timespec, ids: seq<nat>, armed: map<nat, Timespec>) {
    && InOrder(before, ids)
    && (forall i | 0 <= i < |ids| :: AtMost(before[ids[i]], now))
    && armed == before - (set t | t in ids)
    && forall i, t | 0 <= i < |ids| && t in armed :: AtMost(before[ids[i]], armed[t])
  }

  lemma TakeEarliest(before: map<nat, Timespec>, now: Timespec, ids: seq<nat>, armed: map<nat, Timespec>, r: nat)
    requires Taken(before, now, ids, armed)
    requires r in armed && AtMost(armed[r], now)
    requires forall t | t in armed :: AtMost(armed[r], armed[t])
    ensures Taken(before, now, ids + [r], armed - {r})
  {
    var more := ids + [r];
    assert (set t | t in more) == (set t | t in ids) + {r};
  }

  method TakeRoot(h: TimerHeap, root: Timer, ghost before: map<nat, Timespec>, ghost now: Timespec, ghost ids: seq<nat>)
    requires h.Ready() && h.active > 0 && h.data[0] == root && !TimeLt(now, root.deadline)
    requires Taken(before, now, ids, h.Armed())
    modifies h`keys, h`active, h.data, h.sources`heapIdx, root`deadline
    ensures h.Ready() && h.Live() == old(h.Live()) && h.active == old(h.active) - 1
    ensures h.IsSource(root) && Taken(before, now, ids + [root.id], h.Armed()) && root.id !in ids
  {
    assert root.id in h.Armed() by {
      assert h.sources[root.id] == root;
    }
    forall i | i in h.Armed()
      ensures AtMost(root.deadline, h.Armed()[i])
    {
      h.RootIsEarliest(i);
    }
    TakeEarliest(before, now, ids, h.Armed(), root.id);
    h.Disarm(root);
  }

  method SetNextDue(h: TimerHeap, t: Timer, next: Timer?)
    requires h.Ready() && h.IsSource(t)
    modifies t`nextDue
    ensures h.Ready() && h.Live() == old(h.Live()) && h.Armed() == old(h.Armed())
    ensures t.nextDue == next
  {
    t.nextDue := next;
    assert h.Live() == old(h.Live()) && h.Armed() == old(h.Armed());
  }

  /** Puts `root`, just disarmed, at the end of the list of due timers. */
  method AppendDue(h: TimerHeap, head: Timer?, tail: Timer?, root: Timer, ghost due: seq<Timer>, ghost ids: seq<nat>)
    returns (newHead: Timer)
    requires h.Ready() && Linked(h, head, tail, due, ids) && h.IsSource(root) && root.id !in ids
    modifies h.sources`nextDue
    ensures h.Ready() && h.Live() == old(h.Live()) && h.Armed() == old(h.Armed())
    ensures Linked(h, newHead, root, due + [root], ids + [root.id])
  {
    if head == null {
      newHead := root;
    } else {
      assert h.IsSource(tail);
      SetNextDue(h, tail, root);
      newHead := head;
    }
  }

  lemma RestIsLater(h: TimerHeap, now: Timespec)
    requires h.Ready()
    requires h.active > 0 ==> h.data[0] != null && TimeLt(now, h.data[0].deadline)
    ensures forall t | t in h.Armed() :: TimeLt(now, h.Armed()[t])
  {
    forall t | t in h.Armed()
      ensures TimeLt(now, h.Armed()[t])
    {
      h.RootIsEarliest(t);
    }
  }

  method PopOne(h: TimerHeap, root: Timer, head: Timer?, tail: Timer?,
                ghost now: Timespec, ghost before: map<nat, Timespec>, ghost due: seq<Timer>, ghost ids: seq<nat>)
    returns (newHead: Timer)
    requires h.Ready() && h.active > 0 && h.data[0] == root && !TimeLt(now, root.deadline)
    requires Taken(before, now, ids, h.Armed()) && Linked(h, head, tail, due, ids)
    modifies h`keys, h`active, h.data, h.sources`heapIdx, h.sources`deadline, h.sources`nextDue
    ensures h.Ready() && h.Live() == old(h.Live()) && h.active == old(h.active) - 1
    ensures Taken(before, now, ids + [root.id], h.Armed())
    ensures Linked(h, newHead, root, due + [root], ids + [root.id])
  {
    assert root in h.sources;
    TakeRoot(h, root, before, now, ids);
    newHead := AppendDue(h, head, tail, root, due, ids);
  }

  /** Disarms the expired timers one by one and links them in that order. */
  method PopDue(h: TimerHeap, now: Timespec)
    returns (head: Timer?, tail: Timer?, ghost due: seq<Timer>, ghost ids: seq<nat>)
    requires h.Ready()
    modifies h`keys, h`active, h.data, h.sources`heapIdx, h.sources`deadline, h.sources`nextDue
    ensures h.Ready() && h.Live() == old(h.Live())
    ensures Linked(h, head, tail, due, ids)
    ensures Taken(old(h.Armed()), now, ids, h.Armed())
    ensures h.active > 0 ==> h.data[0] != null && TimeLt(now, h.data[0].deadline)
  {
    head, tail := null, null;
    due, ids := [], [];
    while h.active > 0
      invariant h.Ready() && h.Live() == old(h.Live())
      invariant Linked(h, head, tail, due, ids)
      invariant Taken(old(h.Armed()), now, ids, h.Armed())
      decreases h.active
    {
      var root: Timer := h.data[0];
      if TimeLt(now, root.deadline) {
        break;
      }
      head := PopOne(h, root, head, tail, now, old(h.Armed()), due, ids);
      tail, due, ids := root, due + [root], ids + [root.id];
    }
  }

  /** The list is closed behind its last member. */
  method CloseList(h: TimerHeap, head: Timer?, tail: Timer?, ghost due: seq<Timer>, ghost ids: seq<nat>)
    requires h.Ready() && Linked(h, head, tail, due, ids)
    modifies h.sources`nextDue
    ensures h.Ready() && h.Live() == old(h.Live()) && h.Armed() == old(h.Armed())
    ensures Chain(head, due) && ids == Ids(due)
  {
    if tail != null {
      assert h.IsSource(tail);
      SetNextDue(h, tail, null);
    }
  }

  /** The list under construction: every link but the last one is in place. */
  ghost predicate Linked(h: TimerHeap, head: Timer?, tail: Timer?, due: seq<Timer>, ids: seq<nat>)
    reads h, due
  {
    && |ids| == |due| && (forall i | 0 <= i < |due| :: h.IsSource(due[i]) && due[i].id == ids[i])
    && (forall i, j | 0 <= i < j < |ids| :: ids[i] != ids[j])
    && (if due == [] then head == null && tail == null else head == due[0] && tail == due[|due| - 1])
    && (forall i | 0 <= i < |due| - 1 :: due[i].nextDue == due[i + 1])
  }

  method CollectDue(h: TimerHeap, now: Timespec) returns (head: Timer?, ghost due: seq<Timer>)
    requires h.Ready()
    modifies h`keys, h`active, h.data, h.sources`heapIdx, h.sources`deadline, h.sources`nextDue
    ensures h.Ready() && h.Live() == old(h.Live())
    ensures (forall i | 0 <= i < |due| :: h.IsSource(due[i])) && Chain(head, due)
    ensures Taken(old(h.Armed()), now, Ids(due), h.Armed())
    ensures forall t | t in h.Armed() :: TimeLt(now, h.Armed()[t])
  {
    var tail: Timer?;
    ghost var ids;
    head, tail, due, ids := PopDue(h, now);
    RestIsLater(h, now);
    CloseList(h, head, tail, due, ids);
  }

  /** Takes the expired timers off the heap, and sets the kernel timer for the others. */
  method Expire(h: TimerHeap, now: Timespec, ok: bool) returns (r: int, head: Timer?, ghost chain: seq<Timer>)
    requires h.Ready()
    modifies h`keys, h`active, h`kernel, h`synced, h.data, h.sources`heapIdx, h.sources`deadline, h.sources`nextDue
    ensures h.Ready() && h.Live() == old(h.Live())
    ensures r == if ok then 0 else -1
    ensures (forall i | 0 <= i < |chain| :: h.IsSource(chain[i])) && Chain(head, chain)
    ensures Taken(old(h.Armed()), now, Ids(chain), h.Armed())
    ensures forall t | t in h.Armed() :: TimeLt(now, h.Armed()[t])
    ensures ok ==> h.synced
  {
    head, chain := CollectDue(h, now);
    r := Reprogram(h, ok);
  }

  /** Dispatch of the expired timers at time `now`. When the kernel timer cannot be
      set, no callback runs. */
  method Dispatch(h: TimerHeap, now: Timespec, ok: bool, script: seq<seq<Op>>)
    returns (r: int, ghost due: seq<nat>, ghost rest: map<nat, Timespec>, ghost fired: seq<nat>)
    requires h.Ready() && AllSane(script)
    modifies h, h.data, h.sources
    ensures h.Ready() && Extended(h)
    ensures r == if ok then 0 else -1
    ensures Taken(old(h.Armed()), now, due, rest)
    ensures forall t | t in rest :: TimeLt(now, rest[t])
    ensures (h.Seen(), fired) ==
      if ok then RunCallbacks(old(h.Seen()).(armed := rest), due, script)
      else (old(h.Seen()).(armed := rest), [])
    ensures ok && AllOk(script) ==> h.synced
  {
    var head: Timer?;
    ghost var chain;
    r, head, chain := Expire(h, now, ok);
    due, rest, fired := Ids(chain), h.Armed(), [];
    if r < 0 {
      return;
    }
    fired := RunDue(h, head, chain, script);
  }

  /** The kernel timer is set to the new earliest deadline, or cleared. */
  method Reprogram(h: TimerHeap, ok: bool) returns (r: int)
    requires h.Ready()
    modifies h`kernel, h`synced
    ensures h.Ready() && h.Seen() == old(h.Seen())
    ensures r == if ok then 0 else -1
    ensures ok ==> h.synced
  {
    forall i | i in h.Armed()
      ensures h.active > 0 && h.data[0] != null && AtMost(h.data[0].deadline, h.Armed()[i])
      ensures h.data[0].id in h.Armed() && h.Armed()[h.data[0].id] == h.data[0].deadline
    {
      h.RootIsEarliest(i);
    }
    if h.active > 0 {
      r := h.SetTimer(h.data[0].deadline, ok);
    } else {
      r := h.ClearTimer(ok);
    }
    h.synced := ok;
    h.SameTimers();
  }

  // ---------- Which callbacks run ----------

  ghost predicate Removes(ops: seq<Op>, t: nat) {
    exists i | 0 <= i < |ops| :: ops[i].Remove? && ops[i].id == t
  }

  ghost predicate Created(v: View) {
    forall t | t in v.live :: t < v.made
  }

  /** A timer leaves the set of live timers by being removed, and never comes back. */
  lemma {:induction false} LiveUnlessRemoved(v: View, ops: seq<Op>, t: nat)
    requires Created(v) && t < v.made
    ensures Created(ApplyAll(v, ops)) && v.made <= ApplyAll(v, ops).made
    ensures t in ApplyAll(v, ops).live <==> t in v.live && !Removes(ops, t)
    decreases |ops|
  {
    if ops != [] {
      LiveUnlessRemoved(Apply(v, ops[0]), ops[1..], t);
      assert Removes(ops, t) <==> (ops[0].Remove? && ops[0].id == t) || Removes(ops[1..], t) by {
        if Removes(ops, t) && !(ops[0].Remove? && ops[0].id == t) {
          var i :| 0 <= i < |ops| && ops[i].Remove? && ops[i].id == t;
          assert ops[1..][i - 1] == ops[i];
        }
        if Removes(ops[1..], t) {
          var i :| 0 <= i < |ops[1..]| && ops[1..][i].Remove? && ops[1..][i].id == t;
          assert ops[i + 1] == ops[1..][i];
        }
      }
    }
  }

  lemma {:induction false} LiveDuringCallbacks(v: View, due: seq<nat>, script: seq<seq<Op>>, t: nat)
    requires Created(v) && t in v.live
    ensures var (end, fired) := RunCallbacks(v, due, script);
            Created(end) && v.made <= end.made
            && (t in end.live <==> forall n | 0 <= n < |fired| :: !Removes(Calls(script, n), t))
    decreases |due|
  {
    if due != [] {
      var rest := due[..|due| - 1];
      LiveDuringCallbacks(v, rest, script, t);
      var (mid, fired) := RunCallbacks(v, rest, script);
      LiveUnlessRemoved(mid, Calls(script, |fired|), t);
    }
  }

  /** Of the due timers, exactly those run whose callback no earlier callback of
      this dispatch removed: re-arming or disarming them makes no difference. */
  lemma {:induction false} FiredIffNotRemovedBefore(v: View, due: seq<nat>, script: seq<seq<Op>>, k: nat)
    requires Created(v) && forall i | 0 <= i < |due| :: due[i] in v.live
    requires forall i, j | 0 <= i < j < |due| :: due[i] != due[j]
    requires k < |due|
    ensures due[k] in RunCallbacks(v, due, script).1 <==>
      forall n | 0 <= n < |RunCallbacks(v, due[..k], script).1| :: !Removes(Calls(script, n), due[k])
    decreases |due|
  {
    var last := |due| - 1;
    var rest := due[..last];
    FiredComeFromDue(v, rest, script);
    LiveDuringCallbacks(v, rest, script, due[k]);
    if k < last {
      FiredIffNotRemovedBefore(v, rest, script, k);
      assert rest[..k] == due[..k] && rest[k] == due[k];
    } else {
      assert due[..k] == rest;
      assert forall i | 0 <= i < |rest| :: rest[i] != due[k];
    }
  }

  lemma {:induction false} FiredComeFromDue(v: View, due: seq<nat>, script: seq<seq<Op>>)
    ensures forall t | t in RunCallbacks(v, due, script).1 :: t in due
    decreases |due|
  {
    if due != [] {
      FiredComeFromDue(v, due[..|due| - 1], script);
    }
  }

  /** Callbacks run in the order of the original deadlines, each timer once. */
  lemma {:induction false} FiredInDeadlineOrder(before: map<nat, Timespec>, v: View, due: seq<nat>,
                                               script: seq<seq<Op>>)
    requires InOrder(before, due)
    ensures InOrder(before, RunCallbacks(v, due, script).1)
    decreases |due|
  {
    if due != [] {
      var rest := due[..|due| - 1];
      FiredInDeadlineOrder(before, v, rest, script);
      FiredComeFromDue(v, rest, script);
      var fired := RunCallbacks(v, rest, script).1;
      forall i | 0 <= i < |fired|
        ensures fired[i] != due[|due| - 1] && AtMost(before[fired[i]], before[due[|due| - 1]])
      {
        assert fired[i] in fired;
        var j :| 0 <= j < |rest| && rest[j] == fired[i];
        assert due[j] == fired[i];
      }
    }
  }

  // ---------- Whole runs ----------

  datatype Step = Call(op: Op) | Tick(now: Timespec, ok: bool, script: seq<seq<Op>>)

  ghost predicate StepSane(s: Step) {
    if s.Call? then s.op.ClockSane() else AllSane(s.script)
  }

  ghost predicate StepOk(s: Step) {
    if s.Call? then KernelOk(s.op) else s.ok && AllOk(s.script)
  }

  /** Any run of a loop, from its creation. If no call that sets the kernel timer
      has failed, the kernel timer is never late; and the loop stays consistent
      in any case. */
  method Run(steps: seq<Step>) returns (h: TimerHeap)
    requires forall i | 0 <= i < |steps| :: StepSane(steps[i])
    ensures h.Ready()
    ensures (forall i | 0 <= i < |steps| :: StepOk(steps[i])) ==> h.OnTime()
  {
    h := new TimerHeap();
    for i := 0 to |steps|
      invariant h.Ready()
      invariant fresh(h) && fresh(h.data)
      invariant forall j | 0 <= j < |h.sources| :: fresh(h.sources[j])
      invariant (forall j | 0 <= j < i :: StepOk(steps[j])) ==> h.synced
    {
      match steps[i]
      case Call(op) =>
        Perform(h, op);
      case Tick(now, ok, script) =>
        var _, _, _, _ := Dispatch(h, now, ok, script);
    }
  }
}
