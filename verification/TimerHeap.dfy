/** The event loop's timers: an indexed binary heap of pointers to timer sources,
    shared by one kernel timer. */
module TimerHeaps {
  import opened Options
  import opened Timespecs
  import opened HeapOrder

  /** What the operations of the loop mean for its user: how many timers were ever
      created, which of them are not removed yet, which are armed and for when, and
      how many slots are allocated. */
  datatype View = View(made: nat, live: set<nat>, armed: map<nat, Timespec>, space: int)

  /** One call into the loop. The clock and the outcomes of system calls are inputs. */
  datatype Op =
    | Add(fdOk: bool, allocOk: bool)
    | Update(id: nat, msDelay: int, now: Timespec, ok: bool)
    | Remove(id: nat, ok: bool, allocOk: bool)
  {
    /** The monotonic clock is normalised and not negative. */
    predicate ClockSane() {
      Update? ==> 0 <= now.nsec < NSEC_PER_SEC && 0 <= now.sec
    }
  }

  function Grown(space: int, count: int): int {
    if count + 1 <= space then space else if space >= 8 then space * 2 else 8
  }

  function Shrunk(space: int, count: int): int {
    if space >= 16 && space >= 4 * count then space / 2 else space
  }

  function Apply(v: View, op: Op): View {
    match op
    case Add(fdOk, allocOk) =>
      if fdOk && (allocOk || |v.live| < v.space)
      then View(v.made + 1, v.live + {v.made}, v.armed, Grown(v.space, |v.live|))
      else v
    case Update(id, msDelay, now, _) =>
      if id !in v.live then v
      else if msDelay > 0 then v.(armed := v.armed[id := Deadline(now, msDelay)])
      else v.(armed := v.armed - {id})
    case Remove(id, _, allocOk) =>
      if id !in v.live then v
      else View(v.made, v.live - {id}, v.armed - {id},
                if allocOk then Shrunk(v.space, |v.live| - 1) else v.space)
  }

  function ApplyAll(v: View, ops: seq<Op>): View
    decreases |ops|
  {
    if ops == [] then v else ApplyAll(Apply(v, ops[0]), ops[1..])
  }

  class Timer {
    ghost const id: nat
    var removed: bool
    var nextDue: Timer?
    var deadline: Timespec
    var heapIdx: int

    constructor (ghost id: nat)
      ensures this.id == id && !removed && nextDue == null && deadline == ZERO && heapIdx == -1
    {
      this.id := id;
      removed, nextDue, deadline, heapIdx := false, null, ZERO, -1;
    }
  }

  class TimerHeap {
    var data: array<Timer?>
    var space: int
    var active: int
    var count: int
    ghost var keys: seq<Timespec>
    var sources: seq<Timer>
    var kernel: Option<Timespec>
    ghost var synced: bool

    constructor ()
      ensures Ready() && fresh(data) && sources == []
      ensures Seen() == View(0, {}, map[], 0)
      ensures synced
    {
      data := new Timer?[0];
      space, active, count := 0, 0, 0;
      keys, sources, kernel := [], [], None;
      synced := true;
    }

    ghost predicate IsSource(t: Timer)
      reads this
    {
      t.id < |sources| && sources[t.id] == t
    }

    ghost predicate Numbered()
      reads this
    {
      forall i | 0 <= i < |sources| :: sources[i].id == i
    }

    /** Slots and back-references agree, counting `hole` as holding `source`. */
    ghost predicate OtherSlots(hole: int, source: Timer)
      reads this, data, sources
    {
      && 0 <= hole < active <= data.Length && |keys| == active
      && Numbered() && IsSource(source)
      && (forall i | 0 <= i < active && i != hole ::
            var t := data[i];
            t != null && t != source && IsSource(t) && t.heapIdx == i && t.deadline == keys[i])
      && (forall i | 0 <= i < |sources| ::
            var t := sources[i];
            t != source && t.heapIdx != -1 ==>
              0 <= t.heapIdx < active && t.heapIdx != hole && data[t.heapIdx] == t)
    }

    ghost predicate Slots(hole: int, source: Timer)
      reads this, data, sources
    {
      OtherSlots(hole, source) && keys[hole] == source.deadline
    }

    method HeapSet(a: Timer, idx: int) returns (tmp: int)
      requires 0 <= idx < data.Length
      modifies data, a`heapIdx
      ensures data[idx] == a
      ensures forall i | 0 <= i < data.Length && i != idx :: data[i] == old(data[i])
      ensures a.heapIdx == idx && tmp == old(a.heapIdx)
    {
      tmp := a.heapIdx;
      a.heapIdx := idx;
      data[a.heapIdx] := a;
    }

    /** One step of a sift: `t` fills the hole and leaves one where it was. */
    method FillHole(t: Timer, hole: int, ghost source: Timer) returns (newHole: int)
      requires Slots(hole, source)
      requires t != source && IsSource(t) && 0 <= t.heapIdx < active && t.heapIdx != hole && data[t.heapIdx] == t
      modifies this`keys, data, t`heapIdx
      ensures newHole == old(t.heapIdx)
      ensures keys == old(keys)[hole := old(keys)[newHole]][newHole := old(keys)[hole]]
      ensures Slots(newHole, source)
      ensures t.heapIdx == hole
    {
      newHole := HeapSet(t, hole);
      keys := keys[hole := keys[newHole]][newHole := keys[hole]];
      forall i | 0 <= i < |sources| && sources[i] != source && sources[i].heapIdx != -1
        ensures 0 <= sources[i].heapIdx < active && sources[i].heapIdx != newHole
          && data[sources[i].heapIdx] == sources[i]
      {
        assert sources[i].id == i;
      }
    }

    /** The last step of a sift: `source` itself fills the hole. */
    method Settle(source: Timer, hole: int)
      requires Slots(hole, source)
      modifies data, source`heapIdx
      ensures Slots(hole, source)
      ensures source.heapIdx == hole && data[hole] == source
    {
      var _ := HeapSet(source, hole);
    }

    /** One round of the sift-up loop: moves the hole to the parent, or leaves it when the
        key `source` carries belongs here. */
    method RaiseOnce(cursor: int, source: Timer) returns (next: int)
      requires Slots(cursor, source) && OrderedBelow(keys, cursor) && cursor > 0
      modifies this`keys, data, sources`heapIdx
      ensures Slots(next, source) && 0 <= next <= cursor
      ensures if next == cursor then Ordered(keys) else OrderedBelow(keys, next)
      ensures forall i | 0 <= i < |sources| :: (sources[i].heapIdx == -1) == old(sources[i].heapIdx == -1)
    {
      next := cursor;
      var parent := data[(cursor - 1) / 2];
      if TimeLt(source.deadline, parent.deadline) {
        StepUp(keys, cursor);
        assert parent in sources;
        next := FillHole(parent, cursor, source);
      }
    }

    method SiftUp(source: Timer)
      requires Slots(source.heapIdx, source)
      requires OrderedBelow(keys, source.heapIdx)
      modifies this`keys, data, sources`heapIdx
      ensures Slots(source.heapIdx, source) && data[source.heapIdx] == source
      ensures Ordered(keys)
      ensures forall i | 0 <= i < |sources| :: (sources[i].heapIdx == -1) == old(sources[i].heapIdx == -1)
    {
      var cursor := source.heapIdx;
      while cursor > 0
        invariant Slots(cursor, source)
        invariant OrderedBelow(keys, cursor)
        invariant forall i | 0 <= i < |sources| ::
          (sources[i].heapIdx == -1) == old(sources[i].heapIdx == -1)
      {
        var next := RaiseOnce(cursor, source);
        if next == cursor {
          break;
        }
        cursor := next;
      }
      assert source in sources;
      Settle(source, cursor);
    }

    /** The child of the hole with the earlier deadline, the left one on a tie. */
    method EarlierChild(cursor: int, numActive: int, ghost source: Timer) returns (child: Timer)
      requires Slots(cursor, source) && numActive == active && cursor * 2 + 1 < numActive
      ensures child != source && IsSource(child) && child in sources
      ensures cursor < child.heapIdx < active && data[child.heapIdx] == child
      ensures Parent(child.heapIdx) == cursor && child.deadline == keys[child.heapIdx]
      ensures forall i | 1 <= i < active && Parent(i) == cursor :: AtMost(child.deadline, keys[i])
    {
      var lchildIdx := cursor * 2 + 1;
      child := data[lchildIdx];
      if lchildIdx + 1 < numActive {
        var otherChild := data[lchildIdx + 1];
        if TimeLt(otherChild.deadline, child.deadline) {
          child := otherChild;
        }
      }
    }

    /** One round of the sift-down loop: moves the hole to the earlier child, or
        reports that the key `source` carries belongs here. */
    method SinkOnce(cursor: int, numActive: int, source: Timer, ghost k0: seq<Timespec>, ghost c0: int)
      returns (next: int)
      requires numActive == active && Slots(cursor, source) && SunkFrom(k0, c0, keys, cursor)
      requires source.heapIdx == c0
      modifies this`keys, data, sources`heapIdx
      ensures Slots(next, source) && SunkFrom(k0, c0, keys, next)
      ensures source.heapIdx == c0 && cursor <= next
      ensures next == cursor ==> forall i | 1 <= i < active && Parent(i) == next :: AtMost(keys[next], keys[i])
      ensures forall i | 0 <= i < |sources| :: (sources[i].heapIdx == -1) == old(sources[i].heapIdx == -1)
    {
      next := cursor;
      if cursor * 2 + 1 < numActive {
        var child := EarlierChild(cursor, numActive, source);
        if TimeLt(child.deadline, source.deadline) {
          StepDown(keys, cursor, child.heapIdx);
          next := FillHole(child, cursor, source);
        }
      }
    }

    method SiftDown(numActive: int, source: Timer)
      requires numActive == active
      requires Slots(source.heapIdx, source)
      requires OrderedAround(keys, source.heapIdx)
      modifies this`keys, data, sources`heapIdx
      ensures Slots(source.heapIdx, source) && data[source.heapIdx] == source
      ensures OrderedBelow(keys, source.heapIdx)
      ensures source.heapIdx == old(source.heapIdx) ==> keys == old(keys)
      ensures source.heapIdx != old(source.heapIdx) ==> Ordered(keys)
      ensures forall i | 0 <= i < |sources| :: (sources[i].heapIdx == -1) == old(sources[i].heapIdx == -1)
    {
      var cursor := source.heapIdx;
      while true
        invariant Slots(cursor, source)
        invariant SunkFrom(old(keys), old(source.heapIdx), keys, cursor)
        invariant source.heapIdx == old(source.heapIdx)
        invariant forall i | 0 <= i < |sources| ::
          (sources[i].heapIdx == -1) == old(sources[i].heapIdx == -1)
        decreases active - cursor
      {
        var next := SinkOnce(cursor, numActive, source, old(keys), old(source.heapIdx));
        if next == cursor {
          break;
        }
        cursor := next;
      }
      SunkEnough(old(keys), old(source.heapIdx), keys, cursor);
      assert source in sources;
      Settle(source, cursor);
    }

    // ---------- The heap as a map of armed timers ----------

    ghost predicate Indexed()
      reads this, data, sources
    {
      && 0 <= active <= data.Length && |keys| == active
      && Numbered()
      && (forall i | 0 <= i < active ::
            var t := data[i];
            t != null && IsSource(t) && t.heapIdx == i && t.deadline == keys[i])
      && (forall i | 0 <= i < |sources| ::
            var t := sources[i];
            t.heapIdx != -1 ==> 0 <= t.heapIdx < active && data[t.heapIdx] == t)
    }

    ghost function Live(): set<nat>
      reads this, sources
    {
      set i: nat | i < |sources| && !sources[i].removed
    }

    ghost function Armed(): map<nat, Timespec>
      reads this, sources
    {
      map i: nat | i < |sources| && sources[i].heapIdx != -1 :: sources[i].deadline
    }

    /** The reserved slots are `spare` more than the timers not yet removed. */
    ghost predicate ValidWith(spare: int)
      reads this, data, sources
    {
      && Indexed() && Ordered(keys)
      && Armed().Keys <= Live()
      && data.Length == space && active <= count <= space && count == |Live()| + spare
    }

    ghost predicate Valid()
      reads this, data, sources
    {
      ValidWith(0)
    }

    /** Sifting moves timers between slots: who is armed, and for when, stays. */
    twostate lemma SameTimers()
      requires sources == old(sources)
      requires forall i | 0 <= i < |sources| ::
        var t := sources[i];
        t.removed == old(t.removed) && t.deadline == old(t.deadline) && (t.heapIdx == -1) == old(t.heapIdx == -1)
      ensures Armed() == old(Armed()) && Live() == old(Live())
    {
    }

    /** One timer changes its deadline or its being armed; the map says so. */
    twostate lemma OneTimer(source: Timer)
      requires sources == old(sources) && Numbered() && old(Numbered()) && IsSource(source)
      requires forall i | 0 <= i < |sources| ::
        var t := sources[i];
        t.removed == old(t.removed) &&
        (t != source ==> t.deadline == old(t.deadline) && (t.heapIdx == -1) == old(t.heapIdx == -1))
      ensures Armed() ==
        if source.heapIdx != -1 then old(Armed())[source.id := source.deadline] else old(Armed()) - {source.id}
      ensures Live() == old(Live())
    {
    }

    method RestoreUp(source: Timer)
      requires Slots(source.heapIdx, source)
      requires OrderedBelow(keys, source.heapIdx)
      modifies this`keys, data, sources`heapIdx
      ensures Indexed() && Ordered(keys)
      ensures Armed() == old(Armed()) && Live() == old(Live())
    {
      SiftUp(source);
      SameTimers();
    }

    method RestoreDown(source: Timer)
      requires Slots(source.heapIdx, source)
      requires OrderedAround(keys, source.heapIdx)
      modifies this`keys, data, sources`heapIdx
      ensures Slots(source.heapIdx, source) && data[source.heapIdx] == source
      ensures OrderedBelow(keys, source.heapIdx)
      ensures source.heapIdx != old(source.heapIdx) ==> Ordered(keys)
      ensures source.heapIdx == old(source.heapIdx) ==> keys == old(keys)
      ensures Armed() == old(Armed()) && Live() == old(Live())
    {
      SiftDown(active, source);
      SameTimers();
    }

    /** The timer goes into the first unused slot; only the step up may be wrong. */
    method Append(source: Timer, deadline: Timespec)
      requires Valid() && IsSource(source) && !source.removed && source.heapIdx == -1
      modifies this`keys, this`active, data, source`heapIdx, source`deadline
      ensures 0 < active <= count
      ensures source.heapIdx == active - 1 && keys == old(keys) + [deadline]
      ensures Slots(source.heapIdx, source) && OrderedBelow(keys, source.heapIdx)
      ensures Armed() == old(Armed())[source.id := deadline] && Live() == old(Live())
      ensures Armed().Keys <= Live()
    {
      MoreLiveThanArmed(source);
      source.deadline := deadline;
      data[active] := source;
      source.heapIdx := active;
      active := active + 1;
      OrderedAppend(keys, deadline);
      keys := keys + [deadline];
      OneTimer(source);
      assert source.id in Live();
    }

    /** requires timer be disarmed */
    method Arm(source: Timer, deadline: Timespec)
      requires Valid() && IsSource(source) && !source.removed
      requires source.heapIdx == -1
      modifies this`keys, this`active, data, sources`heapIdx, source`deadline
      ensures Valid()
      ensures Armed() == old(Armed())[source.id := deadline] && Live() == old(Live())
    {
      Append(source, deadline);
      RestoreUp(source);
    }

    /** Disarming the timer in the last slot moves no other timer. */
    method DetachLast(source: Timer)
      requires Valid() && IsSource(source) && source.heapIdx == active - 1
      requires source.heapIdx >= 0
      modifies this`keys, this`active, data, source`heapIdx, source`deadline
      ensures source.heapIdx == -1 && active == old(active) - 1
      ensures Armed() == old(Armed()) - {source.id} && Live() == old(Live())
      ensures Indexed() && Ordered(keys)
    {
      source.heapIdx := -1;
      source.deadline := ZERO;
      data[active - 1] := null;
      active := active - 1;
      DropLast(keys);
      keys := keys[..active];
      OneTimer(source);
    }

    /** Disarming any other timer leaves a hole, to be filled by the last one. */
    method Vacate(source: Timer) returns (last: Timer, hole: int)
      requires Valid() && IsSource(source) && 0 <= source.heapIdx < active - 1
      modifies this`keys, this`active, data, source`heapIdx, source`deadline
      ensures source.heapIdx == -1 && active == old(active) - 1
      ensures Armed() == old(Armed()) - {source.id} && Live() == old(Live())
      ensures OtherSlots(hole, last) && Ordered(keys)
      ensures last.heapIdx != -1
    {
      hole := source.heapIdx;
      source.heapIdx := -1;
      source.deadline := ZERO;
      last := data[active - 1];
      data[active - 1] := null;
      active := active - 1;
      DropLast(keys);
      keys := keys[..active];
      OneTimer(source);
      assert last.heapIdx == active != hole;
      forall i | 0 <= i < active && i != hole
        ensures data[i] != null && data[i] != last && IsSource(data[i]) && data[i].heapIdx == i
          && data[i].deadline == keys[i]
      {
      }
      forall i | 0 <= i < |sources| && sources[i] != last && sources[i].heapIdx != -1
        ensures 0 <= sources[i].heapIdx < active && sources[i].heapIdx != hole
          && data[sources[i].heapIdx] == sources[i]
      {
        assert sources[i] != source;
      }
    }

    method FillWithLast(last: Timer, hole: int)
      requires OtherSlots(hole, last) && Ordered(keys) && last.heapIdx != -1
      modifies this`keys, data, last`heapIdx
      ensures last.heapIdx == hole
      ensures Slots(hole, last) && OrderedAround(keys, hole)
      ensures Armed() == old(Armed()) && Live() == old(Live())
    {
      data[hole] := last;
      last.heapIdx := hole;
      ChangeOne(keys, hole, last.deadline);
      keys := keys[hole := last.deadline];
      SameTimers();
    }

    /** Any other timer than the last is replaced by the last, which then finds its place. */
    method Replace(source: Timer)
      requires Valid() && IsSource(source) && 0 <= source.heapIdx < active - 1
      modifies this`keys, this`active, data, sources`heapIdx, source`deadline
      ensures Indexed() && Ordered(keys)
      ensures source.heapIdx == -1 && active == old(active) - 1
      ensures Armed() == old(Armed()) - {source.id} && Live() == old(Live())
    {
      var last, oldSourceIdx := Vacate(source);
      assert last in sources && source in sources && source.id !in Armed();
      FillWithLast(last, oldSourceIdx);
      RestoreDown(last);
      RestoreUp(last);
      assert source.id !in Armed();
    }

    /** requires timer be armed */
    method Disarm(source: Timer)
      requires Valid() && IsSource(source) && source.heapIdx >= 0
      modifies this`keys, this`active, data, sources`heapIdx, source`deadline
      ensures Valid()
      ensures source.heapIdx == -1 && active == old(active) - 1
      ensures Armed() == old(Armed()) - {source.id} && Live() == old(Live())
    {
      if source.heapIdx == active - 1 {
        DetachLast(source);
        return;
      }
      Replace(source);
    }

    // ---------- The user's operations ----------

    ghost function Seen(): View
      reads this, sources
    {
      View(|sources|, Live(), Armed(), space)
    }

    /** The shared kernel timer is set, and to no later than any armed deadline. */
    ghost predicate OnTime()
      reads this, sources
    {
      Armed() != map[] ==>
        kernel.Some? && forall i | i in Armed() :: AtMost(kernel.value, Armed()[i])
    }

    ghost predicate ReadyWith(spare: int)
      reads this, data, sources
    {
      && ValidWith(spare)
      && (forall i | i in Armed() :: TimeLt(ZERO, Armed()[i]))
      && (synced ==> OnTime())
    }

    ghost predicate Ready()
      reads this, data, sources
    {
      ReadyWith(0)
    }

    /** timerfd_settime with an absolute time; the time zero would stop the timer. */
    method SetTimer(deadline: Timespec, ok: bool) returns (r: int)
      modifies this`kernel
      ensures r == if ok then 0 else -1
      ensures kernel == if !ok then old(kernel) else if deadline == ZERO then None else Some(deadline)
    {
      if !ok {
        return -1;
      }
      kernel := if deadline == ZERO then None else Some(deadline);
      return 0;
    }

    method ClearTimer(ok: bool) returns (r: int)
      modifies this`kernel
      ensures r == if ok then 0 else -1
      ensures kernel == if ok then None else old(kernel)
    {
      if !ok {
        return -1;
      }
      kernel := None;
      return 0;
    }

    method Reserve(allocOk: bool) returns (r: int)
      requires Ready()
      modifies this`data, this`space, this`count
      ensures r == if allocOk || old(count < space) then 0 else -1
      ensures ReadyWith(if r == 0 then 1 else 0)
      ensures data == old(data) || fresh(data)
      ensures space == if r == 0 then Grown(old(space), old(count)) else old(space)
      ensures Armed() == old(Armed()) && Live() == old(Live())
    {
      if count + 1 > space {
        var newSpace := if space >= 8 then space * 2 else 8;
        if !allocOk {
          return -1;
        }
        Realloc(newSpace);
      }
      count := count + 1;
      SameTimers();
      return 0;
    }

    method Unreserve(allocOk: bool)
      requires Ready() && active < count
      modifies this`data, this`space, this`count
      ensures ReadyWith(-1)
      ensures data == old(data) || fresh(data)
      ensures space == if allocOk then Shrunk(old(space), old(count) - 1) else old(space)
      ensures Armed() == old(Armed()) && Live() == old(Live())
    {
      count := count - 1;
      if space >= 16 && space >= 4 * count {
        if !allocOk {
          SameTimers();
          return;
        }
        Realloc(space / 2);
      }
      SameTimers();
    }

    method Realloc(newSpace: int)
      requires 0 <= active <= space == data.Length && active <= newSpace
      modifies this`data, this`space
      ensures fresh(data) && data.Length == space == newSpace
      ensures forall i | 0 <= i < active :: data[i] == old(data[i])
    {
      var old' := data;
      var n := new Timer?[newSpace](i => null);
      forall i | 0 <= i < active {
        n[i] := old'[i];
      }
      data, space := n, newSpace;
    }

    twostate lemma OneMore(source: Timer)
      requires sources == old(sources) + [source] && !source.removed && source.heapIdx == -1
      requires forall i | 0 <= i < |old(sources)| ::
        var t := sources[i];
        t.removed == old(t.removed) && t.deadline == old(t.deadline) && t.heapIdx == old(t.heapIdx)
      ensures Live() == old(Live()) + {old(|sources|)} && |Live()| == |old(Live())| + 1
      ensures Armed() == old(Armed())
    {
    }

    method Register(source: Timer)
      requires ReadyWith(1)
      requires source.id == |sources| && !source.removed && source.heapIdx == -1
      modifies this`sources
      ensures Ready()
      ensures sources == old(sources) + [source]
      ensures Live() == old(Live()) + {old(|sources|)}
      ensures Armed() == old(Armed())
    {
      sources := sources + [source];
      OneMore(source);
    }

    method AddTimer(fdOk: bool, allocOk: bool) returns (source: Timer?)
      requires Ready()
      modifies this`data, this`space, this`count, this`sources
      ensures Ready()
      ensures Seen() == Apply(old(Seen()), Add(fdOk, allocOk))
      ensures source != null ==> fresh(source) && sources == old(sources) + [source]
      ensures source == null ==> sources == old(sources)
      ensures data == old(data) || fresh(data)
    {
      source := null;
      if fdOk {
        source := AddOpened(allocOk);
      }
    }

    method AddOpened(allocOk: bool) returns (source: Timer?)
      requires Ready()
      modifies this`data, this`space, this`count, this`sources
      ensures Ready()
      ensures Seen() == Apply(old(Seen()), Add(true, allocOk))
      ensures source != null ==> fresh(source) && sources == old(sources) + [source]
      ensures source == null ==> sources == old(sources)
      ensures data == old(data) || fresh(data)
    {
      source := new Timer(|sources|);
      var r := Reserve(allocOk);
      if r < 0 {
        return null;
      }
      Register(source);
    }

    method SetDeadline(source: Timer, deadline: Timespec)
      requires Valid() && IsSource(source) && source.heapIdx >= 0
      modifies this`keys, source`deadline
      ensures Slots(source.heapIdx, source) && OrderedAround(keys, source.heapIdx)
      ensures TimeLt(deadline, old(source.deadline)) ==> OrderedBelow(keys, source.heapIdx)
      ensures !TimeLt(deadline, old(source.deadline)) && source.heapIdx > 0 ==>
        AtMost(keys[Parent(source.heapIdx)], keys[source.heapIdx])
      ensures Armed() == old(Armed())[source.id := deadline] && Live() == old(Live())
    {
      ChangeOne(keys, source.heapIdx, deadline);
      source.deadline := deadline;
      keys := keys[source.heapIdx := deadline];
      OneTimer(source);
    }

    method Reschedule(source: Timer, deadline: Timespec)
      requires Valid() && IsSource(source) && source.heapIdx >= 0
      modifies this`keys, data, sources`heapIdx, source`deadline
      ensures Valid()
      ensures Armed() == old(Armed())[source.id := deadline] && Live() == old(Live())
    {
      var earlier := TimeLt(deadline, source.deadline);
      SetDeadline(source, deadline);
      if earlier {
        RestoreUp(source);
      } else {
        RestoreDown(source);
        Restored(source);
      }
    }

    lemma Restored(source: Timer)
      requires Slots(source.heapIdx, source) && data[source.heapIdx] == source
      ensures Indexed()
    {
    }

    lemma RootIsEarliest(i: nat)
      requires Indexed() && Ordered(keys) && i in Armed()
      ensures active > 0 && data[0] != null && AtMost(data[0].deadline, Armed()[i])
      ensures data[0].id in Armed() && Armed()[data[0].id] == data[0].deadline
    {
      RootIsLeast(keys, sources[i].heapIdx);
    }

    /** Sets the kernel timer to the root's deadline, or leaves it when `source`,
        just armed for `deadline`, is not the root. */
    method Announce(source: Timer, deadline: Timespec, ok: bool, ghost before: map<nat, Timespec>) returns (r: int)
      requires Valid() && IsSource(source) && source.heapIdx >= 0
      requires Armed() == before[source.id := deadline] && TimeLt(ZERO, deadline)
      requires forall i | i in before :: TimeLt(ZERO, before[i])
      requires synced && before != map[] ==>
        kernel.Some? && forall i | i in before :: AtMost(kernel.value, before[i])
      modifies this`kernel, this`synced
      ensures Ready()
      ensures Armed() == old(Armed()) && Live() == old(Live())
      ensures r == 0 || (r == -1 && !ok)
      ensures r == 0 && old(synced) ==> synced
    {
      r := 0;
      forall i | i in Armed()
        ensures AtMost(data[0].deadline, Armed()[i]) && data[0].id in Armed()
      {
        RootIsEarliest(i);
      }
      assert source.id in Armed();
      if source.heapIdx == 0 {
        r := SetTimer(deadline, ok);
        synced := r == 0;
      }
      SameTimers();
    }

    /** The kernel timer is cleared only when the last armed timer goes; until
        then it may fire early. */
    method Quiet(source: Timer, ok: bool) returns (r: int)
      requires Ready() && IsSource(source) && source.heapIdx >= 0
      modifies this`keys, this`active, this`kernel, data, sources`heapIdx, source`deadline
      ensures Ready() && source.heapIdx == -1
      ensures Armed() == old(Armed()) - {source.id} && Live() == old(Live())
      ensures r == 0 || (r == -1 && !ok)
    {
      r := 0;
      Disarm(source);
      if active == 0 {
        label Disarmed:
        r := ClearTimer(ok);
        SameTimers@Disarmed();
      }
    }

    method ArmOrReschedule(source: Timer, deadline: Timespec)
      requires Valid() && IsSource(source) && !source.removed
      modifies this`keys, this`active, data, sources`heapIdx, source`deadline
      ensures Valid() && source.heapIdx >= 0
      ensures Armed() == old(Armed())[source.id := deadline] && Live() == old(Live())
    {
      if source.heapIdx == -1 {
        Arm(source, deadline);
      } else {
        Reschedule(source, deadline);
      }
      assert source.id in Armed();
    }

    method UpdateTimer(source: Timer, msDelay: int, now: Timespec, ok: bool) returns (r: int)
      requires Ready() && IsSource(source) && !source.removed
      requires Normal(now) && 0 <= now.sec
      modifies this`keys, this`active, this`kernel, this`synced, data, sources`heapIdx, source`deadline
      ensures Ready()
      ensures Seen() == Apply(old(Seen()), Update(source.id, msDelay, now, ok))
      ensures r == 0 || (r == -1 && !ok)
      ensures r == 0 && old(synced) ==> synced
    {
      if msDelay > 0 {
        var deadline := Deadline(now, msDelay);
        ArmOrReschedule(source, deadline);
        r := Announce(source, deadline, ok, old(Armed()));
      } else {
        if source.heapIdx == -1 {
          return 0;
        }
        r := Quiet(source, ok);
      }
    }

    twostate lemma OneLess(source: Timer)
      requires sources == old(sources) && Numbered() && IsSource(source)
      requires source.removed && !old(source.removed)
      requires forall i | 0 <= i < |sources| ::
        var t := sources[i];
        t.deadline == old(t.deadline) && t.heapIdx == old(t.heapIdx) && (t != source ==> t.removed == old(t.removed))
      ensures Live() == old(Live()) - {source.id} && |Live()| == |old(Live())| - 1
      ensures Armed() == old(Armed())
    {
      assert source.id in old(Live());
    }

    method MarkRemoved(source: Timer)
      requires ReadyWith(-1) && IsSource(source) && !source.removed && source.heapIdx == -1
      modifies source`removed
      ensures Ready()
      ensures Armed() == old(Armed()) && Live() == old(Live()) - {source.id}
    {
      source.removed := true;
      OneLess(source);
    }

    /** The timer is disarmed and gives up its reserved slot. */
    method Withdraw(source: Timer, ok: bool, allocOk: bool)
      requires Ready() && IsSource(source) && !source.removed
      modifies this`keys, this`active, this`kernel, this`synced, this`data, this`space, this`count
      modifies data, sources`heapIdx, source`deadline
      ensures ReadyWith(-1) && source.heapIdx == -1 && (old(synced) ==> synced)
      ensures data == old(data) || fresh(data)
      ensures space == if allocOk then Shrunk(old(space), old(count) - 1) else old(space)
      ensures Armed() == old(Armed()) - {source.id} && Live() == old(Live())
    {
      if source.heapIdx != -1 {
        var _ := Quiet(source, ok);
      }
      assert source.id !in Armed();
      MoreLiveThanArmed(source);
      Unreserve(allocOk);
    }

    /** The status of the disarm is ignored: no timer is armed when it fails. */
    method RemoveTimer(source: Timer, ok: bool, allocOk: bool)
      requires Ready() && IsSource(source) && !source.removed
      modifies this`keys, this`active, this`kernel, this`synced, this`data, this`space, this`count
      modifies data, sources`heapIdx, source`deadline, source`removed
      ensures Ready() && (old(synced) ==> synced)
      ensures data == old(data) || fresh(data)
      ensures Seen() == Apply(old(Seen()), Remove(source.id, ok, allocOk))
    {
      Withdraw(source, ok, allocOk);
      MarkRemoved(source);
    }

    lemma MoreLiveThanArmed(source: Timer)
      requires Indexed() && IsSource(source) && !source.removed && source.heapIdx == -1
      requires Armed().Keys <= Live()
      ensures active < |Live()|
    {
      var ids := seq(active, i requires 0 <= i < active && Indexed() reads this, data, sources => data[i].id);
      forall i | 0 <= i < |ids|
        ensures ids[i] in Live() - {source.id}
      {
        assert ids[i] in Armed();
      }
      DistinctBound(ids, Live() - {source.id});
    }
  }

  lemma {:induction false} DistinctBound(ids: seq<nat>, s: set<nat>)
    requires forall i, j | 0 <= i < j < |ids| :: ids[i] != ids[j]
    requires forall i | 0 <= i < |ids| :: ids[i] in s
    ensures |ids| <= |s|
  {
    if ids != [] {
      DistinctBound(ids[1..], s - {ids[0]});
    }
  }
}
