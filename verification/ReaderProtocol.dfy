/** Many threads that want to read one socket: each prepares, then reads or cancels; the
    last of those prepared does the reading, and wakes the others, who sleep. */
module ReaderProtocol {
  import opened Options

  datatype Thread = Idle | Prepared(queue: nat) | Sleeping(serial: nat)

  /** What the socket gives: nothing for now, an error, the end, or data, which is put on
      event queues up to the first event that is in error. */
  datatype Input =
    | Again
    | Broken(errno: nat)
    | Closed
    | Data(events: seq<(nat, nat)>, error: Option<nat>)

  const EPIPE := 32
  const EFAULT := 14

  /** The part of the display that its mutex guards, and where each thread is. */
  datatype State = State(readerCount: int, readSerial: nat, lastError: nat, queues: map<nat, seq<nat>>,
                         threads: map<nat, Thread>)

  function ThreadOf(s: State, t: nat): Thread {
    if t in s.threads then s.threads[t] else Idle
  }

  function QueueOf(queues: map<nat, seq<nat>>, q: nat): seq<nat> {
    if q in queues then queues[q] else []
  }

  function Queued(queues: map<nat, seq<nat>>, events: seq<(nat, nat)>): map<nat, seq<nat>>
    decreases |events|
  {
    if events == [] then queues
    else
      var (q, e) := events[0];
      Queued(queues[q := QueueOf(queues, q) + [e]], events[1..])
  }

  // ---------- Steps ----------

  /** What a thread does while it holds the mutex. */
  datatype Act =
    | Prepare(t: nat, q: nat)
    | Read(t: nat, input: Input)
    | Cancel(t: nat)
    | Return(t: nat)
    | Fatal(errno: nat)
    | ProtocolError(errno: nat)
    | DispatchOne(q: nat)

  function Wake(s: State): State {
    s.(readSerial := s.readSerial + 1)
  }

  /** Does nothing, not even wake, after an earlier error. */
  function FatalError(s: State, errno: nat): State {
    if s.lastError != 0 then s else Wake(s.(lastError := if errno == 0 then EFAULT else errno))
  }

  function Leave(s: State, t: nat, next: Thread): State {
    s.(readerCount := s.readerCount - 1, threads := s.threads[t := next])
  }

  function CancelRead(s: State, t: nat): State {
    var s' := Leave(s, t, Idle);
    if s'.readerCount == 0 then Wake(s') else s'
  }

  function TakeInput(s: State, input: Input): State {
    match input
    case Again => Wake(s)
    case Broken(errno) => FatalError(s, errno)
    case Closed => FatalError(s, EPIPE)
    case Data(events, error) =>
      var s' := s.(queues := Queued(s.queues, events));
      if error.Some? then FatalError(s', error.value) else Wake(s')
  }

  function ReadEvents(s: State, t: nat, input: Input): State {
    if s.lastError != 0 then CancelRead(s, t)
    else if s.readerCount - 1 == 0 then TakeInput(Leave(s, t, Idle), input)
    else Leave(s, t, Sleeping(s.readSerial))
  }

  predicate Allowed(s: State, act: Act) {
    match act
    case Prepare(t, _) => ThreadOf(s, t).Idle?
    case Read(t, _) => ThreadOf(s, t).Prepared?
    case Cancel(t) => ThreadOf(s, t).Prepared?
    case Return(t) => ThreadOf(s, t).Sleeping? && ThreadOf(s, t).serial != s.readSerial
    case Fatal(_) => true
    case ProtocolError(errno) => errno != 0
    case DispatchOne(q) => s.lastError == 0 && QueueOf(s.queues, q) != []
  }

  function Step(s: State, act: Act): State
    requires Allowed(s, act)
  {
    match act
    case Prepare(t, q) =>
      if QueueOf(s.queues, q) != [] then s
      else s.(readerCount := s.readerCount + 1, threads := s.threads[t := Prepared(q)])
    case Read(t, input) => ReadEvents(s, t, input)
    case Cancel(t) => CancelRead(s, t)
    case Return(t) => s.(threads := s.threads[t := Idle])
    case Fatal(errno) => FatalError(s, errno)
    case ProtocolError(errno) => s.(lastError := errno)
    case DispatchOne(q) => s.(queues := s.queues[q := QueueOf(s.queues, q)[1..]])
  }

  const START := State(0, 0, 0, map[], map[])

  // ---------- The invariant ----------

  ghost function Ready(threads: map<nat, Thread>): set<nat> {
    set t | t in threads && threads[t].Prepared?
  }

  /** Asleep, and not woken so far. */
  ghost predicate Waiting(s: State, t: nat) {
    ThreadOf(s, t) == Sleeping(s.readSerial)
  }

  /** What holds even while the last reader has left and not woken the others yet. */
  ghost predicate Sound(s: State) {
    && s.readerCount == |Ready(s.threads)|
    && (forall t <- s.threads | s.threads[t].Prepared? :: QueueOf(s.queues, s.threads[t].queue) == [])
    && (forall t <- s.threads | s.threads[t].Sleeping? :: s.threads[t].serial <= s.readSerial)
  }

  /** Whoever waits has someone to wake it. */
  ghost predicate Invariant(s: State) {
    && Sound(s)
    && (forall t <- s.threads | s.threads[t].Sleeping? && s.threads[t].serial == s.readSerial :: s.readerCount > 0)
  }

  /** Every sleeper can return. */
  ghost predicate AllAwake(s: State) {
    forall t <- s.threads | s.threads[t].Sleeping? :: Allowed(s, Return(t))
  }

  lemma OneReady(threads: map<nat, Thread>, t: nat, q: nat)
    requires t !in threads || !threads[t].Prepared?
    ensures |Ready(threads[t := Prepared(q)])| == |Ready(threads)| + 1
  {
    assert Ready(threads[t := Prepared(q)]) == Ready(threads) + {t};
  }

  lemma OneLeaves(threads: map<nat, Thread>, t: nat, next: Thread)
    requires t in threads && threads[t].Prepared? && !next.Prepared?
    ensures |Ready(threads[t := next])| == |Ready(threads)| - 1
  {
    assert Ready(threads[t := next]) == Ready(threads) - {t};
  }

  lemma NoneReady(threads: map<nat, Thread>)
    requires |Ready(threads)| == 0
    ensures forall t <- threads :: !threads[t].Prepared?
  {
    assert Ready(threads) == {};
    assert forall t <- threads :: t in Ready(threads) <==> threads[t].Prepared?;
  }

  /** The last reader takes its input when no other thread is prepared, so it may fill any
      queue; and it wakes all sleepers whatever happens to it. */
  lemma LastReaderKeeps(s: State, t: nat, input: Input)
    requires Invariant(s) && ThreadOf(s, t).Prepared? && s.lastError == 0 && s.readerCount == 1
    ensures Invariant(ReadEvents(s, t, input))
    ensures ReadEvents(s, t, input).readSerial == s.readSerial + 1
  {
    OneLeaves(s.threads, t, Idle);
    NoneReady(s.threads[t := Idle]);
  }

  lemma StepKeeps(s: State, act: Act)
    requires Invariant(s) && Allowed(s, act)
    ensures Invariant(Step(s, act))
  {
    match act
    case Prepare(t, q) => OneReady(s.threads, t, q);
    case Read(t, input) =>
      if s.lastError == 0 && s.readerCount == 1 {
        LastReaderKeeps(s, t, input);
      } else {
        OneLeaves(s.threads, t, Idle);
        OneLeaves(s.threads, t, Sleeping(s.readSerial));
      }
    case Cancel(t) => OneLeaves(s.threads, t, Idle);
    case Return(t) => assert Ready(s.threads[t := Idle]) == Ready(s.threads);
    case _ =>
  }

  // ---------- All interleavings ----------

  ghost predicate RunAllowed(s: State, acts: seq<Act>)
    decreases |acts|
  {
    acts != [] ==> Allowed(s, acts[0]) && RunAllowed(Step(s, acts[0]), acts[1..])
  }

  ghost function Run(s: State, acts: seq<Act>): State
    requires RunAllowed(s, acts)
    decreases |acts|
  {
    if acts == [] then s else Run(Step(s, acts[0]), acts[1..])
  }

  lemma {:induction false} RunKeeps(s: State, acts: seq<Act>)
    requires Invariant(s) && RunAllowed(s, acts)
    ensures Invariant(Run(s, acts))
    decreases |acts|
  {
    if acts != [] {
      StepKeeps(s, acts[0]);
      RunKeeps(Step(s, acts[0]), acts[1..]);
    }
  }

  ghost predicate Reachable(s: State) {
    exists acts :: RunAllowed(START, acts) && Run(START, acts) == s
  }

  lemma ReachableInvariant(s: State)
    requires Reachable(s)
    ensures Invariant(s)
  {
    var acts :| RunAllowed(START, acts) && Run(START, acts) == s;
    RunKeeps(START, acts);
  }

  /** No wakeup is lost: while a thread waits, another is still prepared, whose reading
      or cancelling will wake it. */
  lemma SomeoneWillWake(s: State, t: nat) returns (other: nat)
    requires Reachable(s) && Waiting(s, t)
    ensures other != t && ThreadOf(s, other).Prepared?
  {
    ReachableInvariant(s);
    assert |Ready(s.threads)| > 0;
    assert Ready(s.threads) != {};
    other :| other in Ready(s.threads);
  }

  /** The last prepared thread wakes everyone, by reading or cancelling, with or without
      an error before or during it. */
  lemma LastOneWakes(s: State, t: nat, act: Act, sleeper: nat)
    requires Reachable(s) && ThreadOf(s, t).Prepared? && s.readerCount == 1
    requires act == Cancel(t) || (act.Read? && act.t == t)
    requires ThreadOf(s, sleeper).Sleeping?
    ensures Allowed(Step(s, act), Return(sleeper))
  {
    ReachableInvariant(s);
    StepKeeps(s, act);
  }

  /** A thread once woken can return at any later time: nobody puts the serial back. */
  lemma {:induction false} StaysAwake(s: State, acts: seq<Act>, t: nat)
    requires Invariant(s) && RunAllowed(s, acts)
    requires Allowed(s, Return(t)) && Return(t) !in acts
    ensures Allowed(Run(s, acts), Return(t))
    decreases |acts|
  {
    if acts != [] {
      StepKeeps(s, acts[0]);
      StaysAwake(Step(s, acts[0]), acts[1..], t);
    }
  }

  /** A prepared thread finds its queue empty until it reads or cancels. */
  lemma PreparedQueueIsEmpty(s: State, t: nat)
    requires Reachable(s) && ThreadOf(s, t).Prepared?
    ensures QueueOf(s.queues, ThreadOf(s, t).queue) == []
    ensures s.readerCount == |Ready(s.threads)| > 0
  {
    ReachableInvariant(s);
    assert t in Ready(s.threads);
  }

  lemma RunFirst(s: State, act: Act, acts: seq<Act>, all: seq<Act>)
    requires Allowed(s, act) && RunAllowed(Step(s, act), acts) && all == [act] + acts
    ensures RunAllowed(s, all) && Run(s, all) == Run(Step(s, act), acts)
  {
    assert all[0] == act && all[1..] == acts;
  }

  /** Without the check for an earlier error before reading, the last reader would not
      wake the others. */
  lemma CheckBeforeReading()
    ensures exists s, t ::
      Reachable(s) && s.readerCount == 1 && ThreadOf(s, 1).Prepared? && Waiting(s, t)
      && Waiting(TakeInput(Leave(s, 1, Idle), Closed), t)
  {
    var s1 := Step(START, Prepare(1, 0));
    var s2 := Step(s1, Prepare(2, 0));
    var s3 := Step(s2, Read(2, Again));
    var s4 := Step(s3, ProtocolError(EPIPE));
    assert ThreadOf(s2, 2).Prepared?;
    var last := [ProtocolError(EPIPE)];
    RunFirst(s3, ProtocolError(EPIPE), [], last);
    RunFirst(s2, Read(2, Again), last, [Read(2, Again)] + last);
    RunFirst(s1, Prepare(2, 0), [Read(2, Again)] + last, [Prepare(2, 0), Read(2, Again)] + last);
    var acts := [Prepare(1, 0), Prepare(2, 0), Read(2, Again)] + last;
    RunFirst(START, Prepare(1, 0), [Prepare(2, 0), Read(2, Again)] + last, acts);
    assert Reachable(s4) && Waiting(s4, 2);
    assert Waiting(TakeInput(Leave(s4, 1, Idle), Closed), 2);
  }

  // ---------- The display ----------

  /** Each method runs with the mutex held. `threads` is where the callers are. */
  class Display {
    var readerCount: int
    var readSerial: nat
    var lastError: nat
    var queues: map<nat, seq<nat>>
    ghost var threads: map<nat, Thread>

    ghost function View(): State
      reads this
    {
      State(readerCount, readSerial, lastError, queues, threads)
    }

    constructor ()
      ensures View() == START && Invariant(View())
    {
      readerCount, readSerial, lastError, queues, threads := 0, 0, 0, map[], map[];
    }

    /** Nobody waits any more, even if there was no one left to wake the others. */
    method WakeupThreads()
      requires Sound(View())
      modifies this`readSerial
      ensures View() == Wake(old(View()))
      ensures Invariant(View()) && AllAwake(View())
    {
      readSerial := readSerial + 1;
    }

    /** The first error stays, and wakes everyone, even if there was no one left to wake
        the others. A later one is ignored, and must not be the last reader's. */
    method DisplayFatalError(errno: nat)
      requires Sound(View()) && (lastError != 0 ==> Invariant(View()))
      modifies this`readSerial, this`lastError
      ensures View() == Step(old(View()), Fatal(errno)) && Invariant(View())
      ensures lastError != 0 && (old(lastError) != 0 ==> lastError == old(lastError))
      ensures old(lastError) == 0 ==> AllAwake(View())
    {
      if lastError != 0 {
        return;
      }
      lastError := if errno == 0 then EFAULT else errno;
      WakeupThreads();
    }

    method DisplayCancelRead(t: nat)
      requires Invariant(View()) && Allowed(View(), Cancel(t))
      modifies this
      ensures View() == Step(old(View()), Cancel(t)) && Invariant(View())
    {
      StepKeeps(View(), Cancel(t));
      readerCount, threads := readerCount - 1, threads[t := Idle];
      if readerCount == 0 {
        WakeupThreads();
      }
    }

    method PrepareReadQueue(t: nat, q: nat) returns (ok: bool)
      requires Invariant(View()) && Allowed(View(), Prepare(t, q))
      modifies this
      ensures View() == Step(old(View()), Prepare(t, q)) && Invariant(View())
      ensures ok <==> QueueOf(queues, q) == []
    {
      StepKeeps(View(), Prepare(t, q));
      if QueueOf(queues, q) != [] {
        return false;
      }
      readerCount, threads := readerCount + 1, threads[t := Prepared(q)];
      ok := true;
    }

    method QueueEvents(events: seq<(nat, nat)>)
      modifies this`queues
      ensures queues == Queued(old(queues), events)
    {
      for i := 0 to |events|
        invariant Queued(queues, events[i..]) == Queued(old(queues), events)
      {
        var (q, e) := events[i];
        assert events[i..][1..] == events[i + 1..];
        queues := queues[q := QueueOf(queues, q) + [e]];
      }
    }

    /** Whatever the socket gives, the last reader wakes everyone. */
    method ReadAll(input: Input)
      requires Sound(View()) && readerCount == 0 && lastError == 0
      modifies this`readSerial, this`lastError, this`queues
      ensures View() == TakeInput(old(View()), input)
      ensures Invariant(View()) && AllAwake(View())
    {
      NoneReady(threads);
      match input
      case Again => WakeupThreads();
      case Broken(errno) => DisplayFatalError(errno);
      case Closed => DisplayFatalError(EPIPE);
      case Data(events, error) =>
        QueueEvents(events);
        if error.Some? {
          DisplayFatalError(error.value);
        } else {
          WakeupThreads();
        }
    }

    /** Up to the point where the thread is done or goes to sleep. */
    method DisplayReadEvents(t: nat, input: Input) returns (sleeps: bool)
      requires Invariant(View()) && Allowed(View(), Read(t, input))
      modifies this
      ensures View() == Step(old(View()), Read(t, input)) && Invariant(View())
      ensures sleeps <==> threads[t].Sleeping?
    {
      StepKeeps(View(), Read(t, input));
      if lastError != 0 {
        DisplayCancelRead(t);
        return false;
      }
      readerCount := readerCount - 1;
      if readerCount == 0 {
        threads := threads[t := Idle];
        ReadAll(input);
        return false;
      }
      threads := threads[t := Sleeping(readSerial)];
      sleeps := true;
    }

    /** What a sleeping thread does whenever it wakes, for whatever reason. */
    method CheckSerial(t: nat, serial: nat) returns (sleeps: bool, failed: bool)
      requires Invariant(View()) && ThreadOf(View(), t) == Sleeping(serial)
      modifies this`threads
      ensures sleeps <==> Waiting(old(View()), t)
      ensures View() == if sleeps then old(View()) else Step(old(View()), Return(t))
      ensures Invariant(View())
      ensures failed ==> lastError != 0
      ensures !sleeps && lastError != 0 ==> failed
    {
      if readSerial == serial {
        return true, false;
      }
      StepKeeps(View(), Return(t));
      threads := threads[t := Idle];
      return false, lastError != 0;
    }
  }
}
