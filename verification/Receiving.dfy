/** Receiving on a connection: what the socket has is read, and every message that is
    wholly there is taken. */
module Receiving {
  import opened Options
  import opened Bytes
  import opened RingBuffers
  import opened FdRings
  import opened IdMaps
  import opened ObjectMaps
  import opened Streams
  import opened Deliveries
  import opened Readings
  import Senders

  // ---------- What the receiver does ----------

  /** A change that the receiver makes to its object map. */
  datatype Edit = Enter(flag: bool, data: nat) | Place(flag: bool, id: nat, data: nat) | Vacate(id: nat)

  /** What the receiver takes ids for when it gets to a message, and what it does to the
      map behind it: it makes and destroys objects before it gets to the next. */
  datatype Handling = Handling(targets: (u32, nat) -> Target, edits: seq<Edit>)

  function CallOf(e: Edit): IdMaps.Call<nat> {
    match e
    case Enter(flag, data) => DoInsertNew(flag, Pointer(data))
    case Place(flag, id, data) => DoInsertAt(flag, id, Pointer(data))
    case Vacate(id) => DoRemove(id)
  }

  ghost predicate CanEdit(m: IdMap<nat>, edits: seq<Edit>)
    decreases |edits|
  {
    edits != [] ==>
      WellFormed(m) && Legal(m, CallOf(edits[0])) && CanEdit(Do(m, CallOf(edits[0])), edits[1..])
  }

  ghost function Edited(m: IdMap<nat>, edits: seq<Edit>): IdMap<nat>
    requires CanEdit(m, edits)
    decreases |edits|
  {
    if edits == [] then m else Edited(Do(m, CallOf(edits[0])), edits[1..])
  }

  lemma EditFirst(m: IdMap<nat>, edits: seq<Edit>)
    requires CanEdit(m, edits) && edits != []
    ensures WellFormed(m) && Legal(m, CallOf(edits[0])) && CanEdit(Do(m, CallOf(edits[0])), edits[1..])
    ensures Edited(m, edits) == Edited(Do(m, CallOf(edits[0])), edits[1..])
  {
  }

  method EditOne(objects: ObjectMap, e: Edit)
    requires objects.Valid() && WellFormed(objects.View()) && Legal(objects.View(), CallOf(e))
    modifies objects
    ensures objects.Valid() && objects.View() == Do(old(objects.View()), CallOf(e))
  {
    match e
    case Enter(flag, data) => var id := objects.InsertNew(flag, data);
    case Place(flag, id, data) => var refused := objects.InsertAt(flag, id, data);
    case Vacate(id) => objects.Remove(id);
  }

  method EditAll(objects: ObjectMap, edits: seq<Edit>)
    requires objects.Valid() && CanEdit(objects.View(), edits)
    modifies objects
    ensures objects.Valid() && objects.View() == Edited(old(objects.View()), edits)
    decreases |edits|
  {
    if edits != [] {
      EditFirst(objects.View(), edits);
      EditOne(objects, edits[0]);
      EditAll(objects, edits[1..]);
    }
  }

  // ---------- What the loop means ----------

  /** What is waiting to be read, and the object map. */
  datatype Standing = Standing(objects: IdMap<nat>, b: seq<byte>, fds: seq<u32>)

  /** What comes of a turn. `Breaks` is a receiver that misuses its map. */
  datatype Next = Waits | Fails | Goes(got: Received, standing: Standing) | Breaks

  /** Reads the message with number `n` and lets the receiver act on it. */
  ghost function Advance(handling: nat -> Handling, n: nat, s: Standing): Next {
    match ReadOne(Knowledge(s.objects, handling(n).targets), s.b, s.fds)
    case Stop => Waits
    case Fail => Fails
    case Take(got, size, fds, m) =>
      if CanEdit(m, handling(n).edits) then Goes(got, Standing(Edited(m, handling(n).edits), s.b[size..], fds))
      else Breaks
  }

  type Step = (nat, Standing) -> Next

  ghost predicate Advances(step: Step, handling: nat -> Handling) {
    forall n: nat, s: Standing {:trigger Advance(handling, n, s)} :: step(n, s) == Advance(handling, n, s)
  }

  /** Where the loop ends, what it has got by then, and whether all went well. */
  datatype Course = Course(last: Standing, got: seq<Received>, ok: bool)

  /** The loop over messages, until one is not wholly there. Messages are not empty. */
  ghost function Loop(step: Step, n: nat, s: Standing): Course
    decreases |s.b|
  {
    match step(n, s)
    case Goes(got, s') => if |s'.b| < |s.b| then Behind([got], Loop(step, n + 1, s')) else Course(s, [], false)
    case next => Course(s, [], next == Waits)
  }

  /** A course that has got something before. */
  ghost function Behind(got: seq<Received>, c: Course): Course {
    c.(got := got + c.got)
  }

  /** The receiver never misuses its map. */
  ghost predicate Proper(step: Step, n: nat, s: Standing)
    decreases |s.b|
  {
    match step(n, s)
    case Goes(_, s') => |s'.b| < |s.b| && Proper(step, n + 1, s')
    case next => next != Breaks
  }

  // ---------- The loop on ring buffers ----------

  ghost predicate Buffers(input: RingBuffer, fdsIn: RingBuffer, objects: ObjectMap)
    reads input, input.data, fdsIn, fdsIn.data, objects
  {
    input != fdsIn && input.Valid() && FdsValid(fdsIn) && objects.Valid()
  }

  ghost function StandingOf(input: RingBuffer, fdsIn: RingBuffer, objects: ObjectMap): Standing
    requires Buffers(input, fdsIn, objects)
    reads input, input.data, fdsIn, fdsIn.data, objects
  {
    Standing(objects.View(), input.Contents(), Fds(fdsIn))
  }

  lemma AdvanceIs(handling: nat -> Handling, n: nat, s: Standing, taken: Option<Received>, failed: bool,
                  now: seq<byte>, fdsNow: seq<u32>, m: IdMap<nat>)
    requires Reports(ReadOne(Knowledge(s.objects, handling(n).targets), s.b, s.fds), taken, failed,
                     s.b, now, s.fds, fdsNow, s.objects, m)
    ensures ReadOf(Advance(handling, n, s), handling(n).edits, s, taken, failed, Standing(m, now, fdsNow))
  {
  }

  /** What reading a message says of the turn, before the receiver acts on it. */
  ghost predicate ReadOf(next: Next, edits: seq<Edit>, s: Standing, taken: Option<Received>, failed: bool,
                          s': Standing) {
    match taken
    case None => next == (if failed then Fails else Waits) && (failed || s' == s)
    case Some(got) =>
      next == if CanEdit(s'.objects, edits) then Goes(got, s'.(objects := Edited(s'.objects, edits))) else Breaks
  }

  /** What stands in the buffers and the map, if they are sound. */
  ghost function Look(input: RingBuffer, fdsIn: RingBuffer, objects: ObjectMap): Option<Standing>
    reads input, input.data, fdsIn, fdsIn.data, objects
  {
    if Buffers(input, fdsIn, objects) then Some(StandingOf(input, fdsIn, objects)) else None
  }

  /** What has come of a turn: after a failure the buffers are sound, and no more is said. */
  ghost predicate Comes(next: Next, s: Standing, taken: Option<Received>, failed: bool, now: Option<Standing>) {
    match taken
    case Some(got) => now.Some? && next == Goes(got, now.value)
    case None => now.Some? && next == (if failed then Fails else Waits) && (failed || now.value == s)
  }

  /** The receiver acts on what it has read. */
  method React(input: RingBuffer, fdsIn: RingBuffer, objects: ObjectMap, edits: seq<Edit>,
               ghost m: IdMap<nat>, ghost s: Standing)
    requires Look(input, fdsIn, objects) == Some(s) && CanEdit(s.objects, edits) && m == Edited(s.objects, edits)
    modifies objects
    ensures Look(input, fdsIn, objects) == Some(s.(objects := m))
  {
    EditAll(objects, edits);
  }

  method ReadNext(input: RingBuffer, fdsIn: RingBuffer, objects: ObjectMap, handling: nat -> Handling, n: nat,
                  ghost s: Standing)
    returns (taken: Option<Received>, failed: bool, ghost s': Standing)
    requires Look(input, fdsIn, objects) == Some(s)
    modifies input`tail, fdsIn`tail, objects
    ensures Look(input, fdsIn, objects) == Some(s')
    ensures ReadOf(Advance(handling, n, s), handling(n).edits, s, taken, failed, s')
  {
    taken, failed := TakeTurn(input, fdsIn, objects, handling(n).targets);
    AdvanceIs(handling, n, s, taken, failed, input.Contents(), Fds(fdsIn), objects.View());
    s' := StandingOf(input, fdsIn, objects);
  }

  /** A turn, with what the receiver does behind the message. */
  method LoopTurn(input: RingBuffer, fdsIn: RingBuffer, objects: ObjectMap, handling: nat -> Handling, n: nat,
                  ghost step: Step, ghost s: Standing)
    returns (taken: Option<Received>, failed: bool)
    requires Look(input, fdsIn, objects) == Some(s)
    requires Advances(step, handling) && step(n, s) != Breaks
    modifies input`tail, fdsIn`tail, objects
    ensures Comes(step(n, s), s, taken, failed, Look(input, fdsIn, objects))
  {
    ghost var s';
    taken, failed, s' := ReadNext(input, fdsIn, objects, handling, n, s);
    if taken.Some? {
      React(input, fdsIn, objects, handling(n).edits, Edited(s'.objects, handling(n).edits), s');
    }
  }

  // ---------- The loop ----------

  lemma BehindNothing(c: Course)
    ensures c == Behind([], c)
  {
    assert [] + c.got == c.got;
  }

  lemma BehindMore(got: seq<Received>, r: Received, c: Course)
    ensures Behind(got, Behind([r], c)) == Behind(got + [r], c)
  {
    assert got + ([r] + c.got) == (got + [r]) + c.got;
  }

  lemma LoopStep(step: Step, n: nat, s: Standing, taken: Option<Received>, failed: bool, now: Option<Standing>)
    requires Proper(step, n, s) && Comes(step(n, s), s, taken, failed, now)
    ensures now.Some?
    ensures taken == None ==> Loop(step, n, s) == Course(s, [], !failed) && (failed || now.value == s)
    ensures taken.Some? ==>
      && |now.value.b| < |s.b| && Proper(step, n + 1, now.value)
      && Loop(step, n, s) == Behind([taken.value], Loop(step, n + 1, now.value))
  {
  }

  /** A loop that has taken `got` so far. */
  ghost predicate Halfway(course: Course, got: seq<Received>, step: Step, n: nat, s: Standing) {
    Proper(step, n, s) && course == Behind(got, Loop(step, n, s))
  }

  ghost predicate Finished(course: Course, got: seq<Received>, ok: bool, s: Standing) {
    got == course.got && ok == course.ok && (ok ==> s == course.last)
  }

  lemma TurnAhead(course: Course, got: seq<Received>, step: Step, n: nat, s: Standing,
                  taken: Option<Received>, failed: bool, now: Option<Standing>)
    requires Halfway(course, got, step, n, s) && Comes(step(n, s), s, taken, failed, now)
    ensures now.Some?
    ensures taken == None ==> Finished(course, got, !failed, now.value)
    ensures taken.Some? ==> |now.value.b| < |s.b| && Halfway(course, got + [taken.value], step, n + 1, now.value)
  {
    LoopStep(step, n, s, taken, failed, now);
    if taken.Some? {
      BehindMore(got, taken.value, Loop(step, n + 1, now.value));
    } else {
      assert got + [] == got;
    }
  }

  /** A turn of a loop that has taken `got` so far. */
  method TakeOneMore(input: RingBuffer, fdsIn: RingBuffer, objects: ObjectMap, handling: nat -> Handling, n: nat,
                     got: seq<Received>, ghost step: Step, ghost s: Standing, ghost course: Course)
    returns (stop: bool, ok: bool, got': seq<Received>, ghost s': Standing)
    requires Look(input, fdsIn, objects) == Some(s) && Advances(step, handling) && Halfway(course, got, step, n, s)
    modifies input`tail, fdsIn`tail, objects
    ensures Look(input, fdsIn, objects) == Some(s')
    ensures if stop then Finished(course, got', ok, s') else |s'.b| < |s.b| && Halfway(course, got', step, n + 1, s')
  {
    var taken, failed := LoopTurn(input, fdsIn, objects, handling, n, step, s);
    TurnAhead(course, got, step, n, s, taken, failed, Look(input, fdsIn, objects));
    s' := Look(input, fdsIn, objects).value;
    stop, ok, got' := taken == None, !failed, if taken == None then got else got + [taken.value];
  }

  /** The loop over messages, on the ring buffers and the one object map, which the receiver
      changes between the messages: from any of its turns on. */
  method ReadMore(input: RingBuffer, fdsIn: RingBuffer, objects: ObjectMap, handling: nat -> Handling, n: nat,
                  got: seq<Received>, ghost step: Step, ghost s: Standing, ghost course: Course)
    returns (got': seq<Received>, ok: bool, ghost s': Standing)
    requires Look(input, fdsIn, objects) == Some(s) && Advances(step, handling) && Halfway(course, got, step, n, s)
    modifies input`tail, fdsIn`tail, objects
    ensures Look(input, fdsIn, objects) == Some(s') && Finished(course, got', ok, s')
    decreases |s.b|
  {
    var stop;
    stop, ok, got', s' := TakeOneMore(input, fdsIn, objects, handling, n, got, step, s, course);
    if !stop {
      got', ok, s' := ReadMore(input, fdsIn, objects, handling, n + 1, got', step, s', course);
    }
  }

  // ---------- Socket and messages ----------

  ghost function InputIn(input: RingBuffer, fdsIn: RingBuffer): Option<Input>
    reads input, input.data, fdsIn, fdsIn.data
  {
    if Sound(input, fdsIn) then Some(InputOf(input, fdsIn)) else None
  }

  /** What stands there when this has been read. */
  ghost function Filled(s: Standing, i: Input): Standing {
    s.(b := i.bytes, fds := i.queue.fds)
  }

  /** Reads what the socket has. */
  method Fill(input: RingBuffer, fdsIn: RingBuffer, objects: ObjectMap, calls: seq<Readings.Call>,
              ghost i: Input, ghost s: Standing)
    returns (read: ReadResult)
    requires InputIn(input, fdsIn) == Some(i) && Look(input, fdsIn, objects) == Some(s) && Roomy(i, calls)
    modifies input`data, input`head, input`tail, input`sizeBits, input.data
    modifies fdsIn`data, fdsIn`head, fdsIn`tail, fdsIn`sizeBits, fdsIn.data
    ensures read == Reads(i, calls).1 && Arrays(input, fdsIn)
    ensures Look(input, fdsIn, objects) == Some(Filled(s, Reads(i, calls).0))
  {
    read := ConnectionRead(input, fdsIn, calls);
  }

  /** The connection is over: reading failed, or the other side has closed it and nothing
      is left to take. */
  predicate Over(read: ReadResult) {
    read == Failed || read == Stored(0)
  }

  /** Reads what the socket has, and takes the messages that are wholly there. */
  method ReceiveEvents(input: RingBuffer, fdsIn: RingBuffer, objects: ObjectMap, calls: seq<Readings.Call>,
                       handling: nat -> Handling, n: nat, ghost step: Step, ghost i: Input, ghost s: Standing)
    returns (got: seq<Received>, ok: bool, ghost s': Standing)
    requires InputIn(input, fdsIn) == Some(i) && Look(input, fdsIn, objects) == Some(s) && Roomy(i, calls)
    requires Advances(step, handling)
    requires !Over(Reads(i, calls).1) ==> Proper(step, n, Filled(s, Reads(i, calls).0))
    modifies input`data, input`head, input`tail, input`sizeBits, input.data
    modifies fdsIn`data, fdsIn`head, fdsIn`tail, fdsIn`sizeBits, fdsIn.data, objects
    ensures Look(input, fdsIn, objects) == Some(s')
    ensures if Over(Reads(i, calls).1) then got == [] && !ok
            else Finished(Loop(step, n, Filled(s, Reads(i, calls).0)), got, ok, s')
  {
    var read := Fill(input, fdsIn, objects, calls, i, s);
    s' := Filled(s, Reads(i, calls).0);
    if Over(read) {
      return [], false, s';
    }
    BehindNothing(Loop(step, n, s'));
    got, ok, s' := ReadMore(input, fdsIn, objects, handling, n, [], step, s', Loop(step, n, s'));
  }

  // ---------- What has been received ----------

  /** What a receiver knows is what it has made of its map. */
  ghost predicate Follows(know: nat -> Knowledge, handling: nat -> Handling, step: Step, n: nat, s: Standing)
    decreases |s.b|
  {
    && know(n) == Knowledge(s.objects, handling(n).targets)
    && match step(n, s)
       case Goes(_, s') => |s'.b| < |s.b| ==> Follows(know, handling, step, n + 1, s')
       case _ => true
  }

  /** What it knows when it comes to message `m`. */
  ghost function Learnt(handling: nat -> Handling, step: Step, n: nat, s: Standing, m: nat): Knowledge
    decreases m - n
  {
    var next := step(n, s);
    if m > n && next.Goes? then Learnt(handling, step, n + 1, next.standing, m)
    else Knowledge(s.objects, handling(n).targets)
  }

  /** There is such a knowledge, whatever the receiver does. */
  lemma {:induction false} LearntFollows(know: nat -> Knowledge, handling: nat -> Handling, step: Step, n: nat,
                                         s: Standing)
    requires forall m: nat | m >= n :: know(m) == Learnt(handling, step, n, s, m)
    ensures Follows(know, handling, step, n, s)
    decreases |s.b|
  {
    if step(n, s).Goes? && |step(n, s).standing.b| < |s.b| {
      LearntFollows(know, handling, step, n + 1, step(n, s).standing);
    }
  }

  /** With that knowledge the loop is the reading of the stream. Afterwards the map is what
      the receiver knows when it comes to the next message. */
  lemma {:induction false} LoopIsReading(know: nat -> Knowledge, handling: nat -> Handling, step: Step, n: nat,
                                         s: Standing)
    requires Advances(step, handling) && Follows(know, handling, step, n, s) && Proper(step, n, s)
    ensures IsReading(know, n, Loop(step, n, s), ReadLoop(know, n, s.b, s.fds))
    decreases |s.b|
  {
    AdvanceReads(know, handling, n, s);
    assert step(n, s) == Advance(handling, n, s);
    var next := Advance(handling, n, s);
    var r, rest := ReadLoop(know, n, s.b, s.fds), Reading([], [], [], true);
    if next.Goes? {
      rest := ReadLoop(know, n + 1, next.standing.b, next.standing.fds);
      LoopIsReading(know, handling, step, n + 1, next.standing);
    }
    ReadsFrom(know, step, n, s, next, r, rest);
  }

  /** One turn of both. */
  lemma AdvanceReads(know: nat -> Knowledge, handling: nat -> Handling, n: nat, s: Standing)
    requires know(n) == Knowledge(s.objects, handling(n).targets)
    ensures match Advance(handling, n, s)
            case Waits => ReadLoop(know, n, s.b, s.fds) == Reading([], s.b, s.fds, true)
            case Fails => ReadLoop(know, n, s.b, s.fds) == Reading([], s.b, s.fds, false)
            case Goes(got, s') =>
              var rest := ReadLoop(know, n + 1, s'.b, s'.fds);
              && |s'.b| < |s.b|
              && ReadLoop(know, n, s.b, s.fds) == rest.(got := [got] + rest.got)
            case Breaks => true
  {
  }

  /** The loop is the reading of what stands there. */
  ghost predicate IsReading(know: nat -> Knowledge, n: nat, c: Course, r: Reading) {
    && c.got == r.got && c.ok == r.ok
    && (c.ok ==> c.last.b == r.b && c.last.fds == r.fds && know(n + |c.got|).objects == c.last.objects)
  }

  lemma ReadsFrom(know: nat -> Knowledge, step: Step, n: nat, s: Standing, next: Next, r: Reading, rest: Reading)
    requires next == step(n, s) && Proper(step, n, s) && know(n).objects == s.objects
    requires !next.Goes? ==> r == Reading([], s.b, s.fds, next == Waits)
    requires next.Goes? ==>
      IsReading(know, n + 1, Loop(step, n + 1, next.standing), rest) && r == rest.(got := [next.got] + rest.got)
    ensures IsReading(know, n, Loop(step, n, s), r)
  {
    if next.Goes? {
      var c := Loop(step, n + 1, next.standing);
      assert n + |[next.got] + c.got| == n + 1 + |c.got|;
    }
  }

  /** The two ring buffers of this receiver. */
  ghost predicate Holds(i: Input, s: Standing, r: Receiver) {
    r.ok && i.bytes == s.b == r.b && i.queue.fds == s.fds == r.fds
  }

  /** The receiver after it has taken what it can. */
  ghost predicate Became(know: nat -> Knowledge, r: Receiver, c: Course, r': Receiver) {
    && r'.got == r.got + c.got && r'.ok == c.ok
    && (c.ok ==> r'.b == c.last.b && r'.fds == c.last.fds && know(|r'.got|).objects == c.last.objects)
  }

  /** One read and the loop behind it are one delivery: of what the calls have brought. */
  lemma EventsAreReceived(know: nat -> Knowledge, handling: nat -> Handling, step: Step, r: Receiver,
                          i: Input, s: Standing, calls: seq<Readings.Call>, ds: seq<Delivery>)
    requires Holds(i, s, r) && Brings(i, calls, ds, Reads(i, calls).0, Reads(i, calls).1)
    requires var s1 := Filled(s, Reads(i, calls).0);
             && Advances(step, handling) && Follows(know, handling, step, |r.got|, s1) && Proper(step, |r.got|, s1)
    ensures Became(know, r, Loop(step, |r.got|, Filled(s, Reads(i, calls).0)),
                   Receive(know, r, Delivery(BytesIn(ds), FdsIn(ds))))
  {
    var s1 := Filled(s, Reads(i, calls).0);
    assert s1.b == r.b + BytesIn(ds) && s1.fds == r.fds + FdsIn(ds);
    LoopIsReading(know, handling, step, |r.got|, s1);
    var c := Loop(step, |r.got|, s1);
    assert |r.got + c.got| == |r.got| + |c.got|;
  }

  /** From a sender to the buffers of a receiver: when the calls bring the next pieces of
      what has left the sender, the receiver gets the messages that have wholly come by
      then, and holds the beginning of the next. */
  lemma EventsFromSender(know: nat -> Knowledge, handling: nat -> Handling, step: Step,
                         run: Senders.Run, msgs: seq<Message>, frames: seq<seq<byte>>, at: nat, cuts: seq<nat>,
                         r: Receiver, i: Input, s: Standing, calls: seq<Readings.Call>)
    requires Senders.Reachable(run) && Carries(run, msgs, frames) && AllSendable(know, 0, msgs)
    requires at <= |Senders.WireBytes(run.s.wire)| && Ascending(run.s.wire, at, cuts) && cuts != []
    requires var wire := run.s.wire;
             && Arrived(msgs, frames, Senders.WireBytes(wire)[..at], Senders.FdsWith(wire, at))
             && r == After(know, msgs, frames, Senders.WireBytes(wire)[..at], Senders.FdsWith(wire, at))
    requires Holds(i, s, r)
    requires Brings(i, calls, Pieces(run.s.wire, at, cuts), Reads(i, calls).0, Reads(i, calls).1)
    requires var s1 := Filled(s, Reads(i, calls).0);
             && Advances(step, handling) && Follows(know, handling, step, |r.got|, s1) && Proper(step, |r.got|, s1)
    ensures var wire, n := run.s.wire, cuts[|cuts| - 1];
            && n <= |Senders.WireBytes(wire)|
            && Arrived(msgs, frames, Senders.WireBytes(wire)[..n], Senders.FdsWith(wire, n))
            && Became(know, r, Loop(step, |r.got|, Filled(s, Reads(i, calls).0)),
                      After(know, msgs, frames, Senders.WireBytes(wire)[..n], Senders.FdsWith(wire, n)))
  {
    var wire, n := run.s.wire, cuts[|cuts| - 1];
    var ds := Pieces(wire, at, cuts);
    PiecesAreTimely(run, msgs, frames, at, cuts);
    WireArrives(run, msgs, frames, n);
    EventsAreReceived(know, handling, step, r, i, s, calls, ds);
    ReceiveMore(know, msgs, frames, Senders.WireBytes(wire)[..at], Senders.FdsWith(wire, at),
                Delivery(BytesIn(ds), FdsIn(ds)), Senders.WireBytes(wire)[..n], Senders.FdsWith(wire, n));
  }
}
