/** The sending side of a connection, as queues of bytes and of file descriptors
    that leave in packets, and why descriptors never fall behind their message. */
module Senders {
  import opened Bytes
  import Wire

  const MAX_FDS_OUT := 28
  const HEADER_BYTES := 8

  /** What one call of sendmsg moved: some bytes, with descriptors attached to the first. */
  datatype Packet = Packet(bytes: seq<byte>, fds: seq<u32>)

  datatype Sender = Sender(out: seq<byte>, fds: seq<u32>, wire: seq<Packet>)

  function BatchSize(s: Sender): nat {
    if |s.fds| > MAX_FDS_OUT then MAX_FDS_OUT else |s.fds|
  }

  /** A full batch of descriptors goes with a single byte, so that the remaining ones
      can still go first. */
  function Offered(s: Sender): nat {
    if BatchSize(s) == MAX_FDS_OUT then 1 else |s.out|
  }

  /** sendmsg may take any part of what it is offered, but not nothing. */
  predicate CanSend(s: Sender, len: nat) {
    s.out != [] && 1 <= len <= Offered(s)
  }

  function SendOne(s: Sender, len: nat): Sender
    requires CanSend(s, len)
  {
    Sender(s.out[len..], s.fds[BatchSize(s)..], s.wire + [Packet(s.out[..len], s.fds[..BatchSize(s)])])
  }

  ghost predicate CanSendAll(s: Sender, lens: seq<nat>)
    decreases |lens|
  {
    lens != [] ==> CanSend(s, lens[0]) && CanSendAll(SendOne(s, lens[0]), lens[1..])
  }

  ghost function SendAll(s: Sender, lens: seq<nat>): Sender
    requires CanSendAll(s, lens)
    decreases |lens|
  {
    if lens == [] then s else SendAll(SendOne(s, lens[0]), lens[1..])
  }

  // ---------- What has left ----------

  ghost function WireBytes(wire: seq<Packet>): seq<byte> {
    if wire == [] then [] else WireBytes(wire[..|wire| - 1]) + wire[|wire| - 1].bytes
  }

  ghost function WireFds(wire: seq<Packet>): seq<u32> {
    if wire == [] then [] else WireFds(wire[..|wire| - 1]) + wire[|wire| - 1].fds
  }

  /** The descriptors attached to the first `n` bytes: a packet's descriptors come
      with its first byte. */
  ghost function FdsWith(wire: seq<Packet>, n: nat): seq<u32> {
    if wire == [] then []
    else
      var before := wire[..|wire| - 1];
      if n <= |WireBytes(before)| then FdsWith(before, n) else WireFds(wire)
  }

  lemma {:induction false} FdsWithIsPrefix(wire: seq<Packet>, n: nat)
    ensures FdsWith(wire, n) <= WireFds(wire)
    decreases |wire|
  {
    if wire != [] {
      FdsWithIsPrefix(wire[..|wire| - 1], n);
    }
  }

  // ---------- The pace ----------

  /** A message that has been queued: bytes and descriptors queued up to its end. */
  datatype Mark = Mark(bytes: nat, fds: nat)

  /** Up to the end of each queued message, at most 28 descriptors wait for every byte
      that waits. */
  ghost predicate Paced(s: Sender, marks: seq<Mark>) {
    var sentBytes, sentFds := |WireBytes(s.wire)|, |WireFds(s.wire)|;
    forall j | 0 <= j < |marks| ::
      && marks[j].bytes <= sentBytes + |s.out| && marks[j].fds <= sentFds + |s.fds|
      && (marks[j].fds <= sentFds || marks[j].fds - sentFds <= MAX_FDS_OUT * (marks[j].bytes - sentBytes))
  }

  /** Whoever has received all bytes of a message has been given all its descriptors. */
  ghost predicate Covered(wire: seq<Packet>, marks: seq<Mark>) {
    forall j, n: nat | 0 <= j < |marks| && marks[j].bytes <= n <= |WireBytes(wire)| ::
      marks[j].fds <= |FdsWith(wire, n)|
  }

  lemma SendKeepsPace(s: Sender, len: nat, marks: seq<Mark>)
    requires CanSend(s, len) && Paced(s, marks) && Covered(s.wire, marks)
    ensures var s' := SendOne(s, len); Paced(s', marks) && Covered(s'.wire, marks)
  {
    var s' := SendOne(s, len);
    assert s'.wire[..|s'.wire| - 1] == s.wire;
    assert |WireBytes(s'.wire)| == |WireBytes(s.wire)| + len;
    assert |WireFds(s'.wire)| == |WireFds(s.wire)| + BatchSize(s);
  }

  // ---------- Runs ----------

  /** A sender puts the descriptors of a message one by one, then appends its bytes;
      parts may be flushed at any point. */
  datatype Act = Flush(len: nat) | Put(fd: u32) | Append(bytes: seq<byte>)

  /** A sender with its history: the messages queued, the descriptors put since the
      last of them, and all that was ever queued. */
  datatype Run = Run(s: Sender, marks: seq<Mark>, puts: nat, allBytes: seq<byte>, allFds: seq<u32>)

  /** Nothing was queued between the two: at most something was sent. */
  ghost predicate SameHistory(r: Run, r': Run) {
    r'.marks == r.marks && r'.puts == r.puts && r'.allBytes == r.allBytes && r'.allFds == r.allFds
  }

  /** Between the two, these descriptors were put, and no bytes appended. */
  ghost predicate FdsQueued(r: Run, r': Run, fds: seq<u32>) {
    && r'.marks == r.marks && r'.allBytes == r.allBytes
    && r'.puts == r.puts + |fds| && r'.allFds == r.allFds + fds
  }

  /** Between the two, the bytes that end a message were appended. */
  ghost predicate BytesQueued(r: Run, r': Run, bytes: seq<byte>) {
    && r'.allBytes == r.allBytes + bytes && r'.allFds == r.allFds && r'.puts == 0
    && r'.marks == r.marks + [Mark(|r'.allBytes|, |r'.allFds|)]
  }

  const START := Run(Sender([], [], []), [], 0, [], [])

  /** A message has at most 20 arguments and at least its header. */
  predicate Allowed(r: Run, act: Act) {
    match act
    case Flush(len) => CanSend(r.s, len)
    case Put(_) => r.puts < Wire.MAX_ARGS
    case Append(bytes) => |bytes| >= HEADER_BYTES
  }

  function Step(r: Run, act: Act): Run
    requires Allowed(r, act)
  {
    match act
    case Flush(len) => r.(s := SendOne(r.s, len))
    case Put(fd) => r.(s := r.s.(fds := r.s.fds + [fd]), puts := r.puts + 1, allFds := r.allFds + [fd])
    case Append(bytes) =>
      r.(s := r.s.(out := r.s.out + bytes), allBytes := r.allBytes + bytes, puts := 0,
         marks := r.marks + [Mark(|r.allBytes + bytes|, |r.allFds|)])
  }

  ghost predicate RunAllowed(r: Run, acts: seq<Act>)
    decreases |acts|
  {
    acts != [] ==> Allowed(r, acts[0]) && RunAllowed(Step(r, acts[0]), acts[1..])
  }

  ghost function RunAll(r: Run, acts: seq<Act>): Run
    requires RunAllowed(r, acts)
    decreases |acts|
  {
    if acts == [] then r else RunAll(Step(r, acts[0]), acts[1..])
  }

  /** Nothing is lost, doubled or reordered: what has left and what waits are all
      that was queued. */
  ghost predicate Conserved(r: Run) {
    WireBytes(r.s.wire) + r.s.out == r.allBytes && WireFds(r.s.wire) + r.s.fds == r.allFds
  }

  /** The last mark accounts for everything but the descriptors put since. */
  ghost predicate Accounted(r: Run) {
    && r.puts <= Wire.MAX_ARGS
    && if r.marks == [] then r.allBytes == [] && |r.allFds| == r.puts
       else var last := r.marks[|r.marks| - 1];
            last.bytes == |r.allBytes| && last.fds + r.puts == |r.allFds|
  }

  ghost predicate Invariant(r: Run) {
    Conserved(r) && Accounted(r) && Paced(r.s, r.marks) && Covered(r.s.wire, r.marks)
  }

  lemma StepConserves(r: Run, act: Act)
    requires Conserved(r) && Allowed(r, act)
    ensures Conserved(Step(r, act))
  {
    if act.Flush? {
      var s, s' := r.s, SendOne(r.s, act.len);
      assert s'.wire[..|s'.wire| - 1] == s.wire;
      assert s.out == s.out[..act.len] + s.out[act.len..];
      assert s.fds == s.fds[..BatchSize(s)] + s.fds[BatchSize(s)..];
      assert (WireBytes(s.wire) + s.out[..act.len]) + s.out[act.len..] == r.allBytes;
      assert (WireFds(s.wire) + s.fds[..BatchSize(s)]) + s.fds[BatchSize(s)..] == r.allFds;
    }
  }

  /** Twenty more descriptors are no more than the eight more bytes can carry. */
  lemma StepKeepsPace(r: Run, act: Act)
    requires Invariant(r) && Allowed(r, act)
    ensures var r' := Step(r, act); Paced(r'.s, r'.marks) && Covered(r'.s.wire, r'.marks)
  {
    if act.Flush? {
      SendKeepsPace(r.s, act.len, r.marks);
    } else {
      assert |r.allBytes| == |WireBytes(r.s.wire)| + |r.s.out|;
      assert |r.allFds| == |WireFds(r.s.wire)| + |r.s.fds|;
    }
  }

  lemma StepKeepsInvariant(r: Run, act: Act)
    requires Invariant(r) && Allowed(r, act)
    ensures Invariant(Step(r, act))
  {
    StepConserves(r, act);
    StepKeepsPace(r, act);
  }

  /** In every run, with flushes of any size at any point: all bytes and descriptors
      leave once and in order, and with the last byte of a message all its descriptors
      have left. */
  lemma {:induction false} FdsBeforeBytes(r: Run, acts: seq<Act>)
    requires Invariant(r) && RunAllowed(r, acts)
    ensures Invariant(RunAll(r, acts))
    decreases |acts|
  {
    if acts != [] {
      StepKeepsInvariant(r, acts[0]);
      FdsBeforeBytes(Step(r, acts[0]), acts[1..]);
    }
  }

  ghost predicate Reachable(r: Run) {
    exists acts :: RunAllowed(START, acts) && RunAll(START, acts) == r
  }

  lemma {:induction false} RunOneMore(r: Run, acts: seq<Act>, act: Act)
    requires RunAllowed(r, acts) && Allowed(RunAll(r, acts), act)
    ensures RunAllowed(r, acts + [act]) && RunAll(r, acts + [act]) == Step(RunAll(r, acts), act)
    decreases |acts|
  {
    if acts == [] {
      assert acts + [act] == [act] && [act][1..] == [];
    } else {
      RunOneMore(Step(r, acts[0]), acts[1..], act);
      assert (acts + [act])[1..] == acts[1..] + [act];
    }
  }

  lemma ReachableStep(r: Run, act: Act)
    requires Reachable(r) && Allowed(r, act)
    ensures Reachable(Step(r, act))
  {
    var acts :| RunAllowed(START, acts) && RunAll(START, acts) == r;
    RunOneMore(START, acts, act);
  }

  lemma StartIsReachable()
    ensures Reachable(START)
  {
    assert RunAllowed(START, []) && RunAll(START, []) == START;
  }

  /** The invariant holds in every state a sender can get into. */
  lemma ReachableInvariant(r: Run)
    requires Reachable(r)
    ensures Invariant(r)
  {
    var acts :| RunAllowed(START, acts) && RunAll(START, acts) == r;
    FdsBeforeBytes(START, acts);
  }

  /** With 29 descriptors for each byte the pace would not be kept: the bound on the
      arguments of a message is needed. */
  lemma TooManyFdsFallBehind(fd: u32, bytes: seq<byte>)
    requires |bytes| == 1
    ensures var s := Sender(bytes, seq(29, i => fd), []);
            CanSend(s, 1) && SendOne(s, 1).out == [] && SendOne(s, 1).fds == [fd]
  {
  }
}
