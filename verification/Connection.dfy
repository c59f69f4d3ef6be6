/** The output half of a connection: its two ring buffers, and the flush loop that
    mixes bytes and descriptors. */
module Connections {
  import opened Options
  import opened Bytes
  import Wire
  import opened Powers
  import opened RingBuffers
  import opened FdRings
  import opened Senders

  const DEFAULT_MAX_SIZE := 4096

  /** What the kernel answers to a call of sendmsg. */
  datatype SendResult = Sent(len: nat) | Again | Broken

  datatype Status = Done | Blocked | Failed

  /** What happens while something is stored: the answers if the buffer is flushed first,
      and whether there is memory. */
  datatype Turn = Turn(results: seq<SendResult>, memory: bool)

  // ---------- What sending means ----------

  /** What waits, with its history; whether it is to be flushed; and the sizes of the two
      buffers with the limits to them. */
  datatype Output = Output(run: Run, want: bool, bits: nat, limit: nat, fdBits: nat, fdLimit: nat)

  /** sendmsg takes some of what it is offered, but not nothing. */
  function Taken(len: nat, offered: nat): nat {
    if len < 1 then 1 else if len > offered then offered else len
  }

  /** The flush loop: what each answer takes leaves. Behind the last answer the socket is full. */
  ghost function Flushing(r: Run, results: seq<SendResult>): (Run, Status)
    decreases |results|
  {
    if r.s.out == [] then (r, Done)
    else if results == [] || results[0] == Again then (r, Blocked)
    else if results[0] == Broken then (r, Failed)
    else Flushing(Step(r, Act.Flush(Taken(results[0].len, Offered(r.s)))), results[1..])
  }

  ghost function Flushed(o: Output, results: seq<SendResult>): (Output, Status) {
    if !o.want then (o, Done)
    else
      var (r, status) := Flushing(o.run, results);
      (o.(run := r, want := status != Done), status)
  }

  /** A buffer that is too full is flushed first; a blocked socket is no error. */
  ghost function FlushedFirst(o: Output, full: bool, results: seq<SendResult>): (Output, bool) {
    if !full then (o, true)
    else
      var (o1, status) := Flushed(o.(want := true), results);
      (o1, status != Failed)
  }

  ghost function StoredFd(o: Output, fd: u32, memory: bool): (Output, bool)
    requires o.run.puts < Wire.MAX_ARGS
  {
    match Grown(o.fdLimit, o.fdBits, 4 * |o.run.s.fds| + 4, memory)
    case Some(bits) => (o.(run := Step(o.run, Put(fd)), fdBits := bits), true)
    case None => (o, false)
  }

  /** A descriptor joins those that wait. */
  ghost function WithFd(o: Output, fd: u32, turn: Turn): (Output, bool)
    requires o.run.puts < Wire.MAX_ARGS
  {
    FlushKeepsHistory(o, |o.run.s.fds| >= MAX_FDS_OUT, turn.results);
    var (o1, ok) := FlushedFirst(o, |o.run.s.fds| >= MAX_FDS_OUT, turn.results);
    if ok then StoredFd(o1, fd, turn.memory) else (o1, false)
  }

  ghost function WithFds(o: Output, fds: seq<u32>, turns: seq<Turn>): (Output, bool)
    requires o.run.puts + |fds| <= Wire.MAX_ARGS && |turns| >= |fds|
    decreases |fds|
  {
    if fds == [] then (o, true)
    else
      FdQueues(o, fds[0], turns[0]);
      var (o1, ok) := WithFd(o, fds[0], turns[0]);
      if ok then WithFds(o1, fds[1..], turns[1..]) else (o1, false)
  }

  ghost function StoredBytes(o: Output, bytes: seq<byte>, memory: bool): (Output, bool)
    requires |bytes| >= HEADER_BYTES
  {
    match Grown(o.limit, o.bits, |o.run.s.out| + |bytes|, memory)
    case Some(bits) => (o.(run := Step(o.run, Append(bytes)), bits := bits), true)
    case None => (o, false)
  }

  /** The bytes of a message join those that wait. */
  ghost function WithBytes(o: Output, bytes: seq<byte>, turn: Turn): (Output, bool)
    requires |bytes| >= HEADER_BYTES
  {
    var (o1, ok) := FlushedFirst(o, |o.run.s.out| + |bytes| > DEFAULT_MAX_SIZE, turn.results);
    if ok then StoredBytes(o1, bytes, turn.memory) else (o1, false)
  }

  /** First its descriptors, then its bytes, and it shall leave with the next flush. */
  ghost function WithMessage(o: Output, fds: seq<u32>, bytes: seq<byte>, turns: seq<Turn>): (Output, bool)
    requires o.run.puts + |fds| <= Wire.MAX_ARGS && |turns| == |fds| + 1 && |bytes| >= HEADER_BYTES
  {
    var (o1, put) := WithFds(o, fds, turns);
    if !put then (o1, false)
    else
      var (o2, ok) := WithBytes(o1, bytes, turns[|fds|]);
      (if ok then o2.(want := true) else o2, ok)
  }

  // ---------- What flushing does ----------

  /** The limits stay. */
  ghost predicate SameLimits(o: Output, o': Output) {
    o'.limit == o.limit && o'.fdLimit == o.fdLimit
  }

  /** Some bytes and descriptors may have left. */
  ghost predicate Shrunk(o: Output, o': Output) {
    |o'.run.s.out| <= |o.run.s.out| && |o'.run.s.fds| <= |o.run.s.fds|
  }

  /** Flushing is a number of calls of sendmsg, each of which takes what it answers, within
      what it was offered; and why it ends. */
  lemma {:induction false} FlushingSends(r: Run, results: seq<SendResult>) returns (lens: seq<nat>)
    ensures var (r', status) := Flushing(r, results);
            && CanSendAll(r.s, lens) && r'.s == SendAll(r.s, lens) && SameHistory(r, r')
            && |lens| <= |results|
            && (forall k | 0 <= k < |lens| :: results[k].Sent? && (lens[k] == 1 || lens[k] <= results[k].len))
            && match status
               case Done => r'.s.out == []
               case Blocked => |lens| == |results| || results[|lens|] == Again
               case Failed => |lens| < |results| && results[|lens|] == Broken
    decreases |results|
  {
    lens := [];
    if r.s.out != [] && results != [] && results[0].Sent? {
      var len := Taken(results[0].len, Offered(r.s));
      var more := FlushingSends(Step(r, Act.Flush(len)), results[1..]);
      lens := [len] + more;
      assert lens[1..] == more;
    }
  }

  lemma {:induction false} FlushingShrinks(r: Run, results: seq<SendResult>)
    ensures var r' := Flushing(r, results).0;
            SameHistory(r, r') && |r'.s.out| <= |r.s.out| && |r'.s.fds| <= |r.s.fds|
    decreases |results|
  {
    if r.s.out != [] && results != [] && results[0].Sent? {
      FlushingShrinks(Step(r, Act.Flush(Taken(results[0].len, Offered(r.s)))), results[1..]);
    }
  }

  lemma FlushKeepsHistory(o: Output, full: bool, results: seq<SendResult>)
    ensures var o' := FlushedFirst(o, full, results).0;
            SameHistory(o.run, o'.run) && SameLimits(o, o') && Shrunk(o, o')
  {
    FlushingShrinks(o.run, results);
  }

  // ---------- What sending does ----------

  /** A descriptor is queued, or there is a reason. */
  lemma FdQueues(o: Output, fd: u32, turn: Turn)
    requires o.run.puts < Wire.MAX_ARGS
    ensures var (o', ok) := WithFd(o, fd, turn);
            && (if ok then FdsQueued(o.run, o'.run, [fd]) else SameHistory(o.run, o'.run))
            && SameLimits(o, o') && |o'.run.s.out| <= |o.run.s.out| && |o'.run.s.fds| <= |o.run.s.fds| + 1
  {
    FlushKeepsHistory(o, |o.run.s.fds| >= MAX_FDS_OUT, turn.results);
  }

  lemma {:induction false} FdsQueue(o: Output, fds: seq<u32>, turns: seq<Turn>)
    requires o.run.puts + |fds| <= Wire.MAX_ARGS && |turns| >= |fds|
    ensures var (o', ok) := WithFds(o, fds, turns);
            && (ok ==> FdsQueued(o.run, o'.run, fds))
            && o'.run.marks == o.run.marks && o'.run.allBytes == o.run.allBytes
            && SameLimits(o, o') && |o'.run.s.out| <= |o.run.s.out|
    decreases |fds|
  {
    if fds != [] {
      FdQueues(o, fds[0], turns[0]);
      var (o1, ok) := WithFd(o, fds[0], turns[0]);
      if ok {
        FdsQueue(o1, fds[1..], turns[1..]);
        assert fds == [fds[0]] + fds[1..];
      }
    } else {
      assert o.run.allFds + fds == o.run.allFds;
    }
  }

  lemma BytesQueue(o: Output, bytes: seq<byte>, turn: Turn)
    requires |bytes| >= HEADER_BYTES
    ensures var (o', ok) := WithBytes(o, bytes, turn);
            && (if ok then BytesQueued(o.run, o'.run, bytes) else SameHistory(o.run, o'.run))
            && SameLimits(o, o')
  {
    FlushKeepsHistory(o, |o.run.s.out| + |bytes| > DEFAULT_MAX_SIZE, turn.results);
  }

  /** A message joins the stream whole, after what was there; one that fails leaves no byte. */
  lemma MessageQueues(o: Output, fds: seq<u32>, bytes: seq<byte>, turns: seq<Turn>)
    requires o.run.puts == 0 && |fds| <= Wire.MAX_ARGS && |turns| == |fds| + 1 && |bytes| >= HEADER_BYTES
    ensures var (o', ok) := WithMessage(o, fds, bytes, turns);
            && o'.run.allBytes == o.run.allBytes + (if ok then bytes else [])
            && (ok ==> o'.run.allFds == o.run.allFds + fds && o'.run.puts == 0)
            && o'.run.marks
               == o.run.marks + if ok then [Mark(|o'.run.allBytes|, |o'.run.allFds|)] else []
  {
    FdsQueue(o, fds, turns);
    var (o1, put) := WithFds(o, fds, turns);
    if put {
      BytesQueue(o1, bytes, turns[|fds|]);
    }
    assert o.run.allBytes + [] == o.run.allBytes && o.run.marks + [] == o.run.marks;
  }

  /** What can make storing fail: a broken socket, no memory, or the limit of a buffer. */
  ghost predicate Trouble(turn: Turn, limit: nat, size: nat) {
    Broken in turn.results || !turn.memory || (limit > 0 && size > Pow2(limit))
  }

  lemma FlushFails(o: Output, full: bool, results: seq<SendResult>)
    requires !FlushedFirst(o, full, results).1
    ensures Broken in results
  {
    var lens := FlushingSends(o.run, results);
  }

  lemma FdFails(o: Output, fd: u32, turn: Turn)
    requires o.run.puts < Wire.MAX_ARGS && !WithFd(o, fd, turn).1
    ensures Trouble(turn, o.fdLimit, 4 * |o.run.s.fds| + 4)
  {
    var full := |o.run.s.fds| >= MAX_FDS_OUT;
    FlushKeepsHistory(o, full, turn.results);
    if !FlushedFirst(o, full, turn.results).1 {
      FlushFails(o, full, turn.results);
    }
  }

  lemma {:induction false} FdsFail(o: Output, fds: seq<u32>, turns: seq<Turn>) returns (k: nat)
    requires o.run.puts + |fds| <= Wire.MAX_ARGS && |turns| >= |fds| && !WithFds(o, fds, turns).1
    ensures k < |fds| && Trouble(turns[k], o.fdLimit, 4 * (|o.run.s.fds| + k) + 4)
    decreases |fds|
  {
    FdQueues(o, fds[0], turns[0]);
    var (o1, ok) := WithFd(o, fds[0], turns[0]);
    if ok {
      k := FdsFail(o1, fds[1..], turns[1..]);
      k := k + 1;
    } else {
      FdFails(o, fds[0], turns[0]);
      k := 0;
    }
  }

  /** Nothing fails without a cause: with sound sockets, memory, and buffers below their
      limits every message is queued. */
  lemma MessageFails(o: Output, fds: seq<u32>, bytes: seq<byte>, turns: seq<Turn>) returns (k: nat)
    requires o.run.puts + |fds| <= Wire.MAX_ARGS && |turns| == |fds| + 1 && |bytes| >= HEADER_BYTES
    requires !WithMessage(o, fds, bytes, turns).1
    ensures if k < |fds| then Trouble(turns[k], o.fdLimit, 4 * (|o.run.s.fds| + k) + 4)
            else k == |fds| && Trouble(turns[k], o.limit, |o.run.s.out| + |bytes|)
  {
    FdsQueue(o, fds, turns);
    var (o1, put) := WithFds(o, fds, turns);
    if put {
      k := |fds|;
      var full := |o1.run.s.out| + |bytes| > DEFAULT_MAX_SIZE;
      FlushKeepsHistory(o1, full, turns[k].results);
      if !FlushedFirst(o1, full, turns[k].results).1 {
        FlushFails(o1, full, turns[k].results);
      }
    } else {
      k := FdsFail(o, fds, turns);
    }
  }

  // ---------- On ring buffers ----------

  lemma FdWaits(r: Run, fd: u32)
    requires r.puts < Wire.MAX_ARGS
    ensures Allowed(r, Put(fd))
    ensures Step(r, Put(fd)).s.out == r.s.out && Step(r, Put(fd)).s.fds == r.s.fds + [fd]
  {
  }

  lemma BytesWait(r: Run, bytes: seq<byte>)
    requires |bytes| >= HEADER_BYTES
    ensures Allowed(r, Append(bytes))
    ensures Step(r, Append(bytes)).s.out == r.s.out + bytes && Step(r, Append(bytes)).s.fds == r.s.fds
  {
  }

  lemma StoredFdIs(o: Output, fd: u32, memory: bool, bits: Option<nat>)
    requires o.run.puts < Wire.MAX_ARGS && Grown(o.fdLimit, o.fdBits, 4 * |o.run.s.fds| + 4, memory) == bits
    ensures StoredFd(o, fd, memory)
      == if bits == None then (o, false) else (o.(run := Step(o.run, Put(fd)), fdBits := bits.value), true)
  {
  }

  lemma FirstFd(o: Output, fds: seq<u32>, turns: seq<Turn>, i: nat)
    requires i < |fds| <= |turns| && o.run.puts + |fds| - i <= Wire.MAX_ARGS
    ensures var (o', ok) := WithFd(o, fds[i], turns[i]);
            && SameLimits(o, o') && |o'.run.s.fds| <= |o.run.s.fds| + 1
            && (ok ==> o'.run.puts == o.run.puts + 1)
            && WithFds(o, fds[i..], turns[i..]) == if ok then WithFds(o', fds[i + 1..], turns[i + 1..]) else (o', false)
  {
    FdQueues(o, fds[i], turns[i]);
    assert fds[i..][1..] == fds[i + 1..] && turns[i..][1..] == turns[i + 1..];
  }

  lemma StoredBytesIs(o: Output, bytes: seq<byte>, memory: bool, bits: Option<nat>)
    requires |bytes| >= HEADER_BYTES && Grown(o.limit, o.bits, |o.run.s.out| + |bytes|, memory) == bits
    ensures StoredBytes(o, bytes, memory)
      == if bits == None then (o, false) else (o.(run := Step(o.run, Append(bytes)), bits := bits.value), true)
  {
  }

  lemma BatchLeaves(r: Run, len: nat, closed: seq<u32>, left: seq<u32>)
    requires CanSend(r.s, len) && r.s.fds == closed + left
    requires |closed| == if MAX_FDS_OUT < |r.s.fds| then MAX_FDS_OUT else |r.s.fds|
    ensures Step(r, Act.Flush(len)).s.fds == left && Step(r, Act.Flush(len)).s.out == r.s.out[len..]
  {
  }

  class Connection {
    const out: RingBuffer
    const fdsOut: RingBuffer
    var wantFlush: bool
    ghost var run: Run

    constructor ()
      ensures Look() == Some(Output(START, false, 0, 0, 0, 0))
    {
      out := new RingBuffer();
      fdsOut := new RingBuffer();
      wantFlush, run := false, START;
      StartIsReachable();
    }

    ghost predicate Sound()
      reads this, out, out.data, fdsOut, fdsOut.data
    {
      out != fdsOut && out.data != fdsOut.data && out.Valid() && FdsValid(fdsOut)
    }

    ghost function Sizes(r: Run): Output
      reads this, out, fdsOut
    {
      Output(r, wantFlush, out.sizeBits, out.maxSizeBits, fdsOut.sizeBits, fdsOut.maxSizeBits)
    }

    /** What waits, if the buffers hold what the history says is still waiting. */
    ghost function Look(): Option<Output>
      reads this, out, out.data, fdsOut, fdsOut.data
    {
      if Sound() && out.Contents() == run.s.out && Fds(fdsOut) == run.s.fds && Reachable(run) then Some(Sizes(run))
      else None
    }

    /** How many bytes sendmsg is offered: all that are stored, or one if the
        descriptors alone fill a control message. */
    method Offer(ghost o: Output) returns (offered: nat)
      requires Look() == Some(o) && o.run.s.out != []
      ensures offered == Offered(o.run.s)
    {
      var size := fdsOut.Size();
      if size > MAX_FDS_OUT * 4 {
        size := MAX_FDS_OUT * 4;
      }
      assert fdsOut.Size() == 4 * |Fds(fdsOut)|;
      if size >= MAX_FDS_OUT * 4 {
        offered := 1;
      } else {
        var iov := out.GetIov();
        assert |Gather(out.data[..], iov)| == iov.Total();
        offered := iov.Total();
      }
    }

    /** After a call of sendmsg that took `len` bytes and a batch of descriptors. */
    method Sent(len: nat, ghost o: Output)
      requires Look() == Some(o) && CanSend(o.run.s, len)
      modifies this`run, out`tail, fdsOut`tail
      ensures Look() == Some(o.(run := Step(o.run, Act.Flush(len))))
    {
      var closed := CloseFds(fdsOut, MAX_FDS_OUT);
      out.Consume(len);
      BatchLeaves(o.run, len, closed, Fds(fdsOut));
      Record(Act.Flush(len), o);
    }

    /** Notes down what has been done to the buffers. */
    ghost method Record(act: Act, o: Output)
      requires Allowed(o.run, act) && Ahead(o, Step(o.run, act).s.out, Step(o.run, act).s.fds)
      modifies this`run
      ensures Look() == Some(o.(run := Step(o.run, act)))
    {
      ReachableStep(run, act);
      run := Step(run, act);
    }

    /** One call of sendmsg, and what its answer does. */
    method SendSome(result: SendResult, ghost o: Output)
      requires Look() == Some(o) && o.run.s.out != [] && result.Sent?
      modifies this`run, out`tail, fdsOut`tail
      ensures Look() == Some(o.(run := Step(o.run, Act.Flush(Taken(result.len, Offered(o.run.s))))))
    {
      var offered := Offer(o);
      Sent(Taken(result.len, offered), o);
    }

    /** The bytes that wait are those between the counters. */
    lemma Waiting(o: Output)
      requires Look() == Some(o)
      ensures |o.run.s.out| == out.Size() == Minus(out.head, out.tail) && wantFlush == o.want
      ensures 4 * |o.run.s.fds| == fdsOut.Size()
    {
    }

    /** The loop, as long as there are bytes and answers. */
    method FlushLoop(results: seq<SendResult>, ghost o: Output) returns (status: Status)
      requires Look() == Some(o)
      modifies this`run, out`tail, fdsOut`tail
      ensures Look() == Some(o.(run := Flushing(o.run, results).0)) && status == Flushing(o.run, results).1
    {
      var rest := results;
      ghost var now := o;
      Waiting(o);
      while out.Size() > 0
        invariant Look() == Some(now) && now == o.(run := now.run)
        invariant Flushing(o.run, results) == Flushing(now.run, rest)
        invariant out.head < WRAP && out.tail < WRAP && out.Size() == |now.run.s.out|
        decreases |rest|
      {
        if |rest| == 0 || rest[0] == Again {
          return Blocked;
        }
        if rest[0] == Broken {
          return Failed;
        }
        SendSome(rest[0], now);
        now, rest := now.(run := Step(now.run, Act.Flush(Taken(rest[0].len, Offered(now.run.s))))), rest[1..];
        Waiting(now);
      }
      return Done;
    }

    /** Flushing moves bytes and descriptors to the wire and changes nothing else. It
        returns how many bytes have left, unless some had to stay. */
    method Flush(results: seq<SendResult>, ghost o: Output) returns (status: Status, count: int)
      requires Look() == Some(o)
      modifies this, out`tail, fdsOut`tail
      ensures Look() == Some(Flushed(o, results).0) && status == Flushed(o, results).1
      ensures count == if status != Done then -1 else if o.want then ToInt32(|o.run.s.out|) else 0
    {
      Waiting(o);
      if !wantFlush {
        return Done, 0;
      }
      var tail := out.tail;
      status := FlushLoop(results, o);
      if status != Done {
        return status, -1;
      }
      wantFlush := false;
      count := ToInt32(Minus(out.head, tail));
    }

    /** A buffer that is too full is flushed. */
    method FlushFirst(full: bool, results: seq<SendResult>, ghost o: Output) returns (ok: bool)
      requires Look() == Some(o)
      modifies this, out`tail, fdsOut`tail
      ensures Look() == Some(FlushedFirst(o, full, results).0) && ok == FlushedFirst(o, full, results).1
    {
      if !full {
        return true;
      }
      wantFlush := true;
      var status, _ := Flush(results, o.(want := true));
      ok := status != Failed;
    }

    /** The buffers are ahead of the history by what is to be noted down. */
    ghost predicate Ahead(o: Output, bytes: seq<byte>, fds: seq<u32>)
      reads this, out, out.data, fdsOut, fdsOut.data
    {
      && Sound() && run == o.run && Reachable(run) && Sizes(run) == o
      && out.Contents() == bytes && Fds(fdsOut) == fds
    }

    method AddFd(fd: u32, memory: bool, ghost o: Output) returns (ok: bool)
      requires Look() == Some(o) && 4 * |o.run.s.fds| + 4 <= SIZE_LIMIT
      modifies fdsOut`data, fdsOut`head, fdsOut`tail, fdsOut`sizeBits, fdsOut.data
      ensures Ahead(o.(fdBits := fdsOut.sizeBits), o.run.s.out,
                    if ok then o.run.s.fds + [fd] else o.run.s.fds)
      ensures Grown(o.fdLimit, o.fdBits, 4 * |o.run.s.fds| + 4, memory) == if ok then Some(fdsOut.sizeBits) else None
      ensures !ok ==> fdsOut.sizeBits == o.fdBits
      ensures fdsOut.data == old(fdsOut.data) || fresh(fdsOut.data)
    {
      Waiting(o);
      ok := FdRings.StoreFd(fdsOut, fd, memory);
    }

    method StoreFd(fd: u32, memory: bool, ghost o: Output) returns (ok: bool)
      requires Look() == Some(o) && o.run.puts < Wire.MAX_ARGS && 4 * |o.run.s.fds| + 4 <= SIZE_LIMIT
      modifies this`run, fdsOut`data, fdsOut`head, fdsOut`tail, fdsOut`sizeBits, fdsOut.data
      ensures Look() == Some(StoredFd(o, fd, memory).0) && ok == StoredFd(o, fd, memory).1
      ensures fdsOut.data == old(fdsOut.data) || fresh(fdsOut.data)
    {
      ok := AddFd(fd, memory, o);
      StoredFdIs(o, fd, memory, if ok then Some(fdsOut.sizeBits) else None);
      if ok {
        FdWaits(o.run, fd);
        Record(Put(fd), o.(fdBits := fdsOut.sizeBits));
      }
    }

    /** A full batch of waiting descriptors is flushed first. */
    method PutFd(fd: u32, turn: Turn, ghost o: Output) returns (ok: bool)
      requires Look() == Some(o) && o.run.puts < Wire.MAX_ARGS && 4 * |o.run.s.fds| + 4 <= SIZE_LIMIT
      modifies this, out`tail, fdsOut`data, fdsOut`head, fdsOut`tail, fdsOut`sizeBits, fdsOut.data
      ensures Look() == Some(WithFd(o, fd, turn).0) && ok == WithFd(o, fd, turn).1
      ensures fdsOut.data == old(fdsOut.data) || fresh(fdsOut.data)
    {
      Waiting(o);
      var full := fdsOut.Size() >= MAX_FDS_OUT * 4;
      FlushKeepsHistory(o, full, turn.results);
      ok := FlushFirst(full, turn.results, o);
      if ok {
        ok := StoreFd(fd, turn.memory, FlushedFirst(o, full, turn.results).0);
      }
    }

    /** The descriptors of a closure, one by one. */
    method CopyFds(fds: seq<u32>, turns: seq<Turn>, ghost o: Output) returns (ok: bool)
      requires Look() == Some(o) && o.run.puts + |fds| <= Wire.MAX_ARGS && |turns| >= |fds|
      requires 4 * |o.run.s.fds| + 4 * |fds| <= SIZE_LIMIT
      modifies this, out`tail, fdsOut`data, fdsOut`head, fdsOut`tail, fdsOut`sizeBits, fdsOut.data
      ensures Look() == Some(WithFds(o, fds, turns).0) && ok == WithFds(o, fds, turns).1
      ensures fdsOut.data == old(fdsOut.data) || fresh(fdsOut.data)
    {
      ghost var now := o;
      assert fds[0..] == fds && turns[0..] == turns;
      for i := 0 to |fds|
        invariant Look() == Some(now) && now.run.puts + |fds| - i <= Wire.MAX_ARGS
        invariant 4 * |now.run.s.fds| + 4 * (|fds| - i) <= SIZE_LIMIT
        invariant WithFds(o, fds, turns) == WithFds(now, fds[i..], turns[i..])
        invariant fdsOut.data == old(fdsOut.data) || fresh(fdsOut.data)
      {
        FirstFd(now, fds, turns, i);
        ok := PutFd(fds[i], turns[i], now);
        if !ok {
          return false;
        }
        now := WithFd(now, fds[i], turns[i]).0;
      }
      ok := true;
    }

    method StoreBytes(bytes: seq<byte>, memory: bool, ghost o: Output) returns (ok: bool)
      requires Look() == Some(o) && |bytes| >= HEADER_BYTES && |o.run.s.out| + |bytes| <= SIZE_LIMIT
      modifies this`run, out`data, out`head, out`tail, out`sizeBits, out.data
      ensures Look() == Some(StoredBytes(o, bytes, memory).0) && ok == StoredBytes(o, bytes, memory).1
      ensures out.data == old(out.data) || fresh(out.data)
    {
      Waiting(o);
      var r := out.EnsureSpace(|bytes|, memory);
      StoredBytesIs(o, bytes, memory, if r == 0 then Some(out.sizeBits) else None);
      if r < 0 {
        return false;
      }
      out.Put(bytes);
      BytesWait(o.run, bytes);
      Record(Append(bytes), o.(bits := out.sizeBits));
      ok := true;
    }

    /** A message that does not fit the default size with what waits flushes first. */
    method Queue(bytes: seq<byte>, turn: Turn, ghost o: Output) returns (ok: bool)
      requires Look() == Some(o) && |bytes| >= HEADER_BYTES && |o.run.s.out| + |bytes| <= SIZE_LIMIT
      modifies this, out`data, out`head, out`tail, out`sizeBits, out.data, fdsOut`tail
      ensures Look() == Some(WithBytes(o, bytes, turn).0) && ok == WithBytes(o, bytes, turn).1
      ensures out.data == old(out.data) || fresh(out.data)
    {
      Waiting(o);
      var full := out.Size() + |bytes| > DEFAULT_MAX_SIZE;
      FlushKeepsHistory(o, full, turn.results);
      ok := FlushFirst(full, turn.results, o);
      if ok {
        ok := StoreBytes(bytes, turn.memory, FlushedFirst(o, full, turn.results).0);
      }
    }

    /** Sends a serialised closure: first its descriptors, then its bytes. */
    method Send(fds: seq<u32>, bytes: seq<byte>, turns: seq<Turn>, ghost o: Output) returns (ok: bool)
      requires Look() == Some(o) && o.run.puts + |fds| <= Wire.MAX_ARGS && |turns| == |fds| + 1
      requires |bytes| >= HEADER_BYTES
      requires 4 * |o.run.s.fds| + 4 * |fds| <= SIZE_LIMIT && |o.run.s.out| + |bytes| <= SIZE_LIMIT
      modifies this, out`data, out`head, out`tail, out`sizeBits, out.data
      modifies fdsOut`data, fdsOut`head, fdsOut`tail, fdsOut`sizeBits, fdsOut.data
      ensures Look() == Some(WithMessage(o, fds, bytes, turns).0) && ok == WithMessage(o, fds, bytes, turns).1
    {
      FdsQueue(o, fds, turns);
      ghost var o1 := WithFds(o, fds, turns).0;
      ok := CopyFds(fds, turns, o);
      if ok {
        ok := Queue(bytes, turns[|fds|], o1);
      }
      if ok {
        WantFlush(WithBytes(o1, bytes, turns[|fds|]).0);
      }
    }

    /** What is queued shall leave with the next flush. */
    method WantFlush(ghost o: Output)
      requires Look() == Some(o)
      modifies this`wantFlush
      ensures Look() == Some(o.(want := true))
    {
      wantFlush := true;
    }
  }
}
