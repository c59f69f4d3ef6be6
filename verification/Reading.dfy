/** The input half of a connection: what recvmsg brings is stored in the two ring
    buffers until the socket is empty or the buffer is full. */
module Readings {
  import opened Options
  import opened Bytes
  import opened Powers
  import opened RingBuffers
  import opened FdRings
  import opened Deliveries

  /** Descriptors that come in one block, and whether there is memory when they need it. */
  datatype Block = Block(fds: seq<u32>, memory: bool)

  /** What the kernel answers: bytes, as many as it has, and descriptors in one or more
      blocks. No bytes mean that the other side has closed. */
  datatype Recv = Got(bytes: seq<byte>, blocks: seq<Block>) | Again | Broken

  /** A call, and whether there is memory for one more byte before it. */
  datatype Call = Call(memory: bool, answer: Recv)

  datatype ReadResult = Stored(size: nat) | TryAgain | Failed

  function Join(blocks: seq<Block>): seq<u32> {
    if blocks == [] then [] else blocks[0].fds + Join(blocks[1..])
  }

  // ---------- What reading means ----------

  /** Descriptors in a ring buffer, with the size of its array and the limit to it. */
  datatype Queue = Queue(fds: seq<u32>, bits: nat, limit: nat)

  datatype Input = Input(bytes: seq<byte>, bits: nat, limit: nat, queue: Queue)

  /** A block is stored whole, if there is room and none before it was refused. */
  ghost function StoreOne(q: Queue, b: Block, overflow: bool): (Queue, bool) {
    match Grown(q.limit, q.bits, 4 * |q.fds| + 4 * |b.fds|, b.memory)
    case None => (q, true)
    case Some(bits) => (Queue(if overflow then q.fds else q.fds + b.fds, bits, q.limit), overflow)
  }

  ghost function StoreBlocks(q: Queue, blocks: seq<Block>, overflow: bool): (Queue, bool)
    decreases |blocks|
  {
    if blocks == [] then (q, overflow)
    else
      var (q1, overflow1) := StoreOne(q, blocks[0], overflow);
      StoreBlocks(q1, blocks[1..], overflow1)
  }

  /** The bytes there is room for. */
  ghost function TakeBytes(s: Input, bytes: seq<byte>): Input {
    var free := if |s.bytes| <= Pow2(s.bits) then Pow2(s.bits) - |s.bytes| else 0;
    s.(bytes := s.bytes + if |bytes| <= free then bytes else bytes[..free])
  }

  /** What a call leads to. When its descriptors do not fit, its bytes do not count. */
  ghost function Answered(s: Input, answer: Recv): (Input, Option<ReadResult>) {
    match answer
    case Broken => (s, Some(Failed))
    case Again => (s, Some(if s.bytes == [] then TryAgain else Stored(|s.bytes|)))
    case Got(bytes, blocks) =>
      if bytes == [] then (s, Some(Stored(|s.bytes|)))
      else
        var (q, overflow) := StoreBlocks(s.queue, blocks, false);
        if overflow then (s.(queue := q), Some(Failed)) else (TakeBytes(s.(queue := q), bytes), None)
  }

  /** One turn: nothing is reported as long as there may be more. */
  ghost function TurnOf(s: Input, c: Call): (Input, Option<ReadResult>) {
    if LimitReached(s.limit, |s.bytes| + 1) then (s, Some(Stored(|s.bytes|)))
    else
      match Grown(s.limit, s.bits, |s.bytes| + 1, c.memory)
      case None => (s, Some(Failed))
      case Some(bits) => Answered(s.(bits := bits), c.answer)
  }

  /** Behind the calls that are given the socket is empty. */
  function CallAt(calls: seq<Call>, i: nat): Call {
    if i < |calls| then calls[i] else Call(true, Again)
  }

  ghost function Reads(s: Input, calls: seq<Call>): (Input, ReadResult)
    decreases |calls|
  {
    match TurnOf(s, CallAt(calls, 0))
    case (s1, Some(r)) => (s1, r)
    case (s1, None) => Reads(s1, calls[1..])
  }

  // ---------- What reading brings ----------

  /** The first block without room ends what is stored. */
  lemma {:induction false} FirstRefused(q: Queue, blocks: seq<Block>) returns (k: nat)
    ensures var (q', overflow) := StoreBlocks(q, blocks, false);
            && k <= |blocks| && (overflow <==> k < |blocks|)
            && q'.fds == q.fds + Join(blocks[..k]) && q'.limit == q.limit
    ensures k < |blocks| ==>
      !blocks[k].memory || (q.limit > 0 && 4 * |q.fds + Join(blocks[..k + 1])| > Pow2(q.limit))
    decreases |blocks|
  {
    k := 0;
    if blocks != [] {
      var (q1, overflow) := StoreOne(q, blocks[0], false);
      if overflow {
        NothingAfterOverflow(q1, blocks[1..]);
        assert Join(blocks[..1]) == blocks[0].fds + Join(blocks[..1][1..]);
      } else {
        k := FirstRefused(q1, blocks[1..]);
        JoinFirst(blocks, k, q.fds);
        if k < |blocks| - 1 {
          JoinFirst(blocks, k + 1, q.fds);
        }
        k := k + 1;
      }
    }
  }

  lemma JoinFirst(blocks: seq<Block>, k: nat, fds: seq<u32>)
    requires k < |blocks|
    ensures (fds + blocks[0].fds) + Join(blocks[1..][..k]) == fds + Join(blocks[..k + 1])
  {
    assert blocks[..k + 1][1..] == blocks[1..][..k];
  }

  lemma {:induction false} NothingAfterOverflow(q: Queue, blocks: seq<Block>)
    ensures var (q', overflow) := StoreBlocks(q, blocks, true);
            q'.fds == q.fds && q'.limit == q.limit && overflow
    decreases |blocks|
  {
    if blocks != [] {
      NothingAfterOverflow(StoreOne(q, blocks[0], true).0, blocks[1..]);
    }
  }

  /** How full the buffers are, and how full they may get. */
  datatype Level = Level(bytes: nat, fds: nat, limit: nat, fdLimit: nat)

  ghost function LevelOf(s: Input): Level {
    Level(|s.bytes|, |s.queue.fds|, s.limit, s.queue.limit)
  }

  ghost function Raised(level: Level, d: Delivery): Level {
    level.(bytes := level.bytes + |d.bytes|, fds := level.fds + |d.fds|)
  }

  /** The room for bytes when `size` are stored: never none. */
  ghost function Free(size: nat): (n: nat)
    ensures n > 0
  {
    Pow2(Fitting(size + 1)) - size
  }

  /** A call that goes on: all its descriptors, and as many of its bytes as there is room for. */
  ghost predicate CameWhole(level: Level, c: Call, d: Delivery) {
    && c.answer.Got? && d.fds == Join(c.answer.blocks) && d.bytes != [] && d.bytes <= c.answer.bytes
    && |d.bytes| == if |c.answer.bytes| <= Free(level.bytes) then |c.answer.bytes| else Free(level.bytes)
  }

  /** The block with number `k` is the first for which there is no room. */
  ghost predicate Refused(level: Level, blocks: seq<Block>, k: nat, fds: seq<u32>) {
    && k < |blocks| && fds == Join(blocks[..k])
    && (!blocks[k].memory
        || (level.fdLimit > 0 && 4 * (level.fds + |Join(blocks[..k + 1])|) > Pow2(level.fdLimit)))
  }

  /** A call that ends the reading: no bytes, and descriptors only of the blocks before one
      that is refused. */
  ghost predicate CameLast(level: Level, c: Call, d: Delivery, r: ReadResult) {
    && d.bytes == []
    && match r
       case Stored(n) =>
         && n == level.bytes && d.fds == []
         && (LimitReached(level.limit, n + 1) || (c.answer == Again && n > 0)
             || (c.answer.Got? && c.answer.bytes == []))
       case TryAgain => level.bytes == 0 && d.fds == [] && c.answer == Again
       case Failed =>
         || (d.fds == [] && (!c.memory || c.answer == Broken))
         || (c.answer.Got? && exists k :: Refused(level, c.answer.blocks, k, d.fds))
  }

  /** What is added to the buffers. */
  ghost predicate Adds(s: Input, s': Input, d: Delivery) {
    && s'.bytes == s.bytes + d.bytes && s'.queue.fds == s.queue.fds + d.fds
    && s'.limit == s.limit && s'.queue.limit == s.queue.limit
  }

  /** What a call brings that has something to bring. */
  lemma AnswerBrings(s: Input, c: Call) returns (d: Delivery)
    requires s.bits == Fitting(|s.bytes| + 1) && c.answer.Got? && c.answer.bytes != []
    ensures var (s', r) := Answered(s, c.answer);
            && Adds(s, s', d)
            && if r.Some? then CameLast(LevelOf(s), c, d, r.value) else CameWhole(LevelOf(s), c, d)
  {
    var s' := Answered(s, c.answer).0;
    var blocks := c.answer.blocks;
    var k := FirstRefused(s.queue, blocks);
    if k == |blocks| {
      assert blocks[..k] == blocks;
      d := Delivery(s'.bytes[|s.bytes|..], Join(blocks));
    } else {
      d := Delivery([], Join(blocks[..k]));
      assert Refused(LevelOf(s), blocks, k, d.fds);
    }
  }

  /** What one turn brings, and why it ends the reading if it does. */
  lemma TurnBrings(s: Input, c: Call) returns (d: Delivery)
    ensures var (s', r) := TurnOf(s, c);
            && Adds(s, s', d)
            && if r.Some? then CameLast(LevelOf(s), c, d, r.value) else CameWhole(LevelOf(s), c, d)
  {
    d := Delivery([], []);
    if !LimitReached(s.limit, |s.bytes| + 1) {
      var bits := Grown(s.limit, s.bits, |s.bytes| + 1, c.memory);
      TurnGoesOn(s, c, bits);
      RoomForOne(s, c.memory);
      if bits.Some? {
        d := CallBrings(s.(bits := bits.value), c);
      }
    }
  }

  /** Below the limit only memory can be lacking. */
  lemma RoomForOne(s: Input, memory: bool)
    requires !LimitReached(s.limit, |s.bytes| + 1)
    ensures var bits := Grown(s.limit, s.bits, |s.bytes| + 1, memory);
            if bits == None then !memory else bits.value == Fitting(|s.bytes| + 1)
  {
  }

  lemma TurnGoesOn(s: Input, c: Call, bits: Option<nat>)
    requires !LimitReached(s.limit, |s.bytes| + 1) && Grown(s.limit, s.bits, |s.bytes| + 1, c.memory) == bits
    ensures TurnOf(s, c) == if bits == None then (s, Some(Failed)) else Answered(s.(bits := bits.value), c.answer)
  {
  }

  /** What a call brings, be it nothing. */
  lemma CallBrings(s: Input, c: Call) returns (d: Delivery)
    requires s.bits == Fitting(|s.bytes| + 1)
    ensures var (s', r) := Answered(s, c.answer);
            && Adds(s, s', d)
            && if r.Some? then CameLast(LevelOf(s), c, d, r.value) else CameWhole(LevelOf(s), c, d)
  {
    d := Delivery([], []);
    if c.answer.Got? && c.answer.bytes != [] {
      d := AnswerBrings(s, c);
    }
  }

  /** The calls in turn: each came whole, but for the last one. */
  ghost predicate Explains(level: Level, calls: seq<Call>, ds: seq<Delivery>, r: ReadResult)
    decreases |ds|
  {
    && ds != []
    && if ds[1..] == [] then CameLast(level, CallAt(calls, 0), ds[0], r)
       else CameWhole(level, CallAt(calls, 0), ds[0]) && Explains(Raised(level, ds[0]), calls[1..], ds[1..], r)
  }

  /** From one state to another, with these deliveries. */
  ghost predicate Brings(s: Input, calls: seq<Call>, ds: seq<Delivery>, s': Input, r: ReadResult) {
    Adds(s, s', Delivery(BytesIn(ds), FdsIn(ds))) && Explains(LevelOf(s), calls, ds, r)
  }

  lemma BringsOnce(s: Input, calls: seq<Call>, d: Delivery, s': Input, r: ReadResult)
    requires Adds(s, s', d) && CameLast(LevelOf(s), CallAt(calls, 0), d, r)
    ensures Brings(s, calls, [d], s', r)
  {
    assert [d][1..] == [];
    assert d.bytes + BytesIn([]) == d.bytes && d.fds + FdsIn([]) == d.fds;
  }

  lemma BringsMore(s: Input, calls: seq<Call>, d: Delivery, s1: Input, rest: seq<Delivery>, s': Input, r: ReadResult)
    requires calls != [] && Adds(s, s1, d) && CameWhole(LevelOf(s), calls[0], d)
    requires Brings(s1, calls[1..], rest, s', r)
    ensures Brings(s, calls, [d] + rest, s', r)
  {
    assert ([d] + rest)[1..] == rest;
    assert LevelOf(s1) == Raised(LevelOf(s), d);
  }

  lemma OnlyCallsGoOn(s: Input, calls: seq<Call>)
    requires TurnOf(s, CallAt(calls, 0)).1 == None
    ensures calls != [] && CallAt(calls, 0) == calls[0]
  {
  }

  /** Whatever a read reports, what is stored is what its calls brought, one after the other:
      those before the last wholly, as far as there was room, and of the last what its end
      allows. So nothing is lost, doubled or reordered, and nothing fails without a cause. */
  lemma {:induction false} ReadsBring(s: Input, calls: seq<Call>) returns (ds: seq<Delivery>)
    ensures Brings(s, calls, ds, Reads(s, calls).0, Reads(s, calls).1)
    decreases |calls|
  {
    var first := CallAt(calls, 0);
    var d := TurnBrings(s, first);
    var s1 := TurnOf(s, first).0;
    if TurnOf(s, first).1.Some? {
      BringsOnce(s, calls, d, s1, TurnOf(s, first).1.value);
      ds := [d];
    } else {
      OnlyCallsGoOn(s, calls);
      var rest := ReadsBring(s1, calls[1..]);
      BringsMore(s, calls, d, s1, rest, Reads(s1, calls[1..]).0, Reads(s1, calls[1..]).1);
      ds := [d] + rest;
    }
  }

  // ---------- When reading stands still ----------

  lemma StandsStill(s: Input, calls: seq<Call>)
    requires LimitReached(s.limit, |s.bytes| + 1)
    ensures Reads(s, calls) == (s, Stored(|s.bytes|))
  {
  }

  lemma OneByteMore(s: Input, b: byte)
    requires !LimitReached(s.limit, |s.bytes| + 1)
    ensures |s.bytes| < |Reads(s, [Call(true, Got([b], []))]).0.bytes|
  {
    var c := Call(true, Got([b], []));
    var d := TurnBrings(s, c);
    assert Grown(s.limit, s.bits, |s.bytes| + 1, true).Some?;
    var s1 := TurnOf(s, c).0;
    assert [c][1..] == [];
    var e := TurnBrings(s1, CallAt([], 0));
  }

  /** Reading can go on exactly if one byte more does not reach the limit. In an unlimited
      buffer that is so at every size one below a power of two, whatever the socket has. */
  lemma ReadsOnIff(s: Input)
    ensures (exists calls :: Reads(s, calls).0.bytes != s.bytes) <==> !LimitReached(s.limit, |s.bytes| + 1)
  {
    if LimitReached(s.limit, |s.bytes| + 1) {
      forall calls
        ensures Reads(s, calls).0.bytes == s.bytes
      {
        StandsStill(s, calls);
      }
    } else {
      OneByteMore(s, 0);
    }
  }

  /** A message of 4096 bytes that first comes without its last byte is never read whole:
      an empty buffer without a limit then holds 4095 bytes, and takes no more. */
  lemma LastByteNeverComes(bytes: seq<byte>, calls: seq<Call>)
    requires |bytes| == 4095
    ensures var empty := Input([], 0, 0, Queue([], 0, 0));
            var (s, r) := Reads(empty, [Call(true, Got(bytes, []))]);
            && s.bytes == bytes && r == Stored(4095) && Reads(s, calls) == (s, r)
  {
    var empty := Input([], 0, 0, Queue([], 0, 0));
    var c := Call(true, Got(bytes, []));
    Pow2Values();
    FitIsUnique(Fitting(1), DEFAULT_SIZE_POT, 1);
    TightPower(1, DEFAULT_SIZE_POT);
    assert !LimitReached(0, 1);
    var d := TurnBrings(empty, c);
    var s := TurnOf(empty, c).0;
    assert Pow2(DEFAULT_SIZE_POT) == 4095 + 1;
    assert LimitReached(s.limit, |s.bytes| + 1);
    assert [c][1..] == [];
    StandsStill(s, []);
    StandsStill(s, calls);
  }

  // ---------- On ring buffers ----------

  function BulkOf(r: Recv): nat {
    if r.Got? then |r.bytes| + 4 * |Join(r.blocks)| else 0
  }

  function Bulk(calls: seq<Call>): nat {
    if calls == [] then 0 else BulkOf(calls[0].answer) + Bulk(calls[1..])
  }

  /** What may come does not overflow a counter. */
  ghost predicate Roomy(s: Input, calls: seq<Call>) {
    |s.bytes| + Bulk(calls) < SIZE_LIMIT && 4 * |s.queue.fds| + Bulk(calls) < SIZE_LIMIT
  }

  lemma RoomyTurn(s: Input, calls: seq<Call>)
    requires Roomy(s, calls) && TurnOf(s, CallAt(calls, 0)).1 == None
    ensures calls != [] && Roomy(TurnOf(s, calls[0]).0, calls[1..])
  {
    var d := TurnBrings(s, calls[0]);
  }

  ghost function QueueOf(r: RingBuffer): Queue
    requires FdsValid(r)
    reads r, r.data
  {
    Queue(Fds(r), r.sizeBits, r.maxSizeBits)
  }

  method PutFds(r: RingBuffer, fds: seq<u32>)
    requires FdsValid(r) && 4 * |Fds(r) + fds| <= r.data.Length
    modifies r`head, r.data
    ensures FdsValid(r) && Fds(r) == old(Fds(r)) + fds
  {
    ghost var before := Fds(r);
    assert before + fds[..0] == before;
    for i := 0 to |fds|
      invariant FdsValid(r) && Fds(r) == before + fds[..i] && r.data == old(r.data)
    {
      assert r.Size() == 4 * |Fds(r)|;
      FdRings.PutFd(r, fds[i]);
      NextFd(before, fds, i);
    }
    assert fds[..|fds|] == fds;
  }

  lemma NextFd(before: seq<u32>, fds: seq<u32>, i: nat)
    requires i < |fds|
    ensures before + fds[..i] + [fds[i]] == before + fds[..i + 1]
  {
  }

  /** One block; room is made for it even when it is not to be stored any more. */
  method StoreBlock(r: RingBuffer, b: Block, overflow: bool) returns (overflow': bool)
    requires FdsValid(r) && 4 * |Fds(r)| + 4 * |b.fds| <= SIZE_LIMIT
    modifies r`data, r`head, r`tail, r`sizeBits, r.data
    ensures FdsValid(r) && (QueueOf(r), overflow') == StoreOne(old(QueueOf(r)), b, overflow)
    ensures r.data == old(r.data) || fresh(r.data)
  {
    ghost var q := QueueOf(r);
    var ok := MakeFdRoom(r, b, q);
    StoreOneIs(q, b, overflow, if ok then Some(r.sizeBits) else None);
    overflow' := !ok || overflow;
    if !overflow' {
      PutFds(r, b.fds);
    }
  }

  method MakeFdRoom(r: RingBuffer, b: Block, ghost q: Queue) returns (ok: bool)
    requires FdsValid(r) && q == QueueOf(r) && 4 * |q.fds| + 4 * |b.fds| <= SIZE_LIMIT
    modifies r`data, r`head, r`tail, r`sizeBits
    ensures FdsValid(r) && (r.data == old(r.data) || fresh(r.data))
    ensures QueueOf(r) == q.(bits := r.sizeBits) && (!ok ==> r.sizeBits == q.bits)
    ensures ok ==> 4 * |q.fds| + 4 * |b.fds| <= r.data.Length
    ensures Grown(q.limit, q.bits, 4 * |q.fds| + 4 * |b.fds|, b.memory) == if ok then Some(r.sizeBits) else None
  {
    assert r.Size() == 4 * |q.fds|;
    var res := EnsureFdSpace(r, 4 * |b.fds|, b.memory);
    assert r.Size() == 4 * |q.fds|;
    ok := res >= 0;
  }

  lemma StoreOneIs(q: Queue, b: Block, overflow: bool, bits: Option<nat>)
    requires Grown(q.limit, q.bits, 4 * |q.fds| + 4 * |b.fds|, b.memory) == bits
    ensures StoreOne(q, b, overflow)
      == if bits == None then (q, true)
         else (Queue(if overflow then q.fds else q.fds + b.fds, bits.value, q.limit), overflow)
  {
  }

  /** At the first block that does not fit, the rest is closed and the read fails. The
      blocks before it stay. */
  method DecodeCmsg(r: RingBuffer, blocks: seq<Block>) returns (ok: bool)
    requires FdsValid(r) && 4 * |Fds(r)| + 4 * |Join(blocks)| <= SIZE_LIMIT
    modifies r`data, r`head, r`tail, r`sizeBits, r.data
    ensures FdsValid(r) && (QueueOf(r), !ok) == StoreBlocks(old(QueueOf(r)), blocks, false)
    ensures r.data == old(r.data) || fresh(r.data)
  {
    var overflow := false;
    assert blocks[0..] == blocks;
    for i := 0 to |blocks|
      invariant FdsValid(r) && (r.data == old(r.data) || fresh(r.data))
      invariant 4 * |Fds(r)| + 4 * |Join(blocks[i..])| <= SIZE_LIMIT
      invariant StoreBlocks(old(QueueOf(r)), blocks, false) == StoreBlocks(QueueOf(r), blocks[i..], overflow)
    {
      assert blocks[i..][1..] == blocks[i + 1..];
      overflow := StoreBlock(r, blocks[i], overflow);
    }
    ok := !overflow;
  }

  ghost predicate Sound(input: RingBuffer, fdsIn: RingBuffer)
    reads input, input.data, fdsIn, fdsIn.data
  {
    input != fdsIn && input.data != fdsIn.data && input.Valid() && FdsValid(fdsIn)
  }

  ghost function InputOf(input: RingBuffer, fdsIn: RingBuffer): Input
    requires Sound(input, fdsIn)
    reads input, input.data, fdsIn, fdsIn.data
  {
    Input(input.Contents(), input.sizeBits, input.maxSizeBits, QueueOf(fdsIn))
  }

  /** Each array is its own, or a new one. */
  twostate predicate Arrays(input: RingBuffer, fdsIn: RingBuffer)
    reads input, fdsIn
  {
    && (input.data == old(input.data) || fresh(input.data))
    && (fdsIn.data == old(fdsIn.data) || fresh(fdsIn.data))
  }

  /** The descriptors of one call; the bytes are not touched. */
  method ReceiveFds(input: RingBuffer, fdsIn: RingBuffer, blocks: seq<Block>, ghost s: Input) returns (ok: bool)
    requires Sound(input, fdsIn) && s == InputOf(input, fdsIn)
    requires 4 * |s.queue.fds| + 4 * |Join(blocks)| <= SIZE_LIMIT
    modifies fdsIn`data, fdsIn`head, fdsIn`tail, fdsIn`sizeBits, fdsIn.data
    ensures Sound(input, fdsIn) && Arrays(input, fdsIn)
    ensures InputOf(input, fdsIn) == s.(queue := StoreBlocks(s.queue, blocks, false).0)
    ensures !ok == StoreBlocks(s.queue, blocks, false).1
  {
    ok := DecodeCmsg(fdsIn, blocks);
  }

  /** As many bytes as there is room for. */
  method ReceiveSome(input: RingBuffer, fdsIn: RingBuffer, bytes: seq<byte>, ghost s: Input)
    requires Sound(input, fdsIn) && s == InputOf(input, fdsIn) && input.Size() < input.data.Length
    modifies input`head, input.data
    ensures Sound(input, fdsIn) && InputOf(input, fdsIn) == TakeBytes(s, bytes)
  {
    var free := input.data.Length - input.Size();
    input.Receive(if |bytes| <= free then bytes else bytes[..free]);
  }

  /** A call that brings something. */
  method TakeAnswer(input: RingBuffer, fdsIn: RingBuffer, bytes: seq<byte>, blocks: seq<Block>, ghost s: Input)
    returns (ok: bool)
    requires Sound(input, fdsIn) && s == InputOf(input, fdsIn) && input.Size() < input.data.Length
    requires bytes != [] && 4 * |s.queue.fds| + 4 * |Join(blocks)| <= SIZE_LIMIT
    modifies input`head, input.data, fdsIn`data, fdsIn`head, fdsIn`tail, fdsIn`sizeBits, fdsIn.data
    ensures Sound(input, fdsIn) && Arrays(input, fdsIn)
    ensures Answered(s, Got(bytes, blocks)) == (InputOf(input, fdsIn), if ok then None else Some(Failed))
  {
    ok := ReceiveFds(input, fdsIn, blocks, s);
    if ok {
      ReceiveSome(input, fdsIn, bytes, s.(queue := StoreBlocks(s.queue, blocks, false).0));
    }
  }

  /** Room for one byte more. */
  method MakeRoom(input: RingBuffer, fdsIn: RingBuffer, memory: bool, ghost s: Input) returns (ok: bool)
    requires Sound(input, fdsIn) && s == InputOf(input, fdsIn) && |s.bytes| < SIZE_LIMIT
    modifies input`data, input`head, input`tail, input`sizeBits
    ensures Sound(input, fdsIn) && Arrays(input, fdsIn)
    ensures ok ==> input.Size() < input.data.Length && InputOf(input, fdsIn) == s.(bits := input.sizeBits)
    ensures !ok ==> InputOf(input, fdsIn) == s
    ensures Grown(s.limit, s.bits, |s.bytes| + 1, memory) == if ok then Some(input.sizeBits) else None
  {
    assert input.Size() == |s.bytes|;
    var room := input.EnsureSpace(1, memory);
    assert input.Size() == |input.Contents()|;
    ok := room >= 0;
  }

  /** What the buffers make of an answer. */
  method TakeCall(input: RingBuffer, fdsIn: RingBuffer, answer: Recv, ghost s: Input) returns (r: Option<ReadResult>)
    requires Sound(input, fdsIn) && s == InputOf(input, fdsIn) && input.Size() < input.data.Length
    requires 4 * |s.queue.fds| + BulkOf(answer) <= SIZE_LIMIT
    modifies input`head, input.data, fdsIn`data, fdsIn`head, fdsIn`tail, fdsIn`sizeBits, fdsIn.data
    ensures Sound(input, fdsIn) && Arrays(input, fdsIn)
    ensures Answered(s, answer) == (InputOf(input, fdsIn), r)
  {
    var dataSize := input.Size();
    assert dataSize == |s.bytes|;
    match answer
    case Broken => return Some(Failed);
    case Again => return Some(if dataSize > 0 then Stored(dataSize) else TryAgain);
    case Got(bytes, blocks) =>
      if bytes == [] {
        return Some(Stored(dataSize));
      }
      var ok := TakeAnswer(input, fdsIn, bytes, blocks, s);
      r := if ok then None else Some(Failed);
  }

  /** One turn of the loop. */
  method ReadTurn(input: RingBuffer, fdsIn: RingBuffer, next: Call, ghost s: Input) returns (r: Option<ReadResult>)
    requires Sound(input, fdsIn) && s == InputOf(input, fdsIn)
    requires |s.bytes| < SIZE_LIMIT && 4 * |s.queue.fds| + BulkOf(next.answer) <= SIZE_LIMIT
    modifies input`data, input`head, input`tail, input`sizeBits, input.data
    modifies fdsIn`data, fdsIn`head, fdsIn`tail, fdsIn`sizeBits, fdsIn.data
    ensures Sound(input, fdsIn) && Arrays(input, fdsIn)
    ensures TurnOf(s, next) == (InputOf(input, fdsIn), r)
  {
    var size := input.Size();
    assert size == |s.bytes|;
    var full := input.IsMaxSizeReached();
    if full {
      return Some(Stored(size));
    }
    var ok := MakeRoom(input, fdsIn, next.memory, s);
    TurnGoesOn(s, next, if ok then Some(input.sizeBits) else None);
    if !ok {
      return Some(Failed);
    }
    r := TakeCall(input, fdsIn, next.answer, s.(bits := input.sizeBits));
  }

  /** Reads until the socket has nothing more or the buffer is full. */
  method ConnectionRead(input: RingBuffer, fdsIn: RingBuffer, calls: seq<Call>) returns (r: ReadResult)
    requires Sound(input, fdsIn) && Roomy(InputOf(input, fdsIn), calls)
    modifies input`data, input`head, input`tail, input`sizeBits, input.data
    modifies fdsIn`data, fdsIn`head, fdsIn`tail, fdsIn`sizeBits, fdsIn.data
    ensures Sound(input, fdsIn) && Arrays(input, fdsIn)
    ensures (InputOf(input, fdsIn), r) == Reads(old(InputOf(input, fdsIn)), calls)
  {
    var todo := calls;
    while true
      invariant Sound(input, fdsIn) && Arrays(input, fdsIn) && Roomy(InputOf(input, fdsIn), todo)
      invariant Reads(old(InputOf(input, fdsIn)), calls) == Reads(InputOf(input, fdsIn), todo)
      decreases |todo|
    {
      ghost var s := InputOf(input, fdsIn);
      var turn := ReadTurn(input, fdsIn, CallAt(todo, 0), s);
      if turn.Some? {
        return turn.value;
      }
      RoomyTurn(s, todo);
      todo := todo[1..];
    }
  }
}
