/** Sending a closure over a connection: its descriptors, then its serialised form. */
module Sending {
  import opened Options
  import opened Bytes
  import opened Powers
  import opened Signatures
  import opened Wire
  import opened Closures
  import opened Connections
  import opened Senders
  import opened Streams
  import opened Deliveries

  lemma {:induction false} NoMoreFdsThanArgs(args: seq<Arg>)
    ensures |ArgFds(args)| <= |args|
    decreases |args|
  {
    if args != [] {
      NoMoreFdsThanArgs(args[1..]);
    }
  }

  const INT_LIMIT := 0x8000_0000

  /** Fails for sizes that make a negative integer or do not fit the count of words. */
  method Serialize(signature: string, m: Message) returns (ok: bool, bytes: seq<byte>)
    requires AllMatch(Parse(signature), m.args) && m.opcode < 0x1_0000_0000
    ensures ok <==> MessageSize(m) / 4 < 0x1_0000_0000 && ToU32(MessageSize(m)) < INT_LIMIT
    ensures MessageSize(m) < INT_LIMIT ==> ok && IsFrame(m, bytes) && |bytes| == MessageSize(m)
    ensures MessageSize(m) >= INT_LIMIT && ok ==> |bytes| == ToU32(MessageSize(m)) < MessageSize(m)
  {
    var count := BufferSizeForClosure(signature, m.args);
    var buffer := new byte[4 * count](_ => 0);
    var size, parts := SerializeClosure(signature, m.args, m.sender, m.opcode, buffer, count);
    ok := size >= 0;
    bytes := if ok then buffer[..size] else [];
  }

  /** What waits to leave, after it: the messages queued and no descriptor beyond. */
  ghost predicate Between(r: Run, msgs: seq<Message>, frames: seq<seq<byte>>) {
    r.puts == 0 && Carries(r, msgs, frames) && r.allFds == FdsOf(msgs)
  }

  lemma OneMore(r: Run, r': Run, msgs: seq<Message>, frames: seq<seq<byte>>, m: Message, frame: seq<byte>)
    requires Between(r, msgs, frames) && IsFrame(m, frame) && r'.puts == 0
    requires r'.allBytes == r.allBytes + frame && r'.allFds == r.allFds + ArgFds(m.args)
    requires r'.marks == r.marks + [Mark(|r'.allBytes|, |r'.allFds|)]
    ensures Between(r', msgs + [m], frames + [frame])
  {
    CarriesOneMore(r, r', msgs, frames, m, frame);
  }

  /** Sends `frame`, which is the message; what becomes of the queues is what storing its
      descriptors and its bytes means. If that succeeds, exactly this message has been added
      to the stream. */
  method SendClosure(c: Connection, signature: string, m: Message, turns: seq<Connections.Turn>, ghost o: Output,
                     ghost msgs: seq<Message>, ghost frames: seq<seq<byte>>)
    returns (ok: bool, ghost frame: seq<byte>)
    requires c.Look() == Some(o) && Between(o.run, msgs, frames)
    requires AllMatch(Parse(signature), m.args) && |m.args| <= Wire.MAX_ARGS && m.opcode < 0x1_0000_0000
    requires |turns| == |ArgFds(m.args)| + 1 && MessageSize(m) < INT_LIMIT
    requires 4 * |o.run.s.fds| + 4 * |ArgFds(m.args)| <= SIZE_LIMIT
    requires |o.run.s.out| + MessageSize(m) <= SIZE_LIMIT
    modifies c, c.out`data, c.out`head, c.out`tail, c.out`sizeBits, c.out.data
    modifies c.fdsOut`data, c.fdsOut`head, c.fdsOut`tail, c.fdsOut`sizeBits, c.fdsOut.data
    ensures IsFrame(m, frame) && |frame| == MessageSize(m) && |ArgFds(m.args)| <= Wire.MAX_ARGS
    ensures c.Look() == Some(WithMessage(o, ArgFds(m.args), frame, turns).0)
    ensures ok == WithMessage(o, ArgFds(m.args), frame, turns).1
    ensures Added(o.run, WithMessage(o, ArgFds(m.args), frame, turns).0.run, ok, msgs, frames, m, frame)
  {
    NoMoreFdsThanArgs(m.args);
    var fits, bytes := Serialize(signature, m);
    frame := bytes;
    ok := c.Send(ArgFds(m.args), bytes, turns, o);
    MessageAdds(o, ArgFds(m.args), turns, msgs, frames, m, frame);
  }

  /** The message has joined the stream, or nothing of its bytes has. */
  ghost predicate Added(r: Run, r': Run, ok: bool, msgs: seq<Message>, frames: seq<seq<byte>>,
                        m: Message, frame: seq<byte>) {
    if ok then Between(r', msgs + [m], frames + [frame]) else r'.marks == r.marks && r'.allBytes == r.allBytes
  }

  lemma MessageAdds(o: Output, fds: seq<u32>, turns: seq<Connections.Turn>,
                    msgs: seq<Message>, frames: seq<seq<byte>>, m: Message, frame: seq<byte>)
    requires Between(o.run, msgs, frames) && IsFrame(m, frame) && fds == ArgFds(m.args)
    requires |fds| <= Wire.MAX_ARGS && |turns| == |fds| + 1 && |frame| >= HEADER_BYTES
    ensures var (o', ok) := WithMessage(o, fds, frame, turns);
            Added(o.run, o'.run, ok, msgs, frames, m, frame)
  {
    MessageQueues(o, fds, frame, turns);
    var (o', ok) := WithMessage(o, fds, frame, turns);
    if ok {
      OneMore(o.run, o'.run, msgs, frames, m, frame);
    } else {
      assert o.run.allBytes + [] == o.run.allBytes && o.run.marks + [] == o.run.marks;
    }
  }
}
