/** The byte stream from one peer to the other: messages one behind the other, cut
    up anyhow on the way, and read by a loop that takes what is complete. */
module Streams {
  import opened Options
  import opened Bytes
  import opened Signatures
  import opened Wire
  import opened Closures
  import opened RingBuffers
  import opened FdRings
  import opened ObjectMaps
  import Demarshalling
  import IdMaps

  datatype Message = Message(sender: u32, opcode: nat, args: seq<Arg>)

  function MessageSize(m: Message): nat {
    4 * (2 + ArgsWords(m.args))
  }

  ghost predicate IsFrame(m: Message, frame: seq<byte>) {
    exists parts :: IsMessage(frame, m.sender, m.opcode, m.args, parts)
  }

  ghost predicate AreFrames(msgs: seq<Message>, frames: seq<seq<byte>>) {
    |msgs| == |frames| && forall i | 0 <= i < |msgs| :: IsFrame(msgs[i], frames[i])
  }

  ghost function FdsOf(msgs: seq<Message>): seq<u32> {
    if msgs == [] then [] else ArgFds(msgs[0].args) + FdsOf(msgs[1..])
  }

  // ---------- The reading loop ----------

  /** What an object and opcode stand for: a message with a signature; one for an object
      that is gone, whose messages carry so many descriptors; or nothing that may be sent. */
  datatype Target = Known(signature: string) | Zombie(fds: nat) | Invalid

  /** What the receiver knows when it gets to a message. */
  datatype Knowledge = Knowledge(objects: IdMaps.IdMap<nat>, targets: (u32, nat) -> Target)

  datatype Received = Read(msg: Message) | Dropped

  /** One turn of the loop: takes a complete message off the front, and reserves its new ids. */
  datatype Turn = Stop | Fail | Take(got: Received, size: nat, fds: seq<u32>, objects: IdMaps.IdMap<nat>)

  ghost function ReadOne(k: Knowledge, b: seq<byte>, fds: seq<u32>): Turn {
    if |b| < 8 then Stop
    else
      var id, w := BytesWord(b[..4]), BytesWord(b[4..8]);
      var opcode, size := HeaderOpcode(w), HeaderSize(w);
      if size > MAX_MESSAGE_SIZE then Fail
      else if |b| < size then Stop
      else ReadBody(k.targets(id, opcode), b[..size], fds, k.objects)
  }

  ghost function ReadBody(target: Target, message: seq<byte>, fds: seq<u32>, objects: IdMaps.IdMap<nat>): Turn {
    match target
    case Invalid => Fail
    case Zombie(n) =>
      if message == [] then Stop else Take(Dropped, |message|, if n < |fds| then fds[n..] else [], objects)
    case Known(signature) =>
      if |message| < 8 || |Parse(signature)| > MAX_ARGS then Fail
      else
        match DecodeArgs(Parse(signature), Demarshalling.Body(message), fds, objects)
        case Err(_, _, _) => Fail
        case Ok(args, _, fds', m) =>
          Take(Read(Message(BytesWord(message[..4]), HeaderOpcode(BytesWord(message[4..8])), args)), |message|, fds', m)
  }

  /** What a turn on ring buffers reports about `ReadOne`. */
  ghost predicate Reports(turn: Turn, taken: Option<Received>, failed: bool, was: seq<byte>, now: seq<byte>,
                          fds: seq<u32>, left: seq<u32>, m: IdMaps.IdMap<nat>, m': IdMaps.IdMap<nat>) {
    match turn
    case Stop => taken == None && !failed && now == was && left == fds && m' == m
    case Fail => taken == None && failed
    case Take(got, size, rest, objects) =>
      taken == Some(got) && !failed && size <= |was| && now == was[size..] && left == rest && m' == objects
  }

  method TakeKnown(input: RingBuffer, fdsIn: RingBuffer, objects: ObjectMap, signature: string, size: nat,
                   ghost turn: Turn)
    returns (taken: Option<Received>, failed: bool)
    requires input.Valid() && FdsValid(fdsIn) && objects.Valid() && input != fdsIn && 8 <= input.Size()
    requires size <= input.Size()
    requires turn == ReadBody(Known(signature), input.Contents()[..size], Fds(fdsIn), objects.View())
    modifies input`tail, fdsIn`tail, objects
    ensures input.Valid() && FdsValid(fdsIn) && objects.Valid()
    ensures Reports(turn, taken, failed, old(input.Contents()), input.Contents(), old(Fds(fdsIn)), Fds(fdsIn),
                    old(objects.View()), objects.View())
  {
    var r := Demarshalling.Demarshal(input, fdsIn, size, objects, signature);
    match r
    case Closure(sender, opcode, args) => return Some(Read(Message(sender, opcode, args))), false;
    case _ => return None, true;
  }

  /** A message for an object that is gone is eaten, with its descriptors. */
  method EatMessage(input: RingBuffer, fdsIn: RingBuffer, n: nat, size: nat, ghost turn: Turn,
                    ghost objects: IdMaps.IdMap<nat>)
    returns (taken: Option<Received>)
    requires input.Valid() && FdsValid(fdsIn) && input != fdsIn && size <= input.Size()
    requires turn == ReadBody(Zombie(n), input.Contents()[..size], Fds(fdsIn), objects)
    modifies input`tail, fdsIn`tail
    ensures input.Valid() && FdsValid(fdsIn)
    ensures Reports(turn, taken, false, old(input.Contents()), input.Contents(), old(Fds(fdsIn)), Fds(fdsIn),
                    objects, objects)
  {
    if size == 0 {
      return None;
    }
    if n > 0 {
      var closed := CloseFds(fdsIn, n);
      EatenFds(old(Fds(fdsIn)), closed, Fds(fdsIn), n);
    }
    input.Consume(size);
    taken := Some(Dropped);
  }

  lemma EatenFds(was: seq<u32>, closed: seq<u32>, left: seq<u32>, n: nat)
    requires was == closed + left && |closed| == if n < |was| then n else |was|
    ensures left == if n < |was| then was[n..] else []
  {
  }

  /** The header, which stays in the buffer. */
  method Peek(input: RingBuffer) returns (id: u32, w: u32)
    requires input.Valid() && 8 <= |input.Contents()|
    ensures id == BytesWord(input.Contents()[..4]) && w == BytesWord(input.Contents()[4..8])
  {
    assert |input.Contents()| == input.Size();
    var p := input.Copy(8);
    assert p[..4] == input.Contents()[..4] && p[4..8] == input.Contents()[4..8];
    id, w := BytesWord(p[..4]), BytesWord(p[4..8]);
  }

  /** A message that is wholly there. */
  method TakeWhole(input: RingBuffer, fdsIn: RingBuffer, objects: ObjectMap, target: Target, size: nat,
                   ghost turn: Turn)
    returns (taken: Option<Received>, failed: bool)
    requires input.Valid() && FdsValid(fdsIn) && objects.Valid() && input != fdsIn && 8 <= input.Size()
    requires size <= input.Size()
    requires turn == ReadBody(target, input.Contents()[..size], Fds(fdsIn), objects.View())
    modifies input`tail, fdsIn`tail, objects
    ensures input.Valid() && FdsValid(fdsIn) && objects.Valid()
    ensures Reports(turn, taken, failed, old(input.Contents()), input.Contents(), old(Fds(fdsIn)), Fds(fdsIn),
                    old(objects.View()), objects.View())
  {
    match target
    case Invalid => return None, true;
    case Zombie(n) =>
      taken := EatMessage(input, fdsIn, n, size, turn, objects.View());
      failed := false;
    case Known(signature) => taken, failed := TakeKnown(input, fdsIn, objects, signature, size, turn);
  }

  /** A turn on the ring buffers of a connection. */
  method TakeTurn(input: RingBuffer, fdsIn: RingBuffer, objects: ObjectMap, targets: (u32, nat) -> Target)
    returns (taken: Option<Received>, failed: bool)
    requires input.Valid() && FdsValid(fdsIn) && objects.Valid() && input != fdsIn
    modifies input`tail, fdsIn`tail, objects
    ensures input.Valid() && FdsValid(fdsIn) && objects.Valid()
    ensures Reports(ReadOne(Knowledge(old(objects.View()), targets), old(input.Contents()), old(Fds(fdsIn))),
                    taken, failed, old(input.Contents()), input.Contents(), old(Fds(fdsIn)), Fds(fdsIn),
                    old(objects.View()), objects.View())
  {
    ghost var turn := ReadOne(Knowledge(objects.View(), targets), input.Contents(), Fds(fdsIn));
    if input.Size() < 8 {
      return None, false;
    }
    var id, w := Peek(input);
    var opcode, size := HeaderOpcode(w), HeaderSize(w);
    if size > MAX_MESSAGE_SIZE {
      return None, true;
    }
    if input.Size() < size {
      return None, false;
    }
    taken, failed := TakeWhole(input, fdsIn, objects, targets(id, opcode), size, turn);
  }

  datatype Reading = Reading(got: seq<Received>, b: seq<byte>, fds: seq<u32>, ok: bool)

  /** The loop, from the message numbered `at` on. Between two messages the receiver
      acts on the first, so it knows something else each time. */
  ghost function ReadLoop(know: nat -> Knowledge, at: nat, b: seq<byte>, fds: seq<u32>): Reading
    decreases |b|
  {
    match ReadOne(know(at), b, fds)
    case Stop => Reading([], b, fds, true)
    case Fail => Reading([], b, fds, false)
    case Take(got, size, fds', _) =>
      var rest := ReadLoop(know, at + 1, b[size..], fds');
      rest.(got := [got] + rest.got)
  }

  // ---------- One message ----------

  /** A message the sender may send and the receiver, knowing `k`, takes: it fits what the
      receiver takes it for, or is for an object that is gone and was known to send it. */
  ghost predicate Sendable(k: Knowledge, m: Message) {
    && m.opcode < 0x1_0000 && |m.args| <= MAX_ARGS && MessageSize(m) <= MAX_MESSAGE_SIZE
    && match k.targets(m.sender, m.opcode)
       case Known(signature) => AllMatch(Parse(signature), m.args) && ReserveAll(m.args, k.objects).Some?
       case Zombie(n) => n == |ArgFds(m.args)|
       case Invalid => false
  }

  /** What the receiver has of a message in the end. */
  ghost function Outcome(k: Knowledge, m: Message): Received {
    if k.targets(m.sender, m.opcode).Known? then Read(m) else Dropped
  }

  /** The object map behind it: its new ids are reserved, if it is read. */
  ghost function Reserved(k: Knowledge, m: Message): IdMaps.IdMap<nat>
    requires Sendable(k, m)
  {
    if k.targets(m.sender, m.opcode).Known? then ReserveAll(m.args, k.objects).value else k.objects
  }

  ghost function Outcomes(know: nat -> Knowledge, at: nat, msgs: seq<Message>): seq<Received> {
    seq(|msgs|, (i: nat) requires i < |msgs| => Outcome(know(at + i), msgs[i]))
  }

  ghost predicate AllSendable(know: nat -> Knowledge, at: nat, msgs: seq<Message>) {
    forall i | 0 <= i < |msgs| :: Sendable(know(at + i), msgs[i])
  }

  lemma HeaderFields(b: seq<byte>, sender: u32, w: u32, rest: seq<byte>)
    requires b == WordBytes(sender) + WordBytes(w) + rest
    ensures BytesWord(b[..4]) == sender && BytesWord(b[4..8]) == w && b[8..] == rest
  {
    assert b[..4] == WordBytes(sender) && b[4..8] == WordBytes(w);
    WordRoundTrip(sender);
    WordRoundTrip(w);
  }

  lemma FrameLayout(m: Message, frame: seq<byte>) returns (parts: seq<seq<byte>>)
    requires IsFrame(m, frame) && m.opcode < 0x1_0000 && MessageSize(m) <= MAX_MESSAGE_SIZE
    ensures |frame| == MessageSize(m) && EncodesAll(m.args, parts)
    ensures frame[8..] == Flat(parts)
    ensures BytesWord(frame[..4]) == m.sender
    ensures HeaderOpcode(BytesWord(frame[4..8])) == m.opcode && HeaderSize(BytesWord(frame[4..8])) == |frame|
  {
    parts :| IsMessage(frame, m.sender, m.opcode, m.args, parts);
    EncodedLength(m.args, parts);
    HeaderFields(frame, m.sender, HeaderWord(|frame|, m.opcode), Flat(parts));
    HeaderSizeIff(|frame|, m.opcode);
  }

  /** Part of a message is left alone. */
  lemma ReadPart(k: Knowledge, m: Message, frame: seq<byte>, b: seq<byte>, fds: seq<u32>)
    requires Sendable(k, m) && IsFrame(m, frame)
    requires b <= frame && |b| < |frame|
    ensures ReadOne(k, b, fds) == Stop
  {
    var parts := FrameLayout(m, frame);
    if |b| >= 8 {
      assert b[..4] == frame[..4] && b[4..8] == frame[4..8];
    }
  }

  lemma BodyOfFrame(frame: seq<byte>, n: nat)
    requires |frame| == 4 * (2 + n)
    ensures Demarshalling.Body(frame) == frame[8..]
  {
    assert 4 * (4 * (2 + n) / 4) == 4 * (2 + n);
  }

  lemma ReadFrame(signature: string, objects: IdMaps.IdMap<nat>, m: Message, frame: seq<byte>, fds: seq<u32>)
    requires m.opcode < 0x1_0000 && |m.args| <= MAX_ARGS && MessageSize(m) <= MAX_MESSAGE_SIZE
    requires AllMatch(Parse(signature), m.args) && ReserveAll(m.args, objects).Some?
    requires IsFrame(m, frame) && ArgFds(m.args) <= fds
    ensures ReadBody(Known(signature), frame, fds, objects)
      == Take(Read(m), |frame|, fds[|ArgFds(m.args)|..], ReserveAll(m.args, objects).value)
  {
    var parts := FrameLayout(m, frame);
    var rest := fds[|ArgFds(m.args)|..];
    BodyOfFrame(frame, ArgsWords(m.args));
    assert Flat(parts) + [] == Flat(parts);
    assert fds == ArgFds(m.args) + rest;
    DecodeEncoded(Parse(signature), m.args, parts, [], rest, objects);
  }

  /** A whole message at the front of the input is read back, or dropped with exactly its
      own descriptors, whatever follows. */
  lemma ReadWhole(k: Knowledge, m: Message, frame: seq<byte>, b: seq<byte>, fds: seq<u32>)
    requires Sendable(k, m) && IsFrame(m, frame)
    requires frame <= b && ArgFds(m.args) <= fds
    ensures |frame| >= 8
    ensures ReadOne(k, b, fds) == Take(Outcome(k, m), |frame|, fds[|ArgFds(m.args)|..], Reserved(k, m))
  {
    var parts := FrameLayout(m, frame);
    var target := k.targets(m.sender, m.opcode);
    if target.Known? {
      ReadFrame(target.signature, k.objects, m, frame, fds);
    }
    assert b[..4] == frame[..4] && b[4..8] == frame[4..8] && b[..|frame|] == frame;
  }

  // ---------- The whole stream ----------

  /** How many of the messages lie wholly in the first `n` bytes. */
  ghost function Complete(frames: seq<seq<byte>>, n: nat): (c: nat)
    ensures c <= |frames|
  {
    if frames == [] || n < |frames[0]| then 0 else 1 + Complete(frames[1..], n - |frames[0]|)
  }

  ghost function CompleteBytes(frames: seq<seq<byte>>, n: nat): nat {
    |Flat(frames[..Complete(frames, n)])|
  }

  /** The descriptors of every message that is wholly there are there too. */
  ghost predicate Equipped(msgs: seq<Message>, frames: seq<seq<byte>>, n: nat, fds: seq<u32>)
    requires |msgs| == |frames|
  {
    FdsOf(msgs[..Complete(frames, n)]) <= fds
  }

  lemma {:induction false} CompleteFits(frames: seq<seq<byte>>, b: seq<byte>)
    requires b <= Flat(frames)
    ensures Flat(frames[..Complete(frames, |b|)]) <= b
    decreases |frames|
  {
    if frames != [] && |b| >= |frames[0]| {
      var f, rest, b' := frames[0], frames[1..], b[|frames[0]|..];
      assert b' <= Flat(rest);
      CompleteFits(rest, b');
      var c := Complete(rest, |b'|);
      assert frames[..c + 1] == [f] + rest[..c];
      assert Flat(frames[..c + 1]) == f + Flat(rest[..c]);
      assert b == f + b';
    }
  }

  /** The loop takes exactly the complete messages, each with its own descriptors, and
      leaves the beginning of the next one. */
  ghost predicate ReadsComplete(know: nat -> Knowledge, at: nat, msgs: seq<Message>, frames: seq<seq<byte>>,
                                b: seq<byte>, fds: seq<u32>)
    requires |msgs| == |frames| && Equipped(msgs, frames, |b|, fds) && CompleteBytes(frames, |b|) <= |b|
  {
    var c := Complete(frames, |b|);
    ReadLoop(know, at, b, fds) ==
      Reading(Outcomes(know, at, msgs[..c]), b[CompleteBytes(frames, |b|)..], fds[|FdsOf(msgs[..c])|..], true)
  }

  /** Leaving out the first message. */
  lemma OneLess(msgs: seq<Message>, frames: seq<seq<byte>>, b: seq<byte>, fds: seq<u32>)
    requires |msgs| == |frames| && msgs != [] && |frames[0]| <= |b|
    requires b <= Flat(frames) && Equipped(msgs, frames, |b|, fds)
    ensures var f, first := |frames[0]|, ArgFds(msgs[0].args);
            var c := Complete(frames, |b|);
            && frames[0] <= b && b[f..] <= Flat(frames[1..]) && first <= fds
            && c == 1 + Complete(frames[1..], |b[f..]|) && msgs[..c] == [msgs[0]] + msgs[1..][..c - 1]
            && FdsOf(msgs[..c]) == first + FdsOf(msgs[1..][..c - 1])
            && CompleteBytes(frames, |b|) == f + CompleteBytes(frames[1..], |b[f..]|)
            && Equipped(msgs[1..], frames[1..], |b[f..]|, fds[|first|..])
  {
    var f, first := frames[0], ArgFds(msgs[0].args);
    var c := Complete(frames, |b|);
    assert f <= b by { assert Flat(frames)[..|f|] == f; }
    assert b[|f|..] <= Flat(frames[1..]);
    assert msgs[..c][1..] == msgs[1..][..c - 1];
    assert frames[..c][1..] == frames[1..][..c - 1];
  }

  lemma TailIsSendable(know: nat -> Knowledge, at: nat, msgs: seq<Message>, frames: seq<seq<byte>>)
    requires AreFrames(msgs, frames) && AllSendable(know, at, msgs) && msgs != []
    ensures Sendable(know(at), msgs[0]) && IsFrame(msgs[0], frames[0])
    ensures AreFrames(msgs[1..], frames[1..]) && AllSendable(know, at + 1, msgs[1..])
  {
    assert Sendable(know(at + 0), msgs[0]);
    forall i | 0 <= i < |msgs[1..]|
      ensures Sendable(know(at + 1 + i), msgs[1..][i])
    {
      assert Sendable(know(at + (i + 1)), msgs[i + 1]);
    }
  }

  lemma {:induction false} ReadComplete(know: nat -> Knowledge, at: nat, msgs: seq<Message>, frames: seq<seq<byte>>,
                                        b: seq<byte>, fds: seq<u32>)
    requires AreFrames(msgs, frames) && AllSendable(know, at, msgs)
    requires b <= Flat(frames) && Equipped(msgs, frames, |b|, fds)
    ensures CompleteBytes(frames, |b|) <= |b| && ReadsComplete(know, at, msgs, frames, b, fds)
    decreases |msgs|
  {
    CompleteFits(frames, b);
    if msgs != [] {
      TailIsSendable(know, at, msgs, frames);
      if |b| < |frames[0]| {
        assert b <= frames[0] by { assert Flat(frames)[..|b|] == frames[0][..|b|]; }
        ReadPart(know(at), msgs[0], frames[0], b, fds);
      } else {
        OneLess(msgs, frames, b, fds);
        ReadComplete(know, at + 1, msgs[1..], frames[1..], b[|frames[0]|..], fds[|ArgFds(msgs[0].args)|..]);
        ReadOneMore(know, at, msgs, frames, b, fds);
      }
    }
  }

  lemma ReadOneMore(know: nat -> Knowledge, at: nat, msgs: seq<Message>, frames: seq<seq<byte>>,
                    b: seq<byte>, fds: seq<u32>)
    requires |msgs| == |frames| && msgs != [] && |frames[0]| <= |b|
    requires b <= Flat(frames) && Equipped(msgs, frames, |b|, fds) && CompleteBytes(frames, |b|) <= |b|
    requires Sendable(know(at), msgs[0]) && IsFrame(msgs[0], frames[0])
    requires var b', fds' := b[|frames[0]|..], fds[|ArgFds(msgs[0].args)|..];
             && Equipped(msgs[1..], frames[1..], |b'|, fds') && CompleteBytes(frames[1..], |b'|) <= |b'|
             && ReadsComplete(know, at + 1, msgs[1..], frames[1..], b', fds')
    ensures ReadsComplete(know, at, msgs, frames, b, fds)
  {
    OneLess(msgs, frames, b, fds);
    ReadWhole(know(at), msgs[0], frames[0], b, fds);
    FirstOutcome(know, at, msgs[..Complete(frames, |b|)]);
  }

  lemma FirstOutcome(know: nat -> Knowledge, at: nat, msgs: seq<Message>)
    requires msgs != []
    ensures Outcomes(know, at, msgs) == [Outcome(know(at), msgs[0])] + Outcomes(know, at + 1, msgs[1..])
  {
    var rest := Outcomes(know, at + 1, msgs[1..]);
    forall i | 1 <= i < |msgs|
      ensures Outcomes(know, at, msgs)[i] == rest[i - 1]
    {
      assert at + i == at + 1 + (i - 1);
    }
  }
}
