/** From end to end: whatever the sender's flushes and the kernel do to the stream, the
    receiver gets the messages that were queued, with their descriptors. */
module Deliveries {
  import opened Bytes
  import opened Wire
  import opened Streams
  import opened Senders

  /** What one call of recvmsg brings. */
  datatype Delivery = Delivery(bytes: seq<byte>, fds: seq<u32>)

  datatype Receiver = Receiver(got: seq<Received>, b: seq<byte>, fds: seq<u32>, ok: bool)

  ghost function Receive(know: nat -> Knowledge, r: Receiver, d: Delivery): Receiver {
    if !r.ok then r
    else
      var reading := ReadLoop(know, |r.got|, r.b + d.bytes, r.fds + d.fds);
      Receiver(r.got + reading.got, reading.b, reading.fds, reading.ok)
  }

  ghost function ReceiveAll(know: nat -> Knowledge, r: Receiver, ds: seq<Delivery>): Receiver
    decreases |ds|
  {
    if ds == [] then r else ReceiveAll(know, Receive(know, r, ds[0]), ds[1..])
  }

  ghost function BytesIn(ds: seq<Delivery>): seq<byte> {
    if ds == [] then [] else ds[0].bytes + BytesIn(ds[1..])
  }

  ghost function FdsIn(ds: seq<Delivery>): seq<u32> {
    if ds == [] then [] else ds[0].fds + FdsIn(ds[1..])
  }

  /** Of the stream `frames`, `b` and `fds` have arrived, and no descriptor of a
      complete message is missing. */
  ghost predicate Arrived(msgs: seq<Message>, frames: seq<seq<byte>>, b: seq<byte>, fds: seq<u32>) {
    |msgs| == |frames| && b <= Flat(frames) && Equipped(msgs, frames, |b|, fds)
  }

  /** It stays so with every delivery. */
  ghost predicate Timely(msgs: seq<Message>, frames: seq<seq<byte>>, b: seq<byte>, fds: seq<u32>, ds: seq<Delivery>)
    decreases |ds|
  {
    && Arrived(msgs, frames, b, fds)
    && (ds != [] ==> Timely(msgs, frames, b + ds[0].bytes, fds + ds[0].fds, ds[1..]))
  }

  /** The receiver after all this has arrived: it has every complete message, or dropped
      it, and the beginning of the next. How it came in pieces leaves no trace. */
  ghost function After(know: nat -> Knowledge, msgs: seq<Message>, frames: seq<seq<byte>>,
                       b: seq<byte>, fds: seq<u32>): Receiver
    requires Arrived(msgs, frames, b, fds)
  {
    CompleteFits(frames, b);
    var c := Complete(frames, |b|);
    Receiver(Outcomes(know, 0, msgs[..c]), b[CompleteBytes(frames, |b|)..], fds[|FdsOf(msgs[..c])|..], true)
  }

  lemma {:induction false} FdsOfSplit(msgs: seq<Message>, c: nat)
    requires c <= |msgs|
    ensures FdsOf(msgs) == FdsOf(msgs[..c]) + FdsOf(msgs[c..])
    decreases c
  {
    if c > 0 {
      FdsOfSplit(msgs[1..], c - 1);
      assert msgs[..c][1..] == msgs[1..][..c - 1] && msgs[1..][c - 1..] == msgs[c..];
    } else {
      assert msgs[c..] == msgs;
    }
  }

  lemma FlatSplit(frames: seq<seq<byte>>, c: nat)
    requires c <= |frames|
    ensures Flat(frames) == Flat(frames[..c]) + Flat(frames[c..])
  {
    assert frames == frames[..c] + frames[c..];
    FlatAppend(frames[..c], frames[c..]);
  }

  /** Counting on from a place where messages had been complete before. */
  lemma {:induction false} CompleteSplit(frames: seq<seq<byte>>, n: nat, n2: nat)
    requires n <= n2
    ensures var c := Complete(frames, n);
            && CompleteBytes(frames, n) <= n
            && Complete(frames, n2) == c + Complete(frames[c..], n2 - CompleteBytes(frames, n))
    decreases |frames|
  {
    if frames != [] && n >= |frames[0]| {
      CompleteSplit(frames[1..], n - |frames[0]|, n2 - |frames[0]|);
      var c := Complete(frames[1..], n - |frames[0]|);
      assert frames[..c + 1][1..] == frames[1..][..c];
      assert frames[c + 1..] == frames[1..][c..];
    } else {
      assert frames[0..] == frames;
    }
  }

  /** Messages, bytes and descriptors that are complete in the first part of a stream. */
  datatype Counts = Counts(msgs: nat, bytes: nat, fds: nat)

  ghost predicate AreCounts(msgs: seq<Message>, frames: seq<seq<byte>>, n: nat, k: Counts) {
    && |msgs| == |frames| && k.msgs == Complete(frames, n) && k.bytes == CompleteBytes(frames, n)
    && k.fds == |FdsOf(msgs[..k.msgs])|
  }

  lemma FdsOfPart(msgs: seq<Message>, c: nat, c2: nat)
    requires c <= c2 <= |msgs|
    ensures FdsOf(msgs[..c2]) == FdsOf(msgs[..c]) + FdsOf(msgs[c..][..c2 - c])
  {
    FdsOfSplit(msgs[..c2], c);
    assert msgs[..c2][..c] == msgs[..c] && msgs[..c2][c..] == msgs[c..][..c2 - c];
  }

  lemma FlatPart(frames: seq<seq<byte>>, c: nat, c2: nat)
    requires c <= c2 <= |frames|
    ensures Flat(frames[..c2]) == Flat(frames[..c]) + Flat(frames[c..][..c2 - c])
  {
    FlatSplit(frames[..c2], c);
    assert frames[..c2][..c] == frames[..c] && frames[..c2][c..] == frames[c..][..c2 - c];
  }

  lemma RestOfFlat(frames: seq<seq<byte>>, c: nat, b: seq<byte>)
    requires c <= |frames| && b <= Flat(frames) && |Flat(frames[..c])| <= |b|
    ensures b[|Flat(frames[..c])|..] <= Flat(frames[c..])
  {
    FlatSplit(frames, c);
  }

  lemma RestOfPrefix<T>(head: seq<T>, tail: seq<T>, s: seq<T>)
    requires head + tail <= s
    ensures tail <= s[|head|..]
  {
  }

  /** What is left after the complete messages, as a stream of its own. */
  lemma Leftover(msgs: seq<Message>, frames: seq<seq<byte>>, b: seq<byte>, b2: seq<byte>, fds2: seq<u32>,
                 k: Counts, k2: Counts)
    requires Arrived(msgs, frames, b2, fds2) && b <= b2
    requires AreCounts(msgs, frames, |b|, k) && AreCounts(msgs, frames, |b2|, k2)
    ensures k.msgs <= k2.msgs <= |msgs| && k.bytes <= k2.bytes <= |b2| && k.fds <= k2.fds <= |fds2|
    ensures Arrived(msgs[k.msgs..], frames[k.msgs..], b2[k.bytes..], fds2[k.fds..])
    ensures AreCounts(msgs[k.msgs..], frames[k.msgs..], |b2[k.bytes..]|,
                      Counts(k2.msgs - k.msgs, k2.bytes - k.bytes, k2.fds - k.fds))
  {
    CompleteSplit(frames, |b|, |b2|);
    CompleteFits(frames, b2);
    FlatPart(frames, k.msgs, k2.msgs);
    FdsOfPart(msgs, k.msgs, k2.msgs);
    RestOfFlat(frames, k.msgs, b2);
    RestOfPrefix(FdsOf(msgs[..k.msgs]), FdsOf(msgs[k.msgs..][..k2.msgs - k.msgs]), fds2);
  }

  lemma RestIsSendable(know: nat -> Knowledge, msgs: seq<Message>, frames: seq<seq<byte>>, c: nat)
    requires AreFrames(msgs, frames) && AllSendable(know, 0, msgs) && c <= |msgs|
    ensures AreFrames(msgs[c..], frames[c..]) && AllSendable(know, c, msgs[c..])
  {
    forall i | 0 <= i < |msgs[c..]|
      ensures Sendable(know(c + i), msgs[c..][i])
    {
      assert Sendable(know(0 + (c + i)), msgs[c + i]);
    }
  }

  lemma ReadCounted(know: nat -> Knowledge, at: nat, msgs: seq<Message>, frames: seq<seq<byte>>,
                    b: seq<byte>, fds: seq<u32>, k: Counts)
    requires AreFrames(msgs, frames) && AllSendable(know, at, msgs)
    requires Arrived(msgs, frames, b, fds) && AreCounts(msgs, frames, |b|, k)
    ensures k.msgs <= |msgs| && k.bytes <= |b| && k.fds <= |fds|
    ensures ReadLoop(know, at, b, fds) == Reading(Outcomes(know, at, msgs[..k.msgs]), b[k.bytes..], fds[k.fds..], true)
  {
    ReadComplete(know, at, msgs, frames, b, fds);
  }

  lemma ReadRest(know: nat -> Knowledge, msgs: seq<Message>, frames: seq<seq<byte>>,
                 b: seq<byte>, b2: seq<byte>, fds2: seq<u32>, k: Counts, k2: Counts)
    requires AreFrames(msgs, frames) && AllSendable(know, 0, msgs)
    requires Arrived(msgs, frames, b2, fds2) && b <= b2
    requires AreCounts(msgs, frames, |b|, k) && AreCounts(msgs, frames, |b2|, k2)
    ensures k.msgs <= k2.msgs <= |msgs| && k.bytes <= k2.bytes <= |b2| && k.fds <= k2.fds <= |fds2|
    ensures ReadLoop(know, k.msgs, b2[k.bytes..], fds2[k.fds..]) ==
      Reading(Outcomes(know, k.msgs, msgs[k.msgs..][..k2.msgs - k.msgs]), b2[k.bytes..][k2.bytes - k.bytes..],
              fds2[k.fds..][k2.fds - k.fds..], true)
  {
    Leftover(msgs, frames, b, b2, fds2, k, k2);
    RestIsSendable(know, msgs, frames, k.msgs);
    ReadCounted(know, k.msgs, msgs[k.msgs..], frames[k.msgs..], b2[k.bytes..], fds2[k.fds..],
                Counts(k2.msgs - k.msgs, k2.bytes - k.bytes, k2.fds - k.fds));
  }

  lemma ReadLeftover(know: nat -> Knowledge, msgs: seq<Message>, frames: seq<seq<byte>>,
                     b: seq<byte>, b2: seq<byte>, fds2: seq<u32>, k: Counts, k2: Counts)
    requires AreFrames(msgs, frames) && AllSendable(know, 0, msgs)
    requires Arrived(msgs, frames, b2, fds2) && b <= b2
    requires AreCounts(msgs, frames, |b|, k) && AreCounts(msgs, frames, |b2|, k2)
    ensures k.msgs <= k2.msgs <= |msgs| && k.bytes <= k2.bytes <= |b2| && k.fds <= k2.fds <= |fds2|
    ensures ReadLoop(know, k.msgs, b2[k.bytes..], fds2[k.fds..]) ==
      Reading(Outcomes(know, k.msgs, msgs[k.msgs..k2.msgs]), b2[k2.bytes..], fds2[k2.fds..], true)
  {
    ReadRest(know, msgs, frames, b, b2, fds2, k, k2);
    HeadOfTail(msgs, k.msgs, k2.msgs);
    TailOfTail(b2, k.bytes, k2.bytes - k.bytes);
    TailOfTail(fds2, k.fds, k2.fds - k.fds);
  }

  lemma TailOfTail<T>(s: seq<T>, i: nat, j: nat)
    requires i + j <= |s|
    ensures s[i..][j..] == s[i + j..]
  {
  }

  lemma HeadOfTail<T>(s: seq<T>, i: nat, j: nat)
    requires i <= j <= |s|
    ensures s[i..][..j - i] == s[i..j]
  {
  }

  lemma TailAndMore<T>(s: seq<T>, more: seq<T>, i: nat)
    requires i <= |s|
    ensures s[i..] + more == (s + more)[i..]
  {
  }

  /** A delivery on top of what has arrived before. */
  lemma ReceiveMore(know: nat -> Knowledge, msgs: seq<Message>, frames: seq<seq<byte>>, b: seq<byte>, fds: seq<u32>,
                    d: Delivery, b2: seq<byte>, fds2: seq<u32>)
    requires AreFrames(msgs, frames) && AllSendable(know, 0, msgs)
    requires b2 == b + d.bytes && fds2 == fds + d.fds
    requires Arrived(msgs, frames, b, fds) && Arrived(msgs, frames, b2, fds2)
    ensures Receive(know, After(know, msgs, frames, b, fds), d) == After(know, msgs, frames, b2, fds2)
  {
    CompleteFits(frames, b);
    var c, c2 := Complete(frames, |b|), Complete(frames, |b2|);
    var k := Counts(c, CompleteBytes(frames, |b|), |FdsOf(msgs[..c])|);
    var k2 := Counts(c2, CompleteBytes(frames, |b2|), |FdsOf(msgs[..c2])|);
    ReadLeftover(know, msgs, frames, b, b2, fds2, k, k2);
    TailAndMore(b, d.bytes, k.bytes);
    TailAndMore(fds, d.fds, k.fds);
    OutcomesSplit(know, msgs, c, c2);
  }

  lemma OutcomesSplit(know: nat -> Knowledge, msgs: seq<Message>, c: nat, c2: nat)
    requires c <= c2 <= |msgs|
    ensures Outcomes(know, 0, msgs[..c]) + Outcomes(know, c, msgs[c..c2]) == Outcomes(know, 0, msgs[..c2])
  {
    var whole := Outcomes(know, 0, msgs[..c2]);
    assert forall i | 0 <= i < c2 - c :: Outcomes(know, c, msgs[c..c2])[i] == whole[c + i];
  }

  lemma OneThenRest(b: seq<byte>, fds: seq<u32>, ds: seq<Delivery>)
    requires ds != []
    ensures b + BytesIn(ds) == (b + ds[0].bytes) + BytesIn(ds[1..])
    ensures fds + FdsIn(ds) == (fds + ds[0].fds) + FdsIn(ds[1..])
  {
  }

  /** The stream may be cut up in any way. */
  lemma {:induction false} ReceiveFragments(know: nat -> Knowledge, msgs: seq<Message>, frames: seq<seq<byte>>,
                                            b: seq<byte>, fds: seq<u32>, ds: seq<Delivery>)
    requires AreFrames(msgs, frames) && AllSendable(know, 0, msgs)
    requires Timely(msgs, frames, b, fds, ds)
    ensures Arrived(msgs, frames, b + BytesIn(ds), fds + FdsIn(ds))
    ensures ReceiveAll(know, After(know, msgs, frames, b, fds), ds)
      == After(know, msgs, frames, b + BytesIn(ds), fds + FdsIn(ds))
    decreases |ds|
  {
    if ds == [] {
      assert b + BytesIn(ds) == b && fds + FdsIn(ds) == fds;
    } else {
      var b2, fds2 := b + ds[0].bytes, fds + ds[0].fds;
      OneThenRest(b, fds, ds);
      ReceiveMore(know, msgs, frames, b, fds, ds[0], b2, fds2);
      ReceiveFragments(know, msgs, frames, b2, fds2, ds[1..]);
    }
  }

  const FRESH := Receiver([], [], [], true)

  lemma {:induction false} AllComplete(frames: seq<seq<byte>>)
    ensures Complete(frames, |Flat(frames)|) == |frames|
    decreases |frames|
  {
    if frames != [] {
      AllComplete(frames[1..]);
    }
  }

  lemma AtStart(know: nat -> Knowledge, msgs: seq<Message>, frames: seq<seq<byte>>)
    requires AreFrames(msgs, frames) && Arrived(msgs, frames, [], [])
    ensures After(know, msgs, frames, [], []) == FRESH
  {
    if frames != [] {
      assert IsFrame(msgs[0], frames[0]);
    }
  }

  lemma NothingInFront<T>(s: seq<T>)
    ensures [] + s == s
  {
  }

  lemma FromStart(know: nat -> Knowledge, msgs: seq<Message>, frames: seq<seq<byte>>, ds: seq<Delivery>)
    requires AreFrames(msgs, frames) && AllSendable(know, 0, msgs)
    requires Timely(msgs, frames, [], [], ds)
    ensures Arrived(msgs, frames, BytesIn(ds), FdsIn(ds))
    ensures ReceiveAll(know, FRESH, ds) == After(know, msgs, frames, BytesIn(ds), FdsIn(ds))
  {
    AtStart(know, msgs, frames);
    ReceiveFragments(know, msgs, frames, [], [], ds);
    NothingInFront(BytesIn(ds));
    NothingInFront(FdsIn(ds));
  }

  /** When all of it has arrived, exactly the messages sent have been read, but for those
      to objects that are gone, and nothing is left over. */
  lemma StreamRoundTrip(know: nat -> Knowledge, msgs: seq<Message>, frames: seq<seq<byte>>, ds: seq<Delivery>)
    requires AreFrames(msgs, frames) && AllSendable(know, 0, msgs)
    requires Timely(msgs, frames, [], [], ds)
    requires BytesIn(ds) == Flat(frames) && FdsIn(ds) == FdsOf(msgs)
    ensures ReceiveAll(know, FRESH, ds) == Receiver(Outcomes(know, 0, msgs), [], [], true)
  {
    FromStart(know, msgs, frames, ds);
    AfterAll(know, msgs, frames);
  }

  lemma AfterAll(know: nat -> Knowledge, msgs: seq<Message>, frames: seq<seq<byte>>)
    requires |msgs| == |frames|
    ensures Arrived(msgs, frames, Flat(frames), FdsOf(msgs))
    ensures After(know, msgs, frames, Flat(frames), FdsOf(msgs)) == Receiver(Outcomes(know, 0, msgs), [], [], true)
  {
    AllComplete(frames);
    assert msgs[..|msgs|] == msgs && frames[..|frames|] == frames;
  }

  // ---------- Together with the sender ----------

  /** The messages queued so far in a run of the sender. */
  ghost predicate Carries(r: Run, msgs: seq<Message>, frames: seq<seq<byte>>) {
    && AreFrames(msgs, frames) && r.allBytes == Flat(frames) && FdsOf(msgs) <= r.allFds
    && |r.marks| == |msgs|
    && forall j | 0 <= j < |msgs| :: r.marks[j] == Mark(|Flat(frames[..j + 1])|, |FdsOf(msgs[..j + 1])|)
  }

  /** Sending a message adds it to those carried, when its descriptors go first. */
  lemma CarriesOneMore(r: Run, r': Run, msgs: seq<Message>, frames: seq<seq<byte>>, m: Message, frame: seq<byte>)
    requires Carries(r, msgs, frames) && r.allFds == FdsOf(msgs) && IsFrame(m, frame)
    requires r'.allBytes == r.allBytes + frame && r'.allFds == r.allFds + ArgFds(m.args)
    requires r'.marks == r.marks + [Mark(|r'.allBytes|, |r'.allFds|)]
    ensures Carries(r', msgs + [m], frames + [frame]) && r'.allFds == FdsOf(msgs + [m])
  {
    var all, allFrames := msgs + [m], frames + [frame];
    FlatAppend(frames, [frame]);
    assert Flat([frame]) == frame;
    FdsOfSplit(all, |msgs|);
    assert all[..|msgs|] == msgs && all[|msgs|..] == [m];
    assert FdsOf([m]) == ArgFds(m.args);
    forall j | 0 <= j < |all|
      ensures r'.marks[j] == Mark(|Flat(allFrames[..j + 1])|, |FdsOf(all[..j + 1])|)
    {
      FrontOf(msgs, m, j + 1);
      FrontOf(frames, frame, j + 1);
    }
  }

  lemma FrontOf<T>(s: seq<T>, x: T, j: nat)
    requires j <= |s| + 1
    ensures (s + [x])[..j] == if j <= |s| then s[..j] else s + [x]
  {
  }

  lemma {:induction false} FdsWithGrows(wire: seq<Packet>, n: nat, n2: nat)
    requires n <= n2
    ensures FdsWith(wire, n) <= FdsWith(wire, n2)
    decreases |wire|
  {
    if wire != [] {
      var before := wire[..|wire| - 1];
      FdsWithGrows(before, n, n2);
      FdsWithIsPrefix(before, n);
    }
  }

  /** Of a reachable run of the sender, any part of what has left makes complete
      messages with all their descriptors. */
  lemma WireArrives(r: Run, msgs: seq<Message>, frames: seq<seq<byte>>, n: nat)
    requires Reachable(r) && Carries(r, msgs, frames) && n <= |WireBytes(r.s.wire)|
    ensures Arrived(msgs, frames, WireBytes(r.s.wire)[..n], FdsWith(r.s.wire, n))
  {
    ReachableInvariant(r);
    var wire, b := r.s.wire, WireBytes(r.s.wire)[..n];
    assert b <= Flat(frames);
    CompleteFits(frames, b);
    var c := Complete(frames, n);
    FdsWithIsPrefix(wire, n);
    FdsOfSplit(msgs, c);
    if c > 0 {
      assert r.marks[c - 1].bytes <= n;
      assert |FdsOf(msgs[..c])| <= |FdsWith(wire, n)|;
    }
    assert FdsOf(msgs[..c]) <= FdsWith(wire, n) by {
      assert FdsOf(msgs[..c]) <= r.allFds && FdsWith(wire, n) <= r.allFds;
    }
  }

  /** The wire cut at the given places: each piece brings the descriptors attached to
      its bytes. */
  ghost function Pieces(wire: seq<Packet>, at: nat, cuts: seq<nat>): seq<Delivery>
    requires Ascending(wire, at, cuts)
    decreases |cuts|
  {
    if cuts == [] then []
    else
      FdsWithGrows(wire, at, cuts[0]);
      [Delivery(WireBytes(wire)[at..cuts[0]], FdsWith(wire, cuts[0])[|FdsWith(wire, at)|..])]
      + Pieces(wire, cuts[0], cuts[1..])
  }

  ghost predicate Ascending(wire: seq<Packet>, at: nat, cuts: seq<nat>)
    decreases |cuts|
  {
    cuts == [] || (at <= cuts[0] <= |WireBytes(wire)| && Ascending(wire, cuts[0], cuts[1..]))
  }

  lemma FirstPiece(wire: seq<Packet>, at: nat, cuts: seq<nat>)
    requires cuts != [] && at <= |WireBytes(wire)| && Ascending(wire, at, cuts)
    ensures var ds := Pieces(wire, at, cuts);
            && ds != [] && ds[1..] == Pieces(wire, cuts[0], cuts[1..])
            && WireBytes(wire)[..at] + ds[0].bytes == WireBytes(wire)[..cuts[0]]
            && FdsWith(wire, at) + ds[0].fds == FdsWith(wire, cuts[0])
  {
    FdsWithGrows(wire, at, cuts[0]);
  }

  lemma {:induction false} PiecesAreTimely(r: Run, msgs: seq<Message>, frames: seq<seq<byte>>, at: nat, cuts: seq<nat>)
    requires Reachable(r) && Carries(r, msgs, frames)
    requires at <= |WireBytes(r.s.wire)| && Ascending(r.s.wire, at, cuts)
    ensures var ds, b, fds := Pieces(r.s.wire, at, cuts), WireBytes(r.s.wire)[..at], FdsWith(r.s.wire, at);
            var last := LastCut(at, cuts);
            && Timely(msgs, frames, b, fds, ds) && last <= |WireBytes(r.s.wire)|
            && b + BytesIn(ds) == WireBytes(r.s.wire)[..last] && fds + FdsIn(ds) == FdsWith(r.s.wire, last)
    decreases |cuts|
  {
    WireArrives(r, msgs, frames, at);
    if cuts != [] {
      var wire, n := r.s.wire, cuts[0];
      PiecesAreTimely(r, msgs, frames, n, cuts[1..]);
      FirstPiece(wire, at, cuts);
      LastOfRest(at, cuts);
      var last := LastCut(n, cuts[1..]);
      TimelyMore(msgs, frames, WireBytes(wire)[..at], FdsWith(wire, at), Pieces(wire, at, cuts),
                 WireBytes(wire)[..n], FdsWith(wire, n), WireBytes(wire)[..last], FdsWith(wire, last));
    }
  }

  function LastCut(at: nat, cuts: seq<nat>): nat {
    if cuts == [] then at else cuts[|cuts| - 1]
  }

  lemma LastOfRest(at: nat, cuts: seq<nat>)
    requires cuts != []
    ensures LastCut(cuts[0], cuts[1..]) == LastCut(at, cuts)
  {
  }

  lemma TimelyMore(msgs: seq<Message>, frames: seq<seq<byte>>, b: seq<byte>, fds: seq<u32>, ds: seq<Delivery>,
                   b1: seq<byte>, fds1: seq<u32>, b2: seq<byte>, fds2: seq<u32>)
    requires Arrived(msgs, frames, b, fds) && ds != []
    requires b + ds[0].bytes == b1 && fds + ds[0].fds == fds1 && Timely(msgs, frames, b1, fds1, ds[1..])
    requires b1 + BytesIn(ds[1..]) == b2 && fds1 + FdsIn(ds[1..]) == fds2
    ensures Timely(msgs, frames, b, fds, ds) && b + BytesIn(ds) == b2 && fds + FdsIn(ds) == fds2
  {
    OneThenRest(b, fds, ds);
  }

  lemma {:induction false} NothingAtZero(wire: seq<Packet>)
    ensures FdsWith(wire, 0) == []
    decreases |wire|
  {
    if wire != [] {
      NothingAtZero(wire[..|wire| - 1]);
    }
  }

  /** In every run of the sender, with flushes of any size, and however the kernel cuts
      up what has left: the receiver has read exactly the messages that have wholly
      arrived, each with the values, the sender, the opcode and the descriptors it was
      sent with, and dropped those to objects that are gone, with their descriptors. */
  lemma EndToEnd(know: nat -> Knowledge, r: Run, msgs: seq<Message>, frames: seq<seq<byte>>, cuts: seq<nat>)
    requires Reachable(r) && Carries(r, msgs, frames) && AllSendable(know, 0, msgs)
    requires Ascending(r.s.wire, 0, cuts) && cuts != []
    ensures var n := cuts[|cuts| - 1];
            && n <= |WireBytes(r.s.wire)| && Arrived(msgs, frames, WireBytes(r.s.wire)[..n], FdsWith(r.s.wire, n))
            && ReceiveAll(know, FRESH, Pieces(r.s.wire, 0, cuts))
               == After(know, msgs, frames, WireBytes(r.s.wire)[..n], FdsWith(r.s.wire, n))
  {
    PiecesAreTimely(r, msgs, frames, 0, cuts);
    NothingAtZero(r.s.wire);
    AtStart(know, msgs, frames);
    ReceiveFragments(know, msgs, frames, [], [], Pieces(r.s.wire, 0, cuts));
  }
}
