/** Demarshalling: takes a message out of the input ring buffer, its descriptors out
    of the descriptor ring buffer, and reserves its new ids in the object map. */
module Demarshalling {
  import opened Options
  import opened Bytes
  import opened Signatures
  import opened Wire
  import opened Closures
  import opened RingBuffers
  import opened FdRings
  import opened ObjectMaps
  import IdMaps

  datatype Result =
    | Closure(sender: u32, opcode: nat, args: seq<Arg>)
    | BadHeader
    | TooManyArgs
    | BadArgs(e: Error)

  /** The bytes of the whole words among `n` bytes. */
  function WholeWords(n: nat): (w: nat)
    ensures w <= n < w + 4
    ensures n >= 8 ==> w >= 8
  {
    4 * (n / 4)
  }

  /** The part of a message behind its header: whole words only. */
  ghost function Body(message: seq<byte>): seq<byte>
    requires |message| >= 8
  {
    message[8..WholeWords(|message|)]
  }

  /** Arguments already read, in front of the outcome for the others. */
  ghost function Resume(args: seq<Arg>, rest: All): All {
    match rest
    case Err(e, fds, m) => Err(e, fds, m)
    case Ok(more, b, fds, m) => Ok(args + more, b, fds, m)
  }

  lemma ResumeOne(args: seq<Arg>, ds: seq<Detail>, b: seq<byte>, fds: seq<u32>, m: IdMaps.IdMap<nat>)
    requires ds != []
    ensures Resume(args, DecodeArgs(ds, b, fds, m)) ==
      match DecodeArg(ds[0], b, fds, m)
      case Err1(e, fds', m') => Err(e, fds', m')
      case Ok1(a, b', fds', m') => Resume(args + [a], DecodeArgs(ds[1..], b', fds', m'))
  {
    match DecodeArg(ds[0], b, fds, m)
    case Err1(_, _, _) =>
    case Ok1(a, b', fds', m') =>
      match DecodeArgs(ds[1..], b', fds', m')
      case Err(_, _, _) =>
      case Ok(more, _, _, _) => assert args + ([a] + more) == (args + [a]) + more;
  }

  /** What a method that reads one argument reports about `DecodeArg`. */
  ghost predicate Reports(one: One, r: Option<Arg>, e: Error, b': seq<byte>, fds: seq<u32>, m: IdMaps.IdMap<nat>) {
    match one
    case Err1(x, fs, n) => r == None && e == x && fs == fds && n == m
    case Ok1(a, b, fs, n) => r == Some(a) && b == b' && fs == fds && n == m
  }

  /** Arguments that are words of the message, apart from new ids. */
  method DemarshalPlain(d: Detail, message: seq<byte>, p: nat, end: nat,
                        ghost fds: seq<u32>, ghost m: IdMaps.IdMap<nat>)
    returns (r: Option<Arg>, e: Error, next: nat)
    requires p + 4 <= end <= |message| && d.letter != 'h' && d.letter != 'n'
    ensures p <= next <= end
    ensures Reports(DecodeArg(d, message[p..end], fds, m), r, e, message[next..end], fds, m)
  {
    var w := BytesWord(message[p..p + 4]);
    HeadAndTail(message, p, end);
    r, e, next := None, TooShort, p + 4;
    match d.letter
    case 's' =>
      if w != 0 {
        r, e, next := DemarshalString(message, p + 4, end, w);
      } else if d.nullable {
        r := Some(String(None));
      } else {
        e := NullString;
      }
    case 'o' =>
      if w == 0 && !d.nullable {
        e := NullObject;
      } else {
        r := Some(Object(w));
      }
    case 'a' =>
      r, next := DemarshalArray(message, p + 4, end, w);
    case _ =>
      r := Some(Num(w));
  }

  lemma HeadAndTail(message: seq<byte>, p: nat, end: nat)
    requires p + 4 <= end <= |message|
    ensures message[p..end][..4] == message[p..p + 4]
    ensures message[p..end][4..] == message[p + 4..end]
  {
  }

  lemma DecodeNewId(d: Detail, b: seq<byte>, fds: seq<u32>, m: IdMaps.IdMap<nat>)
    requires |b| >= 4 && d.letter == 'n'
    ensures var id := BytesWord(b[..4]);
            DecodeArg(d, b, fds, m) ==
              if id == 0 then Err1(NullNewId, fds, m)
              else if IdMaps.ReserveNew(m, id).1.Some? then Err1(BadNewId, fds, m)
              else Ok1(NewId(id), b[4..], fds, IdMaps.ReserveNew(m, id).0)
  {
  }

  method DemarshalNewId(message: seq<byte>, p: nat, end: nat, objects: ObjectMap, d: Detail, ghost fds: seq<u32>)
    returns (r: Option<Arg>, e: Error, next: nat)
    requires p + 4 <= end <= |message| && objects.Valid() && d.letter == 'n'
    modifies objects
    ensures objects.Valid() && p <= next <= end
    ensures Reports(DecodeArg(d, message[p..end], fds, old(objects.View())),
                    r, e, message[next..end], fds, objects.View())
  {
    var id := BytesWord(message[p..p + 4]);
    HeadAndTail(message, p, end);
    DecodeNewId(d, message[p..end], fds, objects.View());
    if id == 0 {
      return None, NullNewId, p + 4;
    }
    var refused := objects.ReserveNew(id);
    if refused.Some? {
      return None, BadNewId, p + 4;
    }
    return Some(NewId(id)), TooShort, p + 4;
  }

  /** Reads one argument at byte `p` of the message, whose words end at `end`. */
  method DemarshalArg(d: Detail, message: seq<byte>, p: nat, end: nat, fdsIn: RingBuffer, objects: ObjectMap)
    returns (r: Option<Arg>, e: Error, next: nat)
    requires p <= end <= |message| && FdsValid(fdsIn) && objects.Valid()
    modifies fdsIn`tail, objects
    ensures FdsValid(fdsIn) && objects.Valid()
    ensures p <= next <= end
    ensures Reports(DecodeArg(d, message[p..end], old(Fds(fdsIn)), old(objects.View())),
                    r, e, message[next..end], Fds(fdsIn), objects.View())
  {
    if d.letter == 'h' {
      var ok, fd := TakeFd(fdsIn);
      return if ok then Some(Fd(fd)) else None, NoFd, p;
    }
    if end - p < 4 {
      return None, TooShort, p;
    }
    if d.letter == 'n' {
      r, e, next := DemarshalNewId(message, p, end, objects, d, Fds(fdsIn));
    } else {
      r, e, next := DemarshalPlain(d, message, p, end, Fds(fdsIn), objects.View());
    }
  }

  method DemarshalArray(message: seq<byte>, p: nat, end: nat, length: u32) returns (r: Option<Arg>, next: nat)
    requires p <= end <= |message|
    ensures p <= next <= end
    ensures var b := message[p..end];
            var n := 4 * DivRoundup(length);
            if |b| < n then r == None else r == Some(Array(b[..length])) && b[n..] == message[next..end]
  {
    var n := 4 * DivRoundup(length);
    if end - p < n {
      return None, p;
    }
    assert message[p..end][..length] == message[p..p + length];
    assert message[p..end][n..] == message[p + n..end];
    return Some(Array(message[p..p + length])), p + n;
  }

  method DemarshalString(message: seq<byte>, p: nat, end: nat, length: u32)
    returns (r: Option<Arg>, e: Error, next: nat)
    requires p <= end <= |message| && length > 0
    ensures p <= next <= end
    ensures var b := message[p..end];
            var n := 4 * DivRoundup(length);
            if |b| < n then r == None && e == TooShort
            else if b[length - 1] != 0 then r == None && e == NotTerminated
            else if 0 in b[..length - 1] then r == None && e == EmbeddedNul
            else r == Some(String(Some(b[..length - 1]))) && next == p + n && b[n..] == message[next..end]
  {
    r, e, next := None, TooShort, p;
    var n := 4 * DivRoundup(length);
    if end - p < n {
      return;
    }
    ghost var b := message[p..end];
    assert b[..length - 1] == message[p..p + length - 1];
    if message[p + length - 1] != 0 {
      return None, NotTerminated, p;
    }
    var len := StringLength(message[p..p + length]);
    if len != length - 1 {
      assert message[p..p + length][len] == b[..length - 1][len];
      return None, EmbeddedNul, p;
    }
    var s := message[p..p + length - 1];
    assert forall i | 0 <= i < |s| :: s[i] == message[p..p + length][i];
    assert b[n..] == message[p + n..end];
    return Some(String(Some(s))), e, p + n;
  }

  /** `strlen`: the position of the first NUL. */
  method StringLength(s: seq<byte>) returns (len: nat)
    requires |s| > 0 && s[|s| - 1] == 0
    ensures len < |s| && s[len] == 0
    ensures forall i | 0 <= i < len :: s[i] != 0
  {
    len := 0;
    while s[len] != 0
      invariant len < |s|
      invariant forall i | 0 <= i < len :: s[i] != 0
      decreases |s| - len
    {
      len := len + 1;
    }
  }

  /** `args` have been read; the rest of the signature and of the input is as given. */
  ghost predicate Midway(all: All, args: seq<Arg>, sig: string, b: seq<byte>, fds: seq<u32>, m: IdMaps.IdMap<nat>) {
    all == Resume(args, DecodeArgs(Parse(sig), b, fds, m))
  }

  lemma AtStart(sig: string, b: seq<byte>, fds: seq<u32>, m: IdMaps.IdMap<nat>)
    ensures Midway(DecodeArgs(Parse(sig), b, fds, m), [], sig, b, fds, m)
  {
    var all := DecodeArgs(Parse(sig), b, fds, m);
    if all.Ok? {
      assert [] + all.args == all.args;
    }
  }

  method DemarshalNext(sig: string, message: seq<byte>, p: nat, end: nat, fdsIn: RingBuffer, objects: ObjectMap,
                       args: seq<Arg>, ghost all: All)
    returns (failed: Option<Error>, more: seq<Arg>, rest: string, next: nat)
    requires p <= end <= |message| && FdsValid(fdsIn) && objects.Valid() && Parse(sig) != []
    requires Midway(all, args, sig, message[p..end], Fds(fdsIn), objects.View())
    modifies fdsIn`tail, objects
    ensures FdsValid(fdsIn) && objects.Valid() && p <= next <= end
    ensures failed.Some? ==> all == Err(failed.value, Fds(fdsIn), objects.View())
    ensures failed == None ==> Parse(sig)[1..] == Parse(rest)
    ensures failed == None ==> Midway(all, more, rest, message[next..end], Fds(fdsIn), objects.View())
  {
    var d;
    d, rest := GetNextArgument(sig);
    ResumeOne(args, Parse(sig), message[p..end], Fds(fdsIn), objects.View());
    var a, e;
    a, e, next := DemarshalArg(d, message, p, end, fdsIn, objects);
    if a == None {
      return Some(e), args, rest, next;
    }
    assert Parse(sig)[1..] == Parse(rest);
    return None, args + [a.value], rest, next;
  }

  /** What demarshalling returns and leaves, given the decoding of the message's body. */
  ghost predicate Outcome(r: Result, message: seq<byte>, all: All, fds: seq<u32>, m: IdMaps.IdMap<nat>)
    requires |message| >= 8
  {
    match all
    case Err(e, fs, n) => r == BadArgs(e) && fds == fs && m == n
    case Ok(args, _, fs, n) =>
      r == Closure(BytesWord(message[..4]), HeaderOpcode(BytesWord(message[4..8])), args) && fds == fs && m == n
  }

  lemma AtEnd(all: All, args: seq<Arg>, sig: string, b: seq<byte>, fds: seq<u32>, m: IdMaps.IdMap<nat>)
    requires Midway(all, args, sig, b, fds, m) && Parse(sig) == []
    ensures all == Ok(args, b, fds, m)
  {
  }

  /** Reads the arguments one after the other; at the first error the closure is given up. */
  method DemarshalAll(signature: string, message: seq<byte>, end: nat, fdsIn: RingBuffer, objects: ObjectMap,
                      ghost all: All)
    returns (r: Result)
    requires 8 <= end <= |message| && FdsValid(fdsIn) && objects.Valid()
    requires Midway(all, [], signature, message[8..end], Fds(fdsIn), objects.View())
    modifies fdsIn`tail, objects
    ensures FdsValid(fdsIn) && objects.Valid()
    ensures Outcome(r, message, all, Fds(fdsIn), objects.View())
  {
    var p := 8;
    var args := [];
    var sig := signature;
    var count := ArgCountForSignature(signature);
    for i := 0 to count
      invariant FdsValid(fdsIn) && objects.Valid()
      invariant p <= end && |Parse(sig)| == count - i
      invariant Midway(all, args, sig, message[p..end], Fds(fdsIn), objects.View())
    {
      var failed;
      failed, args, sig, p := DemarshalNext(sig, message, p, end, fdsIn, objects, args, all);
      if failed.Some? {
        return BadArgs(failed.value);
      }
    }
    AtEnd(all, args, sig, message[p..end], Fds(fdsIn), objects.View());
    return Closure(BytesWord(message[..4]), HeaderOpcode(BytesWord(message[4..8])), args);
  }

  method DemarshalArgs(signature: string, message: seq<byte>, fdsIn: RingBuffer, objects: ObjectMap)
    returns (r: Result)
    requires |message| >= 8 && FdsValid(fdsIn) && objects.Valid()
    modifies fdsIn`tail, objects
    ensures FdsValid(fdsIn) && objects.Valid()
    ensures Outcome(r, message, DecodeArgs(Parse(signature), Body(message), old(Fds(fdsIn)), old(objects.View())),
                    Fds(fdsIn), objects.View())
  {
    ghost var all := DecodeArgs(Parse(signature), Body(message), Fds(fdsIn), objects.View());
    AtStart(signature, Body(message), Fds(fdsIn), objects.View());
    r := DemarshalAll(signature, message, WholeWords(|message|), fdsIn, objects, all);
  }

  method TakeMessage(input: RingBuffer, fdsIn: RingBuffer, size: nat, objects: ObjectMap, signature: string)
    returns (r: Result)
    requires input.Valid() && FdsValid(fdsIn) && objects.Valid() && 8 <= size <= input.Size()
    requires input != fdsIn
    modifies input`tail, fdsIn`tail, objects
    ensures input.Valid() && FdsValid(fdsIn) && objects.Valid()
    ensures input.Contents() == old(input.Contents())[size..]
    ensures Outcome(r, old(input.Contents())[..size],
                    DecodeArgs(Parse(signature), Body(old(input.Contents())[..size]),
                               old(Fds(fdsIn)), old(objects.View())),
                    Fds(fdsIn), objects.View())
  {
    var message := input.Copy(size);
    input.Consume(size);
    r := DemarshalArgs(signature, message, fdsIn, objects);
  }

  /** The message is taken out of the input in every case. */
  method Demarshal(input: RingBuffer, fdsIn: RingBuffer, size: nat, objects: ObjectMap, signature: string)
    returns (r: Result)
    requires input.Valid() && FdsValid(fdsIn) && objects.Valid() && size <= input.Size()
    requires input != fdsIn
    modifies input`tail, fdsIn`tail, objects
    ensures input.Valid() && FdsValid(fdsIn) && objects.Valid()
    ensures input.Contents() == old(input.Contents())[size..]
    ensures size < 8 ==> r == BadHeader
    ensures size >= 8 && |Parse(signature)| > MAX_ARGS ==> r == TooManyArgs
    ensures r == BadHeader || r == TooManyArgs ==>
      Fds(fdsIn) == old(Fds(fdsIn)) && objects.View() == old(objects.View())
    ensures size >= 8 && |Parse(signature)| <= MAX_ARGS ==>
      Outcome(r, old(input.Contents())[..size],
              DecodeArgs(Parse(signature), Body(old(input.Contents())[..size]),
                         old(Fds(fdsIn)), old(objects.View())),
              Fds(fdsIn), objects.View())
  {
    if size < 8 {
      input.Consume(size);
      return BadHeader;
    }
    var count := ArgCountForSignature(signature);
    if count > MAX_ARGS {
      input.Consume(size);
      return TooManyArgs;
    }
    r := TakeMessage(input, fdsIn, size, objects, signature);
  }
}
