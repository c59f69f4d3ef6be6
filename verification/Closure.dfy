/** Serialising a closure into a buffer of words. */
module Closures {
  import opened Bytes
  import opened Signatures
  import opened Wire

  /** The second word of a message: its size in bytes in the upper half, the opcode
      in the lower one. */
  function HeaderWord(size: nat, opcode: nat): u32 {
    size % 0x1_0000 * 0x1_0000 + opcode % 0x1_0000
  }

  function HeaderSize(w: u32): nat {
    w / 0x1_0000
  }

  function HeaderOpcode(w: u32): nat {
    w % 0x1_0000
  }

  /** The size has 16 bits: it is read back exactly if it is below 65536. */
  lemma HeaderSizeIff(size: nat, opcode: nat)
    ensures HeaderOpcode(HeaderWord(size, opcode)) == opcode % 0x1_0000
    ensures HeaderSize(HeaderWord(size, opcode)) == size <==> size < 0x1_0000
  {
  }

  /** The smallest size that is not read back. */
  lemma HeaderSizeOverflows()
    ensures HeaderSize(HeaderWord(0x1_0000, 0)) == 0
  {
  }

  lemma CountsOn(args: seq<Arg>, i: nat, words: u32)
    requires i < |args| && words == ToU32(ArgsWords(args[..i]))
    ensures ToU32(words + ArgWords(args[i])) == ToU32(ArgsWords(args[..i + 1]))
  {
    ArgsWordsAppend(args[..i], [args[i]]);
    assert args[..i + 1] == args[..i] + [args[i]];
    assert ArgsWords([args[i]]) == ArgWords(args[i]);
  }

  method CountArg(a: Arg) returns (words: nat)
    requires a.String? && a.s.Some? ==> |a.s.value| + 1 < 0x1_0000_0000
    ensures words == ArgWords(a)
  {
    match a
    case Fd(_) => words := 0;
    case String(Some(s)) =>
      var size: u32 := |s| + 1;
      words := 1 + DivRoundup(size);
    case Array(bytes) =>
      words := 1 + DivRoundup(|bytes|);
    case _ =>
      words := 1;
  }

  /** The words of the message, as far as 32 bits can count them. */
  method BufferSizeForClosure(signature: string, args: seq<Arg>) returns (words: u32)
    requires AllMatch(Parse(signature), args)
    ensures words == ToU32(2 + ArgsWords(args))
  {
    words := 0;
    var sig := signature;
    for i := 0 to |args|
      invariant Parse(sig) == Parse(signature)[i..]
      invariant words == ToU32(ArgsWords(args[..i]))
    {
      var d;
      d, sig := GetNextArgument(sig);
      CountsOn(args, i, words);
      var size := CountArg(args[i]);
      words := ToU32(words + size);
    }
    assert args[..|args|] == args;
    words := ToU32(words + 2);
  }

  method StoreBytes(buffer: array<byte>, at: nat, xs: seq<byte>)
    requires at + |xs| <= buffer.Length
    modifies buffer
    ensures buffer[at..at + |xs|] == xs
    ensures forall i | 0 <= i < buffer.Length && !(at <= i < at + |xs|) :: buffer[i] == old(buffer[i])
  {
    forall i | 0 <= i < |xs| {
      buffer[at + i] := xs[i];
    }
  }

  /** One argument at word `p` of a buffer of `count` words, or overflow. Padding
      bytes stay as they are. */
  method StoreArg(a: Arg, buffer: array<byte>, count: nat, p: nat) returns (ok: bool, next: nat)
    requires buffer.Length == 4 * count && p <= count
    requires a.String? && a.s.Some? ==> |a.s.value| + 1 < 0x1_0000_0000
    requires a.Array? ==> |a.bytes| < 0x1_0000_0000
    modifies buffer
    ensures ok <==> p + ArgWords(a) <= count
    ensures ok ==> next == p + ArgWords(a)
    ensures ok ==> Encodes(a, buffer[4 * p..4 * next])
    ensures buffer[..4 * p] == old(buffer[..4 * p])
  {
    next := p;
    if a.Fd? {
      return true, p;
    }
    if p >= count {
      return false, p;
    }
    match a
    case Num(n) =>
      StoreBytes(buffer, 4 * p, WordBytes(n));
      return true, p + 1;
    case Object(id) =>
      StoreBytes(buffer, 4 * p, WordBytes(id));
      return true, p + 1;
    case NewId(id) =>
      StoreBytes(buffer, 4 * p, WordBytes(id));
      return true, p + 1;
    case String(None) =>
      StoreBytes(buffer, 4 * p, WordBytes(0));
      return true, p + 1;
    case String(Some(s)) =>
      ok, next := StoreCounted(buffer, count, p, |s| + 1, s + [0]);
      if ok {
        TerminatedString(buffer[4 * p..4 * next], s);
      }
    case Array(bytes) =>
      ok, next := StoreCounted(buffer, count, p, |bytes|, bytes);
  }

  lemma TerminatedString(b: seq<byte>, s: seq<byte>)
    requires 4 + |s| + 1 <= |b| && b[4..4 + |s| + 1] == s + [0]
    ensures b[4..4 + |s|] == s && b[4 + |s|] == 0
  {
    assert b[4..4 + |s| + 1][..|s|] == s;
    assert b[4..4 + |s| + 1][|s|] == 0;
  }

  lemma SliceOfSlice(s: seq<byte>, a: nat, b: nat, c: nat, d: nat)
    requires a <= b <= |s| && c <= d <= b - a
    ensures s[a..b][c..d] == s[a + c..a + d]
  {
    var t := s[a..b];
    forall i | 0 <= i < d - c
      ensures t[c..d][i] == s[a + c..a + d][i]
    {
      assert t[c..d][i] == t[c + i] == s[a + (c + i)];
    }
  }

  /** A length word and that many bytes behind it. */
  method StoreCounted(buffer: array<byte>, count: nat, p: nat, size: u32, xs: seq<byte>) returns (ok: bool, next: nat)
    requires buffer.Length == 4 * count && p < count && |xs| == size
    modifies buffer
    ensures ok <==> p + 1 + DivRoundup(size) <= count
    ensures ok ==> next == p + 1 + DivRoundup(size)
    ensures ok ==> buffer[4 * p..4 * next][..4] == WordBytes(size) && buffer[4 * p..4 * next][4..4 + size] == xs
    ensures buffer[..4 * p] == old(buffer[..4 * p])
  {
    StoreBytes(buffer, 4 * p, WordBytes(size));
    next := p + 1;
    if DivRoundup(size) > count - next {
      return false, next;
    }
    StoreBytes(buffer, 4 * next, xs);
    next := next + DivRoundup(size);
    ok := true;
    ghost var all := buffer[..];
    SliceOfSlice(all, 4 * p, 4 * next, 4, 4 + size);
    SliceOfSlice(all, 4 * p, 4 * next, 0, 4);
    assert all[4 * p + 4..4 * p + 4 + size] == xs && all[4 * p..4 * p + 4] == WordBytes(size);
  }

  /** The first `i` arguments are stored up to word `p`. */
  ghost predicate Stored(args: seq<Arg>, i: nat, parts: seq<seq<byte>>, body: seq<byte>, p: nat) {
    && i <= |args| && p == 2 + ArgsWords(args[..i])
    && EncodesAll(args[..i], parts) && body == Flat(parts)
  }

  lemma StoredOneMore(args: seq<Arg>, i: nat, parts: seq<seq<byte>>, body: seq<byte>, p: nat, part: seq<byte>)
    requires Stored(args, i, parts, body, p) && i < |args| && Encodes(args[i], part)
    ensures Stored(args, i + 1, parts + [part], body + part, p + ArgWords(args[i]))
  {
    FlatAppend(parts, [part]);
    ArgsWordsAppend(args[..i], [args[i]]);
    assert args[..i + 1] == args[..i] + [args[i]];
  }

  lemma WordsThrough(args: seq<Arg>, i: nat)
    requires i < |args|
    ensures ArgsWords(args[..i]) + ArgWords(args[i]) <= ArgsWords(args)
  {
    ArgsWordsAppend(args[..i], args[i..]);
    assert args[..i] + args[i..] == args && args[i..][0] == args[i];
  }

  /** The bytes of a whole message. */
  ghost predicate IsMessage(b: seq<byte>, sender: u32, opcode: nat, args: seq<Arg>, parts: seq<seq<byte>>) {
    && EncodesAll(args, parts)
    && b == WordBytes(sender) + WordBytes(HeaderWord(|b|, opcode)) + Flat(parts)
  }

  method StoreHeader(sender: u32, opcode: u32, buffer: array<byte>, size: nat)
    requires 8 <= size <= buffer.Length
    modifies buffer
    ensures buffer[..size] == WordBytes(sender) + WordBytes(HeaderWord(size, opcode)) + old(buffer[8..size])
  {
    StoreBytes(buffer, 0, WordBytes(sender));
    StoreBytes(buffer, 4, WordBytes(HeaderWord(size, opcode)));
    assert buffer[..size] == buffer[0..4] + buffer[4..8] + buffer[8..size];
  }

  lemma SliceJoin(s: seq<byte>, a: nat, b: nat, c: nat)
    requires a <= b <= c <= |s|
    ensures s[a..c] == s[a..b] + s[b..c]
  {
  }

  /** The next argument behind those that are stored. */
  method StoreNext(args: seq<Arg>, i: nat, buffer: array<byte>, count: nat, p: nat, ghost parts: seq<seq<byte>>)
    returns (ok: bool, next: nat, ghost parts': seq<seq<byte>>)
    requires i < |args| && buffer.Length == 4 * count && 2 <= p <= count
    requires args[i].String? && args[i].s.Some? ==> |args[i].s.value| + 1 < 0x1_0000_0000
    requires args[i].Array? ==> |args[i].bytes| < 0x1_0000_0000
    requires Stored(args, i, parts, buffer[8..4 * p], p)
    modifies buffer
    ensures ok <==> p + ArgWords(args[i]) <= count
    ensures ok ==> p <= next <= count && Stored(args, i + 1, parts', buffer[8..4 * next], next)
  {
    ghost var before := buffer[8..4 * p];
    ok, next := StoreArg(args[i], buffer, count, p);
    parts' := parts;
    if ok {
      ghost var all := buffer[..];
      SliceJoin(all, 8, 4 * p, 4 * next);
      assert all[8..4 * p] == before;
      StoredOneMore(args, i, parts, before, p, all[4 * p..4 * next]);
      parts' := parts + [all[4 * p..4 * next]];
    }
  }

  /** Serialises a closure. The overflow branch is taken exactly when the buffer is too
      small for it. A size of 2 GiB or more does not fit the result, which is then
      negative, like that of an overflow, or too small. */
  method SerializeClosure(signature: string, args: seq<Arg>, sender: u32, opcode: u32, buffer: array<byte>, count: nat)
    returns (size: int, ghost parts: seq<seq<byte>>)
    requires AllMatch(Parse(signature), args) && buffer.Length == 4 * count
    modifies buffer
    ensures size == if count < 2 + ArgsWords(args) then -1 else ToInt32(4 * (2 + ArgsWords(args)))
    ensures size == 4 * (2 + ArgsWords(args)) ==> IsMessage(buffer[..size], sender, opcode, args, parts)
  {
    parts := [];
    if count < 2 {
      return -1, parts;
    }
    var p := 2;
    var sig := signature;
    for i := 0 to |args|
      invariant 2 <= p <= count
      invariant Parse(sig) == Parse(signature)[i..]
      invariant Stored(args, i, parts, buffer[8..4 * p], p)
    {
      var d;
      d, sig := GetNextArgument(sig);
      WordsThrough(args, i);
      var ok;
      ok, p, parts := StoreNext(args, i, buffer, count, p, parts);
      if !ok {
        return -1, parts;
      }
    }
    assert args[..|args|] == args;
    StoreHeader(sender, opcode, buffer, 4 * p);
    size := ToInt32(4 * p);
  }
}
