/** The wire format: how the arguments of a message lie in the byte stream, and
    what is read back from it. */
module Wire {
  import opened Options
  import opened Bytes
  import opened Signatures
  import IdMaps

  const MAX_ARGS := 20
  const MAX_MESSAGE_SIZE := 4096

  /** An argument as it is sent: integers and fixed-point numbers are words, objects
      and new objects are ids, 0 standing for null; strings are without their NUL. */
  datatype Arg =
    | Num(n: u32)
    | Object(id: u32)
    | NewId(id: u32)
    | String(s: Option<seq<byte>>)
    | Array(bytes: seq<byte>)
    | Fd(fd: u32)

  /** What marshalling lets through: the type fits, and only nullable arguments are null. */
  ghost predicate Matches(d: Detail, a: Arg) {
    match a
    case Num(_) => d.letter in "iuf"
    case Object(id) => d.letter == 'o' && (id == 0 ==> d.nullable)
    case NewId(id) => d.letter == 'n' && id != 0
    case String(None) => d.letter == 's' && d.nullable
    case String(Some(s)) => d.letter == 's' && 0 !in s && |s| + 1 < 0x1_0000_0000
    case Array(bytes) => d.letter == 'a' && |bytes| < 0x1_0000_0000
    case Fd(_) => d.letter == 'h'
  }

  ghost predicate AllMatch(ds: seq<Detail>, args: seq<Arg>) {
    |ds| == |args| && forall i | 0 <= i < |ds| :: Matches(ds[i], args[i])
  }

  function DivRoundup(n: nat): nat {
    (n + 3) / 4
  }

  function ArgWords(a: Arg): nat {
    match a
    case Fd(_) => 0
    case String(Some(s)) => 1 + DivRoundup(|s| + 1)
    case Array(bytes) => 1 + DivRoundup(|bytes|)
    case _ => 1
  }

  function ArgsWords(args: seq<Arg>): nat {
    if args == [] then 0 else ArgWords(args[0]) + ArgsWords(args[1..])
  }

  function ArgFds(args: seq<Arg>): seq<u32> {
    if args == [] then []
    else (if args[0].Fd? then [args[0].fd] else []) + ArgFds(args[1..])
  }

  /** `b` is an encoding of `a`. The bytes that fill up the last word are whatever
      was in the memory of the sender. */
  ghost predicate Encodes(a: Arg, b: seq<byte>) {
    && |b| == 4 * ArgWords(a)
    && match a
       case Num(n) => b == WordBytes(n)
       case Object(id) => b == WordBytes(id)
       case NewId(id) => b == WordBytes(id)
       case String(None) => b == WordBytes(0)
       case String(Some(s)) =>
         |s| + 1 < 0x1_0000_0000 && b[..4] == WordBytes(|s| + 1) && b[4..4 + |s|] == s && b[4 + |s|] == 0
       case Array(bytes) =>
         |bytes| < 0x1_0000_0000 && b[..4] == WordBytes(|bytes|) && b[4..4 + |bytes|] == bytes
       case Fd(_) => true
  }

  /** Each argument with its own piece of the message. */
  ghost predicate EncodesAll(args: seq<Arg>, parts: seq<seq<byte>>) {
    |args| == |parts| && forall i | 0 <= i < |args| :: Encodes(args[i], parts[i])
  }

  function Flat(parts: seq<seq<byte>>): seq<byte> {
    if parts == [] then [] else parts[0] + Flat(parts[1..])
  }

  lemma {:induction false} FlatAppend(parts: seq<seq<byte>>, more: seq<seq<byte>>)
    ensures Flat(parts + more) == Flat(parts) + Flat(more)
    decreases |parts|
  {
    if parts == [] {
      assert parts + more == more;
    } else {
      FlatAppend(parts[1..], more);
      assert (parts + more)[1..] == parts[1..] + more;
    }
  }

  lemma {:induction false} EncodedLength(args: seq<Arg>, parts: seq<seq<byte>>)
    requires EncodesAll(args, parts)
    ensures |Flat(parts)| == 4 * ArgsWords(args)
    decreases |args|
  {
    if args != [] {
      EncodedLength(args[1..], parts[1..]);
    }
  }

  lemma {:induction false} ArgsWordsAppend(args: seq<Arg>, more: seq<Arg>)
    ensures ArgsWords(args + more) == ArgsWords(args) + ArgsWords(more)
    decreases |args|
  {
    if args == [] {
      assert args + more == more;
    } else {
      ArgsWordsAppend(args[1..], more);
      assert (args + more)[1..] == args[1..] + more;
    }
  }

  // ---------- Reading back ----------

  datatype Error =
    | TooShort | NullString | NotTerminated | EmbeddedNul
    | NullObject | NullNewId | BadNewId | NoFd

  /** One argument and what is left: bytes, descriptors, and the object map, in which
      a new id is reserved. */
  datatype One =
    | Ok1(a: Arg, b: seq<byte>, fds: seq<u32>, m: IdMaps.IdMap<nat>)
    | Err1(e: Error, fds: seq<u32>, m: IdMaps.IdMap<nat>)

  /** After an error the descriptors already read are gone, and the new ids stay reserved. */
  datatype All =
    | Ok(args: seq<Arg>, b: seq<byte>, fds: seq<u32>, m: IdMaps.IdMap<nat>)
    | Err(e: Error, fds: seq<u32>, m: IdMaps.IdMap<nat>)

  function DecodeArg(d: Detail, b: seq<byte>, fds: seq<u32>, m: IdMaps.IdMap<nat>): One {
    if d.letter == 'h' then
      if fds == [] then Err1(NoFd, fds, m) else Ok1(Fd(fds[0]), b, fds[1..], m)
    else if |b| < 4 then Err1(TooShort, fds, m)
    else
      var w := BytesWord(b[..4]);
      var r := b[4..];
      var n := 4 * DivRoundup(w);
      match d.letter
      case 's' =>
        if w == 0 then
          if d.nullable then Ok1(String(None), r, fds, m) else Err1(NullString, fds, m)
        else if |r| < n then Err1(TooShort, fds, m)
        else if r[w - 1] != 0 then Err1(NotTerminated, fds, m)
        else if 0 in r[..w - 1] then Err1(EmbeddedNul, fds, m)
        else Ok1(String(Some(r[..w - 1])), r[n..], fds, m)
      case 'o' =>
        if w == 0 && !d.nullable then Err1(NullObject, fds, m) else Ok1(Object(w), r, fds, m)
      case 'n' =>
        if w == 0 then Err1(NullNewId, fds, m)
        else
          var (m', e) := IdMaps.ReserveNew(m, w);
          if e.Some? then Err1(BadNewId, fds, m) else Ok1(NewId(w), r, fds, m')
      case 'a' =>
        if |r| < n then Err1(TooShort, fds, m) else Ok1(Array(r[..w]), r[n..], fds, m)
      case _ => Ok1(Num(w), r, fds, m)
  }

  function DecodeArgs(ds: seq<Detail>, b: seq<byte>, fds: seq<u32>, m: IdMaps.IdMap<nat>): All
    decreases |ds|
  {
    if ds == [] then Ok([], b, fds, m)
    else
      match DecodeArg(ds[0], b, fds, m)
      case Err1(e, fds', m') => Err(e, fds', m')
      case Ok1(a, b', fds', m') =>
        match DecodeArgs(ds[1..], b', fds', m')
        case Err(e, fds'', m'') => Err(e, fds'', m'')
        case Ok(args, b'', fds'', m'') => Ok([a] + args, b'', fds'', m'')
  }

  /** The object map accepts the new ids of the arguments, one after the other. */
  ghost function ReserveAll(args: seq<Arg>, m: IdMaps.IdMap<nat>): Option<IdMaps.IdMap<nat>> {
    if args == [] then Some(m)
    else if args[0].NewId? then
      var (m', e) := IdMaps.ReserveNew(m, args[0].id);
      if e.Some? then None else ReserveAll(args[1..], m')
    else ReserveAll(args[1..], m)
  }

  /** On an error, what is gone are the descriptors of the arguments read before it, and
      what is reserved are their new ids: they would have been accepted by themselves. */
  lemma {:induction false} ErrorLeaves(ds: seq<Detail>, b: seq<byte>, fds: seq<u32>, m: IdMaps.IdMap<nat>)
    returns (k: nat)
    requires DecodeArgs(ds, b, fds, m).Err?
    ensures FailsAt(ds, b, fds, m, DecodeArgs(ds, b, fds, m), k)
    decreases |ds|
  {
    var one := DecodeArg(ds[0], b, fds, m);
    if one.Err1? {
      k := 0;
      assert fds == ArgFds([]) + fds;
    } else {
      k := ErrorLeaves(ds[1..], one.b, one.fds, one.m);
      FailsLater(ds, b, fds, m, DecodeArgs(ds, b, fds, m), k);
      k := k + 1;
    }
  }

  /** The first `k` arguments are read, and the next one fails. */
  ghost predicate FailsAt(ds: seq<Detail>, b: seq<byte>, fds: seq<u32>, m: IdMaps.IdMap<nat>, r: All, k: nat) {
    && k < |ds| && r.Err? && var read := DecodeArgs(ds[..k], b, fds, m);
    && read.Ok? && read.fds == r.fds && read.m == r.m
    && fds == ArgFds(read.args) + r.fds && ReserveAll(read.args, m) == Some(r.m)
    && DecodeArg(ds[k], read.b, r.fds, r.m) == Err1(r.e, r.fds, r.m)
  }

  lemma FailsLater(ds: seq<Detail>, b: seq<byte>, fds: seq<u32>, m: IdMaps.IdMap<nat>, r: All, k: nat)
    requires ds != [] && DecodeArg(ds[0], b, fds, m).Ok1?
    requires var one := DecodeArg(ds[0], b, fds, m); FailsAt(ds[1..], one.b, one.fds, one.m, r, k)
    ensures FailsAt(ds, b, fds, m, r, k + 1)
  {
    var one := DecodeArg(ds[0], b, fds, m);
    var rest := DecodeArgs(ds[1..][..k], one.b, one.fds, one.m);
    assert ds[..k + 1][0] == ds[0] && ds[..k + 1][1..] == ds[1..][..k];
    assert ([one.a] + rest.args)[1..] == rest.args;
    OneArgTaken(ds[0], b, fds, m);
  }

  /** An argument takes its own descriptor, and reserves its own id. */
  lemma OneArgTaken(d: Detail, b: seq<byte>, fds: seq<u32>, m: IdMaps.IdMap<nat>)
    requires DecodeArg(d, b, fds, m).Ok1?
    ensures var r := DecodeArg(d, b, fds, m);
            && fds == (if r.a.Fd? then [r.a.fd] else []) + r.fds
            && (if r.a.NewId? then IdMaps.ReserveNew(m, r.a.id) == (r.m, None) else r.m == m)
  {
  }

  lemma DecodeEncodedArg(d: Detail, a: Arg, b: seq<byte>, rest: seq<byte>, fds: seq<u32>, m: IdMaps.IdMap<nat>)
    requires Matches(d, a) && Encodes(a, b)
    requires a.Fd? ==> fds != [] && fds[0] == a.fd
    requires a.NewId? ==> IdMaps.ReserveNew(m, a.id).1 == None
    ensures DecodeArg(d, b + rest, fds, m) ==
      Ok1(a, rest, if a.Fd? then fds[1..] else fds, if a.NewId? then IdMaps.ReserveNew(m, a.id).0 else m)
  {
    if a.Fd? {
      assert b + rest == rest;
    } else {
      var all := b + rest;
      assert all[..4] == b[..4] && all[4..] == b[4..] + rest;
      match a
      case Num(n) => WordRoundTrip(n);
      case Object(id) => WordRoundTrip(id);
      case NewId(id) => WordRoundTrip(id);
      case String(None) => WordRoundTrip(0);
      case String(Some(s)) =>
        WordRoundTrip(|s| + 1);
        assert all[4..][..|s|] == s && all[4..][|s|] == 0;
      case Array(bytes) =>
        WordRoundTrip(|bytes|);
        assert all[4..][..|bytes|] == bytes;
    }
  }

  /** Arguments are read back exactly as sent, with their descriptors in order, whatever
      the padding and whatever follows them. */
  lemma {:induction false} DecodeEncoded(ds: seq<Detail>, args: seq<Arg>, parts: seq<seq<byte>>, rest: seq<byte>,
                                         fds: seq<u32>, m: IdMaps.IdMap<nat>)
    requires AllMatch(ds, args) && EncodesAll(args, parts)
    requires ReserveAll(args, m).Some?
    ensures DecodeArgs(ds, Flat(parts) + rest, ArgFds(args) + fds, m) == Ok(args, rest, fds, ReserveAll(args, m).value)
    decreases |ds|
  {
    if ds == [] {
      assert Flat(parts) + rest == rest && ArgFds(args) + fds == fds;
    } else {
      DecodeFirst(ds[0], args, parts, rest, fds, m);
      var m' := if args[0].NewId? then IdMaps.ReserveNew(m, args[0].id).0 else m;
      DecodeEncoded(ds[1..], args[1..], parts[1..], rest, fds, m');
      DecodeRest(ds, Flat(parts) + rest, ArgFds(args) + fds, m,
                 Ok1(args[0], Flat(parts[1..]) + rest, ArgFds(args[1..]) + fds, m'),
                 Ok(args[1..], rest, fds, ReserveAll(args, m).value));
      assert [args[0]] + args[1..] == args;
    }
  }

  lemma FdsFirst(args: seq<Arg>, fds: seq<u32>)
    requires args != []
    ensures ArgFds(args) + fds == (if args[0].Fd? then [args[0].fd] else []) + (ArgFds(args[1..]) + fds)
  {
  }

  lemma FlatFirst(parts: seq<seq<byte>>, rest: seq<byte>)
    requires parts != []
    ensures Flat(parts) + rest == parts[0] + (Flat(parts[1..]) + rest)
  {
  }

  lemma DecodeRest(ds: seq<Detail>, b: seq<byte>, fds: seq<u32>, m: IdMaps.IdMap<nat>, first: One, others: All)
    requires ds != [] && first.Ok1? && others.Ok? && DecodeArg(ds[0], b, fds, m) == first
    requires DecodeArgs(ds[1..], first.b, first.fds, first.m) == others
    ensures DecodeArgs(ds, b, fds, m) == Ok([first.a] + others.args, others.b, others.fds, others.m)
  {
  }

  lemma DecodeFirst(d: Detail, args: seq<Arg>, parts: seq<seq<byte>>, rest: seq<byte>, fds: seq<u32>,
                    m: IdMaps.IdMap<nat>)
    requires args != [] && Matches(d, args[0]) && EncodesAll(args, parts) && ReserveAll(args, m).Some?
    ensures var m' := if args[0].NewId? then IdMaps.ReserveNew(m, args[0].id).0 else m;
            DecodeArg(d, Flat(parts) + rest, ArgFds(args) + fds, m)
              == Ok1(args[0], Flat(parts[1..]) + rest, ArgFds(args[1..]) + fds, m')
  {
    var more := Flat(parts[1..]) + rest;
    FdsFirst(args, fds);
    FlatFirst(parts, rest);
    DecodeEncodedArg(d, args[0], parts[0], more, ArgFds(args) + fds, m);
  }

  lemma DecodedArgIsEncoded(d: Detail, b: seq<byte>, fds: seq<u32>, m: IdMaps.IdMap<nat>) returns (part: seq<byte>)
    requires IsArgLetter(d.letter) && DecodeArg(d, b, fds, m).Ok1?
    ensures var r := DecodeArg(d, b, fds, m);
            Matches(d, r.a) && Encodes(r.a, part) && b == part + r.b
            && fds == (if r.a.Fd? then [r.a.fd] else []) + r.fds
  {
    var r := DecodeArg(d, b, fds, m);
    DecodedLayout(d, b, fds, m);
    OneArgTaken(d, b, fds, m);
    part := b[..4 * ArgWords(r.a)];
    if d.letter != 'h' {
      BytesRoundTrip(b[..4]);
      DecodedPart(d, b, fds, m, part);
    }
  }

  /** What is left is what follows the words of the argument. */
  lemma DecodedLayout(d: Detail, b: seq<byte>, fds: seq<u32>, m: IdMaps.IdMap<nat>)
    requires DecodeArg(d, b, fds, m).Ok1?
    ensures var r := DecodeArg(d, b, fds, m);
            4 * ArgWords(r.a) <= |b| && r.b == b[4 * ArgWords(r.a)..]
  {
  }

  lemma DecodedPart(d: Detail, b: seq<byte>, fds: seq<u32>, m: IdMaps.IdMap<nat>, part: seq<byte>)
    requires DecodeArg(d, b, fds, m).Ok1? && d.letter != 'h' && IsArgLetter(d.letter)
    requires WordBytes(BytesWord(b[..4])) == b[..4]
    requires var n := 4 * ArgWords(DecodeArg(d, b, fds, m).a); 4 <= n <= |b| && part == b[..n]
    ensures Matches(d, DecodeArg(d, b, fds, m).a) && Encodes(DecodeArg(d, b, fds, m).a, part)
  {
    assert part[..4] == b[..4];
    match DecodeArg(d, b, fds, m).a
    case String(Some(s)) => assert part[4..4 + |s|] == s && part[4 + |s|] == b[4..][|s|];
    case Array(bytes) => assert part[4..4 + |bytes|] == bytes;
    case _ =>
  }

  /** `b` starts with an encoding of `args` and goes on with `b'`; the descriptors likewise. */
  ghost predicate Explains(ds: seq<Detail>, b: seq<byte>, fds: seq<u32>,
                           args: seq<Arg>, parts: seq<seq<byte>>, b': seq<byte>, fds': seq<u32>) {
    && AllMatch(ds, args) && EncodesAll(args, parts)
    && b == Flat(parts) + b' && fds == ArgFds(args) + fds'
  }

  lemma ExplainsOneMore(d: Detail, ds: seq<Detail>, a: Arg, part: seq<byte>, b: seq<byte>, fds: seq<u32>,
                        args: seq<Arg>, parts: seq<seq<byte>>, b': seq<byte>, fds': seq<u32>)
    requires Explains(ds, b, fds, args, parts, b', fds') && Matches(d, a) && Encodes(a, part)
    ensures Explains([d] + ds, part + b, (if a.Fd? then [a.fd] else []) + fds, [a] + args, [part] + parts, b', fds')
  {
    assert ([part] + parts)[1..] == parts && ([a] + args)[1..] == args;
    assert part + (Flat(parts) + b') == Flat([part] + parts) + b';
    var first := if a.Fd? then [a.fd] else [];
    assert first + (ArgFds(args) + fds') == ArgFds([a] + args) + fds';
  }

  /** The converse: what is read back was an encoding of arguments that fit the
      signature, so nothing else is accepted. */
  lemma {:induction false} DecodedIsEncoded(ds: seq<Detail>, b: seq<byte>, fds: seq<u32>, m: IdMaps.IdMap<nat>)
    returns (parts: seq<seq<byte>>)
    requires forall i | 0 <= i < |ds| :: IsArgLetter(ds[i].letter)
    requires DecodeArgs(ds, b, fds, m).Ok?
    ensures var r := DecodeArgs(ds, b, fds, m);
            Explains(ds, b, fds, r.args, parts, r.b, r.fds)
    decreases |ds|
  {
    if ds == [] {
      parts := [];
    } else {
      var part := DecodedArgIsEncoded(ds[0], b, fds, m);
      var one := DecodeArg(ds[0], b, fds, m);
      var rest := DecodedIsEncoded(ds[1..], one.b, one.fds, one.m);
      parts := [part] + rest;
      var all := DecodeArgs(ds[1..], one.b, one.fds, one.m);
      ExplainsOneMore(ds[0], ds[1..], one.a, part, one.b, one.fds, all.args, rest, all.b, all.fds);
      assert [ds[0]] + ds[1..] == ds;
    }
  }
}
