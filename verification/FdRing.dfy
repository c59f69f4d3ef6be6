/** The ring buffers that hold file descriptors: whole 32-bit words, so that no
    descriptor straddles the end of the array. */
module FdRings {
  import opened Options
  import opened Bytes
  import opened Powers
  import opened RingBuffers

  ghost predicate Aligned(r: RingBuffer)
    reads r
  {
    r.head % 4 == 0 && r.tail % 4 == 0
  }

  ghost predicate FdsValid(r: RingBuffer)
    reads r, r.data
  {
    r.Valid() && Aligned(r)
  }

  ghost function Count(r: RingBuffer): (n: nat)
    requires FdsValid(r)
    reads r, r.data
    ensures 4 * n == r.Size()
  {
    MinusAlignment(r.head, r.tail);
    r.Size() / 4
  }

  /** The descriptors in the buffer, oldest first. */
  ghost function Fds(r: RingBuffer): seq<u32>
    requires FdsValid(r)
    reads r, r.data
  {
    Words(r.Contents(), Count(r))
  }

  lemma QuadStep(c: nat, t: nat, i: nat)
    requires c % 4 == 0 && t % 4 == 0 && t < c && 4 * i + 4 <= c
    ensures Around(c, t, 4 * i) + 4 <= c
    ensures i > 0 ==>
      Around(c, t, 4 * i) == if Around(c, t, 4 * i - 4) + 4 == c then 0 else Around(c, t, 4 * i - 4) + 4
  {
  }

  /** A word of the contents lies in one piece within the array. */
  lemma WordInRing(r: RingBuffer, i: nat)
    requires FdsValid(r) && i < Count(r)
    ensures r.data.Length % 4 == 0 && r.Mask(r.tail) % 4 == 0
    ensures var p := Around(r.data.Length, r.Mask(r.tail), 4 * i);
            p + 4 <= r.data.Length && r.data[p..p + 4] == r.Contents()[4 * i..4 * i + 4]
  {
    assert Pow2(0) == 1 && Pow2(1) == 2;
    MaskedAlignment(r.tail, r.sizeBits);
    QuadStep(r.data.Length, r.Mask(r.tail), i);
  }

  /** The pointer behind the `i`-th descriptor. */
  ghost function PointerBehind(r: RingBuffer, i: nat): nat
    requires r.Valid()
    reads r, r.data
  {
    if i == 0 then r.Mask(r.tail) else Around(r.data.Length, r.Mask(r.tail), 4 * i - 4) + 4
  }

  /** Reads the `i`-th descriptor; the pointer goes back to the start of the array
      when it has met its end. */
  method ReadNext(r: RingBuffer, ghost i: nat, p: nat) returns (fd: u32, next: nat)
    requires FdsValid(r) && i < Count(r) && p == PointerBehind(r, i)
    ensures fd == Fds(r)[i]
    ensures next == PointerBehind(r, i + 1)
  {
    WordInRing(r, i);
    QuadStep(r.data.Length, r.Mask(r.tail), i);
    next := if p >= r.data.Length then 0 else p;
    fd := BytesWord(r.data[next..next + 4]);
    next := next + 4;
  }

  lemma TakeOneMore(fds: seq<u32>, i: nat)
    requires i < |fds|
    ensures fds[..i + 1] == fds[..i] + [fds[i]]
  {
  }

  /** Walks over the first `count` descriptors. */
  method CloseFirst(r: RingBuffer, count: nat) returns (closed: seq<u32>)
    requires FdsValid(r) && count <= Count(r)
    ensures closed == Fds(r)[..count]
  {
    closed := [];
    var p := r.Mask(r.tail);
    ghost var fds := Fds(r);
    for i := 0 to count
      invariant closed == fds[..i]
      invariant p == PointerBehind(r, i)
    {
      var fd;
      fd, p := ReadNext(r, i, p);
      TakeOneMore(fds, i);
      closed := closed + [fd];
    }
  }

  /** Closes the first `max` descriptors, or all there are. */
  method CloseFds(r: RingBuffer, max: int) returns (closed: seq<u32>)
    requires FdsValid(r)
    modifies r`tail
    ensures FdsValid(r)
    ensures old(Fds(r)) == closed + Fds(r)
    ensures |closed| == if 0 < max < |old(Fds(r))| then max else |old(Fds(r))|
  {
    var size := r.Size();
    if size == 0 {
      return [];
    }
    var count := size / 4;
    if max > 0 && max < count {
      count := max;
    }
    closed := CloseFirst(r, count);
    Drop(r, count);
  }

  /** Removes the first `count` descriptors. */
  method Drop(r: RingBuffer, count: nat)
    requires FdsValid(r) && count <= Count(r)
    modifies r`tail
    ensures FdsValid(r) && Fds(r) == old(Fds(r))[count..]
  {
    ghost var n := Count(r);
    SplitWords(r.Contents(), n, count);
    PlusAlignment(r.tail, 4 * count);
    r.Consume(4 * count);
    assert Count(r) == n - count;
  }

  /** Appends one descriptor; the caller has made room. */
  method PutFd(r: RingBuffer, fd: u32)
    requires FdsValid(r) && r.Size() + 4 <= r.data.Length
    modifies r`head, r.data
    ensures FdsValid(r) && Fds(r) == old(Fds(r)) + [fd]
  {
    AppendWord(r.Contents(), Count(r), fd);
    PlusAlignment(r.head, 4);
    r.Put(WordBytes(fd));
  }

  /** Takes the oldest descriptor, or fails when there is none. */
  method TakeFd(r: RingBuffer) returns (ok: bool, fd: u32)
    requires FdsValid(r)
    modifies r`tail
    ensures FdsValid(r)
    ensures ok <==> old(Fds(r)) != []
    ensures if ok then old(Fds(r)) == [fd] + Fds(r) else Fds(r) == old(Fds(r))
  {
    if r.tail == r.head {
      return false, 0;
    }
    assert Count(r) > 0;
    var xs := r.Copy(4);
    fd := BytesWord(xs);
    assert fd == Fds(r)[0];
    Drop(r, 1);
    ok := true;
  }

  /** Makes room for `count` more bytes; what is stored stays. */
  method EnsureFdSpace(r: RingBuffer, count: nat, ok: bool) returns (res: int)
    requires FdsValid(r) && r.Size() + count <= SIZE_LIMIT
    modifies r`data, r`head, r`tail, r`sizeBits
    ensures FdsValid(r) && Fds(r) == old(Fds(r))
    ensures res == 0 || res == -1
    ensures res == -1 ==> r.sizeBits == old(r.sizeBits)
    ensures res == 0 ==> r.Size() + count <= r.data.Length
    ensures old(Grown(r.maxSizeBits, r.sizeBits, 4 * |Fds(r)| + count, ok))
      == if res == 0 then Some(r.sizeBits) else None
    ensures r.data == old(r.data) || fresh(r.data)
  {
    ghost var was, n := r.Contents(), Count(r);
    res := r.EnsureSpace(count, ok);
    assert r.Size() == |r.Contents()| == |was| == 4 * n;
  }

  /** Appends one descriptor if there is memory for it. */
  method StoreFd(r: RingBuffer, fd: u32, allocOk: bool) returns (ok: bool)
    requires FdsValid(r) && r.Size() + 4 <= SIZE_LIMIT
    modifies r`data, r`head, r`tail, r`sizeBits, r.data
    ensures FdsValid(r)
    ensures Fds(r) == if ok then old(Fds(r)) + [fd] else old(Fds(r))
    ensures old(Grown(r.maxSizeBits, r.sizeBits, 4 * |Fds(r)| + 4, allocOk)) == if ok then Some(r.sizeBits) else None
    ensures !ok ==> r.sizeBits == old(r.sizeBits)
    ensures r.Size() == 4 * |Fds(r)|
    ensures r.data == old(r.data) || fresh(r.data)
  {
    var res := EnsureFdSpace(r, 4, allocOk);
    ok := res >= 0;
    if ok {
      PutFd(r, fd);
    }
  }
}
