/** The ring buffers of a connection: a power-of-two array of bytes with counters
    that run freely, wrap at 2^64, and are masked when they index the array. */
module RingBuffers {
  import opened Options
  import opened Bytes
  import opened Powers

  const DEFAULT_SIZE_POT := 12

  // ---------- Rings as sequences ----------

  /** The `n` bytes from position `t` on, around the ring `d`. */
  ghost function Ring(d: seq<byte>, t: nat, n: nat): (s: seq<byte>)
    requires t < |d| && n <= |d|
    ensures |s| == n
    ensures forall i | 0 <= i < n :: s[i] == d[Around(|d|, t, i)]
  {
    if t + n <= |d| then d[t..t + n] else d[t..] + d[..t + n - |d|]
  }

  ghost function Write(d: seq<byte>, at: nat, xs: seq<byte>): (s: seq<byte>)
    requires at + |xs| <= |d|
    ensures |s| == |d|
    ensures forall i | 0 <= i < |d| :: s[i] == if at <= i < at + |xs| then xs[i - at] else d[i]
  {
    d[..at] + xs + d[at + |xs|..]
  }

  /** Writing `xs` from position `h` on, around the ring. */
  ghost function WriteAround(d: seq<byte>, h: nat, xs: seq<byte>): (s: seq<byte>)
    requires h < |d| && |xs| <= |d|
    ensures |s| == |d|
  {
    if h + |xs| <= |d| then Write(d, h, xs)
    else Write(Write(d, h, xs[..|d| - h]), 0, xs[|d| - h..])
  }

  /** The written places hold what was written; the others are as they were. */
  lemma WrittenAt(d: seq<byte>, h: nat, xs: seq<byte>, k: nat)
    requires h < |d| && |xs| <= |d| && k < |d|
    ensures WriteAround(d, h, xs)[Around(|d|, h, k)] == if k < |xs| then xs[k] else d[Around(|d|, h, k)]
  {
    var j, cut := Around(|d|, h, k), |d| - h;
    if |xs| <= cut {
      WriteAt(d, h, xs, j);
    } else {
      WriteAt(d, h, xs[..cut], j);
      WriteAt(Write(d, h, xs[..cut]), 0, xs[cut..], j);
    }
  }

  lemma WriteAt(d: seq<byte>, at: nat, xs: seq<byte>, j: nat)
    requires at + |xs| <= |d| && j < |d|
    ensures Write(d, at, xs)[j] == if at <= j < at + |xs| then xs[j - at] else d[j]
  {
  }

  /** Bytes written behind the stored ones are appended to them. */
  lemma WriteAppends(d: seq<byte>, t: nat, n: nat, xs: seq<byte>)
    requires t < |d| && n < |d| && n + |xs| <= |d|
    ensures Ring(WriteAround(d, Around(|d|, t, n), xs), t, n + |xs|) == Ring(d, t, n) + xs
  {
    var h := Around(|d|, t, n);
    var d' := WriteAround(d, h, xs);
    var all := Ring(d', t, n + |xs|);
    forall i | 0 <= i < n + |xs|
      ensures all[i] == (Ring(d, t, n) + xs)[i]
    {
      var k := if i < n then |d| - n + i else i - n;
      assert Around(|d|, t, i) == Around(|d|, h, k);
      WrittenAt(d, h, xs, k);
    }
  }

  /** Dropping the first `k` of `n` bytes leaves those behind them. */
  lemma RingDrop(d: seq<byte>, t: nat, n: nat, k: nat)
    requires t < |d| && k <= n <= |d|
    ensures Ring(d, t, n)[k..] == Ring(d, Behind(|d|, t, k), n - k)
  {
    var at := Behind(|d|, t, k);
    var rest := Ring(d, at, n - k);
    forall i | 0 <= i < n - k
      ensures Ring(d, t, n)[k..][i] == rest[i]
    {
      assert Around(|d|, t, k + i) == Around(|d|, at, i);
    }
  }

  datatype Iovec = Iovec(base: nat, len: nat)

  /** One or two segments, as many as a call to sendmsg or recvmsg is given. */
  datatype Iovecs = One(first: Iovec) | Two(first: Iovec, second: Iovec)
  {
    function Total(): nat {
      first.len + if Two? then second.len else 0
    }

    predicate Within(cap: nat) {
      first.base + first.len <= cap && (Two? ==> second.base + second.len <= cap)
    }
  }

  /** The segments from one masked counter to the other. */
  function Segments(cap: nat, from: nat, to: nat): Iovecs
    requires from < cap && to < cap
  {
    if from < to then One(Iovec(from, to - from))
    else if to == 0 then One(Iovec(from, cap - from))
    else Two(Iovec(from, cap - from), Iovec(0, to))
  }

  ghost function Slice(d: seq<byte>, v: Iovec): seq<byte>
    requires v.base + v.len <= |d|
  {
    d[v.base..v.base + v.len]
  }

  ghost function Gather(d: seq<byte>, iov: Iovecs): seq<byte>
    requires iov.Within(|d|)
  {
    if iov.One? then Slice(d, iov.first) else Slice(d, iov.first) + Slice(d, iov.second)
  }

  /** Bytes put into the segments one after the other. */
  ghost function Scatter(d: seq<byte>, iov: Iovecs, xs: seq<byte>): (s: seq<byte>)
    requires iov.Within(|d|) && |xs| <= iov.Total()
    ensures |s| == |d|
  {
    if |xs| <= iov.first.len then Write(d, iov.first.base, xs)
    else Write(Write(d, iov.first.base, xs[..iov.first.len]), iov.second.base, xs[iov.first.len..])
  }

  /** Where the counter `n` places behind `from` points, `n` being all of the ring at most. */
  ghost function Behind(cap: nat, from: nat, n: nat): nat {
    if n == cap then from else Around(cap, from, n)
  }

  lemma BehindTheRest(cap: nat, from: nat, n: nat)
    requires from < cap && n <= cap
    ensures Behind(cap, from, n) < cap
    ensures Behind(cap, Behind(cap, from, n), cap - n) == from
  {
  }

  /** The segments cover exactly the `n` places between the two counters, unless
      `n` is zero: then they cover the whole ring. */
  lemma SegmentsCover(d: seq<byte>, from: nat, n: nat)
    requires from < |d| && n <= |d|
    ensures var iov := Segments(|d|, from, Behind(|d|, from, n));
            var m := if n == 0 then |d| else n;
            iov.Total() == m && Gather(d, iov) == Ring(d, from, m)
  {
  }

  /** Filling the segments in order is writing around the ring. */
  lemma ScatterWrites(d: seq<byte>, from: nat, n: nat, xs: seq<byte>)
    requires from < |d| && 0 < n <= |d| && |xs| <= n
    ensures var iov := Segments(|d|, from, Behind(|d|, from, n));
            iov.Total() == n && Scatter(d, iov, xs) == WriteAround(d, from, xs)
  {
  }

  // ---------- Sizes ----------

  /** The least power of two from the default on that is at least `size`. */
  ghost predicate FitsTightly(bits: nat, size: nat) {
    && DEFAULT_SIZE_POT <= bits
    && size <= Pow2(bits)
    && (bits == DEFAULT_SIZE_POT || Pow2(bits - 1) < size)
  }

  lemma FitIsUnique(a: nat, b: nat, size: nat)
    requires FitsTightly(a, size) && FitsTightly(b, size)
    ensures a == b
  {
    if a < b - 1 { Pow2Monotone(a, b - 1); }
    if b < a - 1 { Pow2Monotone(b, a - 1); }
  }

  lemma BeyondHalf(size: nat, bits: nat)
    requires size < WRAP && DEFAULT_SIZE_POT <= bits <= 64 && (bits == 64 || size <= Pow2(bits))
    requires bits == DEFAULT_SIZE_POT || Pow2(bits - 1) < size
    ensures FitsTightly(bits, size) && (bits == 64 <==> size > SIZE_LIMIT)
  {
    Pow2Values();
    if bits < 63 {
      Pow2Monotone(bits, 63);
    }
  }

  /** Zero stands for an unlimited buffer. */
  method MaxSizeBitsForSize(bufferSize: nat) returns (maxSizeBits: nat)
    requires bufferSize < WRAP
    ensures if bufferSize == 0 then maxSizeBits == 0 else FitsTightly(maxSizeBits, bufferSize)
    ensures maxSizeBits <= 64 && (maxSizeBits == 64 <==> bufferSize > SIZE_LIMIT)
  {
    maxSizeBits := DEFAULT_SIZE_POT;
    if bufferSize == 0 {
      return 0;
    }
    while maxSizeBits < 64 && Pow2(maxSizeBits) < bufferSize
      invariant DEFAULT_SIZE_POT <= maxSizeBits <= 64
      invariant maxSizeBits == DEFAULT_SIZE_POT || Pow2(maxSizeBits - 1) < bufferSize
    {
      maxSizeBits := maxSizeBits + 1;
    }
    BeyondHalf(bufferSize, maxSizeBits);
  }

  /** The bits a buffer with the given limit uses to hold `netSize` bytes. */
  ghost predicate IsBitsFor(limit: nat, netSize: nat, bits: nat) {
    if limit > 0 && netSize > Pow2(limit) then bits == limit
    else FitsTightly(bits, netSize)
  }

  lemma {:induction false} FitExists(from: nat, size: nat) returns (bits: nat)
    requires from >= DEFAULT_SIZE_POT && (from == DEFAULT_SIZE_POT || Pow2(from - 1) < size)
    ensures FitsTightly(bits, size)
    decreases size - Pow2(from)
  {
    bits := from;
    if size > Pow2(from) {
      bits := FitExists(from + 1, size);
    }
  }

  ghost function Fitting(size: nat): (bits: nat)
    ensures FitsTightly(bits, size)
  {
    assert exists bits :: FitsTightly(bits, size) by {
      var bits := FitExists(DEFAULT_SIZE_POT, size);
    }
    var bits :| FitsTightly(bits, size);
    bits
  }

  /** The bits of a buffer once there is room for `netSize` bytes in all. There is none
      exactly if the limit forbids it, or if the array has to change and there is no memory. */
  ghost function Grown(limit: nat, bits: nat, netSize: nat, memory: bool): Option<nat> {
    if limit > 0 && netSize > Pow2(limit) then None
    else
      var fitting := Fitting(netSize);
      if fitting == bits || memory then Some(fitting) else None
  }

  class RingBuffer {
    var data: array<byte>
    var head: nat
    var tail: nat
    var sizeBits: nat
    var maxSizeBits: nat

    ghost predicate Valid()
      reads this, data
    {
      && sizeBits <= 63 && data.Length == Pow2(sizeBits)
      && head < WRAP && tail < WRAP && Size() <= data.Length
      && (maxSizeBits == 0 || DEFAULT_SIZE_POT <= maxSizeBits <= 63)
    }

    function Size(): nat
      requires head < WRAP && tail < WRAP
      reads this
    {
      Minus(head, tail)
    }

    ghost function Contents(): (s: seq<byte>)
      requires Valid()
      reads this, data
      ensures |s| == Size()
    {
      Ring(data[..], Low(tail, sizeBits), Size())
    }

    function Mask(i: nat): nat
      requires sizeBits <= 63
      reads this
      ensures Mask(i) < Pow2(sizeBits)
    {
      Low(i, sizeBits)
    }

    constructor ()
      ensures Valid() && Contents() == [] && maxSizeBits == 0 && sizeBits == 0
      ensures head == 0 && tail == 0 && fresh(data)
    {
      data := new byte[1];
      head, tail, sizeBits, maxSizeBits := 0, 0, 0, 0;
    }

    lemma HeadPosition()
      requires Valid()
      ensures Mask(head) == Behind(data.Length, Mask(tail), Size())
    {
      MaskedHead(sizeBits, head, tail, Size());
    }

    method Memcpy(at: nat, xs: seq<byte>)
      requires at + |xs| <= data.Length
      modifies data
      ensures data[..] == Write(old(data[..]), at, xs)
    {
      forall i | 0 <= i < |xs| {
        data[at + i] := xs[i];
      }
    }

    /** Copies `xs` to position `h` on, in two pieces where the array ends. */
    method CopyIn(h: nat, xs: seq<byte>)
      requires h < data.Length && |xs| <= data.Length
      modifies data
      ensures data[..] == WriteAround(old(data[..]), h, xs)
    {
      if h + |xs| <= data.Length {
        Memcpy(h, xs);
      } else {
        var size := data.Length - h;
        Memcpy(h, xs[..size]);
        Memcpy(0, xs[size..]);
      }
    }

    /** Bytes written behind the stored ones become part of the contents. */
    method AdvanceHead(count: nat, ghost d: seq<byte>, ghost xs: seq<byte>)
      requires count == |xs|
      requires sizeBits <= 63 && data.Length == Pow2(sizeBits) == |d| && head < WRAP && tail < WRAP
      requires maxSizeBits == 0 || DEFAULT_SIZE_POT <= maxSizeBits <= 63
      requires Size() < |d| && Size() + |xs| <= |d|
      requires data[..] == WriteAround(d, Around(|d|, Mask(tail), Size()), xs)
      modifies this`head
      ensures head == Plus(old(head), count)
      ensures Valid() && Size() == old(Size()) + |xs|
      ensures Contents() == Ring(d, old(Mask(tail)), old(Size())) + xs
    {
      WriteAppends(d, Mask(tail), Size(), xs);
      RingBound(sizeBits);
      head := Plus(head, count);
    }

    method Put(xs: seq<byte>)
      requires Valid() && Size() + |xs| <= data.Length
      modifies this`head, data
      ensures Valid() && Contents() == old(Contents()) + xs
      ensures Size() == old(Size()) + |xs|
      ensures head == Plus(old(head), |xs|)
    {
      if xs == [] {
        return;
      }
      ghost var d := data[..];
      HeadPosition();
      CopyIn(Mask(head), xs);
      AdvanceHead(|xs|, d, xs);
    }

    /** The first `count` bytes, without removing them. */
    method Copy(count: nat) returns (xs: seq<byte>)
      requires Valid() && count <= Size()
      ensures xs == Contents()[..count]
    {
      if count == 0 {
        return [];
      }
      var t := Mask(tail);
      if t + count <= data.Length {
        xs := data[t..t + count];
      } else {
        var size := data.Length - t;
        xs := data[t..t + size] + data[..count - size];
      }
    }

    method Consume(count: nat)
      requires Valid() && count <= Size()
      modifies this`tail
      ensures Valid() && Contents() == old(Contents())[count..]
      ensures Size() == old(Size()) - count
      ensures tail == Plus(old(tail), count)
    {
      RingDrop(data[..], Mask(tail), Size(), count);
      RingBound(sizeBits);
      MaskedHead(sizeBits, Plus(tail, count), tail, count);
      tail := Plus(tail, count);
    }

    /** The segments to write to: all free bytes, in order, if there is one. */
    method PutIov() returns (iov: Iovecs)
      requires Valid()
      ensures iov.Within(data.Length)
      ensures iov.Total() == data.Length - Size() <==> Size() < data.Length
      ensures Size() < data.Length ==> forall xs: seq<byte> | |xs| <= iov.Total() ::
        Scatter(data[..], iov, xs) == WriteAround(data[..], Mask(head), xs)
    {
      HeadPosition();
      ghost var free := data.Length - Size();
      BehindTheRest(data.Length, Mask(tail), Size());
      assert Mask(tail) == Behind(data.Length, Mask(head), free);
      SegmentsCover(data[..], Mask(head), free);
      iov := Segments(data.Length, Mask(head), Mask(tail));
      assert iov.Total() == if free == 0 then data.Length else free;
      if free > 0 {
        forall xs: seq<byte> | |xs| <= free
          ensures Scatter(data[..], iov, xs) == WriteAround(data[..], Mask(head), xs)
        {
          ScatterWrites(data[..], Mask(head), free, xs);
        }
      }
    }

    /** The segments to read from: exactly the stored bytes, in order, if there are any. */
    method GetIov() returns (iov: Iovecs)
      requires Valid()
      ensures iov.Within(data.Length)
      ensures Gather(data[..], iov) == Contents() <==> Size() > 0
    {
      HeadPosition();
      SegmentsCover(data[..], Mask(tail), Size());
      iov := Segments(data.Length, Mask(tail), Mask(head));
    }

    /** What recvmsg does: bytes arrive in the free segments, and count as stored. */
    method Receive(xs: seq<byte>)
      requires Valid() && Size() < data.Length && |xs| <= data.Length - Size()
      modifies this`head, data
      ensures Valid() && Contents() == old(Contents()) + xs
      ensures Size() == old(Size()) + |xs|
    {
      ghost var d := data[..];
      HeadPosition();
      var iov := PutIov();
      if |xs| <= iov.first.len {
        Memcpy(iov.first.base, xs);
      } else {
        Memcpy(iov.first.base, xs[..iov.first.len]);
        Memcpy(iov.second.base, xs[iov.first.len..]);
      }
      assert data[..] == Scatter(d, iov, xs);
      AdvanceHead(|xs|, d, xs);
    }

    // ---------- Resizing ----------

    /** The contents move to the front of a new array. */
    method Allocate(newBits: nat, ok: bool) returns (r: int)
      requires Valid() && newBits <= 63 && Size() <= Pow2(newBits)
      modifies this`data, this`head, this`tail, this`sizeBits
      ensures Valid() && Contents() == old(Contents())
      ensures r == if ok then 0 else -1
      ensures r == -1 ==> unchanged(this)
      ensures r == 0 ==> sizeBits == newBits && head == Size() && tail == 0 && fresh(data)
    {
      if !ok {
        return -1;
      }
      ghost var was := Contents();
      var size := Size();
      var newData := new byte[Pow2(newBits)](i => 0);
      var xs := Copy(size);
      forall i | 0 <= i < size {
        newData[i] := xs[i];
      }
      RingBound(newBits);
      LowOfZero(newBits);
      data, sizeBits := newData, newBits;
      head, tail := size, 0;
      assert Contents() == was;
      return 0;
    }

    method BitsForSize(netSize: nat) returns (bits: nat)
      requires Valid() && netSize < WRAP
      ensures IsBitsFor(maxSizeBits, netSize, bits) && bits <= 64
      ensures netSize <= SIZE_LIMIT ==> bits <= 63
    {
      bits := MaxSizeBitsForSize(netSize);
      if bits < DEFAULT_SIZE_POT {
        bits := DEFAULT_SIZE_POT;
      }
      if maxSizeBits > 0 {
        LimitTest(maxSizeBits, netSize, bits);
      }
      if maxSizeBits > 0 && bits > maxSizeBits {
        bits := maxSizeBits;
      }
    }

    /** Makes room for `count` more bytes, growing or shrinking; or else leaves
        everything as it is: exactly if the limit forbids it or memory is short. */
    method EnsureSpace(count: nat, ok: bool) returns (r: int)
      requires Valid() && Size() + count <= SIZE_LIMIT
      modifies this`data, this`head, this`tail, this`sizeBits
      ensures Valid() && Contents() == old(Contents())
      ensures r == 0 || r == -1
      ensures r == 0 ==> Size() + count <= data.Length
      ensures r == -1 ==> unchanged(this)
      ensures old(Grown(maxSizeBits, sizeBits, Size() + count, ok)) == if r == 0 then Some(sizeBits) else None
      ensures unchanged(this) || (head == Size() && tail == 0 && fresh(data))
    {
      var netSize := Size() + count;
      var bits := BitsForSize(netSize);
      GrownTo(maxSizeBits, sizeBits, netSize, ok, bits);
      if netSize > Pow2(bits) {
        return -1;
      }
      if bits == sizeBits {
        return 0;
      }
      r := Allocate(bits, ok);
    }

    /** The reader stops before the buffer is full. An unlimited buffer stops it only
        when one byte more makes the stored size a power of two. */
    method IsMaxSizeReached() returns (reached: bool)
      requires Valid() && Size() < SIZE_LIMIT
      ensures reached <==> LimitReached(maxSizeBits, Size() + 1)
    {
      var netSize := Size() + 1;
      var bits := BitsForSize(netSize);
      ReachedIff(maxSizeBits, netSize, bits);
      return netSize >= Pow2(bits);
    }
  }

  /** Fitting bits exceed the limit just when the size exceeds the limit's power. */
  lemma LimitTest(limit: nat, netSize: nat, bits: nat)
    requires limit >= DEFAULT_SIZE_POT && FitsTightly(bits, netSize)
    ensures bits > limit <==> netSize > Pow2(limit)
  {
    if limit < bits - 1 { Pow2Monotone(limit, bits - 1); }
    if bits < limit { Pow2Monotone(bits, limit); }
  }

  lemma GrownTo(limit: nat, bits: nat, netSize: nat, memory: bool, fitting: nat)
    requires IsBitsFor(limit, netSize, fitting)
    ensures netSize > Pow2(fitting) <==> limit > 0 && netSize > Pow2(limit)
    ensures Grown(limit, bits, netSize, memory)
      == if netSize > Pow2(fitting) || !(fitting == bits || memory) then None else Some(fitting)
  {
    if limit == 0 || netSize <= Pow2(limit) {
      FitIsUnique(fitting, Fitting(netSize), netSize);
    }
  }

  /** This size exceeds the limit, or is a power of two. */
  ghost predicate LimitReached(limit: nat, netSize: nat) {
    (limit > 0 && netSize > Pow2(limit)) || exists k | DEFAULT_SIZE_POT <= k <= 63 :: netSize == Pow2(k)
  }

  lemma ReachedIff(limit: nat, netSize: nat, bits: nat)
    requires IsBitsFor(limit, netSize, bits) && bits <= 63
    ensures netSize >= Pow2(bits) <==> LimitReached(limit, netSize)
  {
    if limit == 0 || netSize <= Pow2(limit) {
      TightPower(netSize, bits);
      if netSize >= Pow2(bits) {
        assert netSize == Pow2(bits);
      }
    }
  }

  lemma TightPower(netSize: nat, bits: nat)
    requires FitsTightly(bits, netSize)
    ensures forall k | k >= DEFAULT_SIZE_POT && netSize == Pow2(k) :: k == bits
  {
    forall k | k >= DEFAULT_SIZE_POT && netSize == Pow2(k)
      ensures k == bits
    {
      Pow2Monotone(k - 1, k);
      FitIsUnique(k, bits, netSize);
    }
  }
}
