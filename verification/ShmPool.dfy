/** Shared memory: buffers lie inside the mapped part of their pool, and the mapping
    neither moves nor goes away while someone may use it. */
module ShmPools {
  import opened Options

  const INT32_MAX := 0x7fff_ffff

  newtype int32 = x: int | -0x8000_0000 <= x < 0x8000_0000
  newtype ssize = x: int | -0x8000_0000_0000_0000 <= x < 0x8000_0000_0000_0000

  datatype Error = InvalidFormat | InvalidStride | InvalidFd | NoMemory

  /** What the client asks for, in the integers of the request. */
  datatype Layout = Layout(offset: int32, width: int32, height: int32, stride: int32)

  /** The check of a request, as it is computed. */
  predicate Refused(l: Layout, size: ssize)
    requires 0 <= size
  {
    l.offset < 0 || l.width <= 0 || l.height <= 0 || l.stride < l.width
    || 0x7fff_ffff / l.stride < l.height
    || (DivisionBounds(l.stride as int, l.height as int);
        l.offset as ssize > size - (l.stride * l.height) as ssize)
  }

  /** All of its rows are in the first `size` bytes. */
  ghost predicate Fits(l: Layout, size: int) {
    && 0 <= l.offset && 0 < l.width <= l.stride && 0 < l.height
    && l.offset as int + l.stride as int * l.height as int <= size
  }

  lemma DivisionBounds(stride: int, height: int)
    requires stride > 0 && height > 0
    ensures INT32_MAX / stride < height <==> stride * height > INT32_MAX
    ensures stride * height > 0
  {
    var q := INT32_MAX / stride;
    assert q * stride <= INT32_MAX < (q + 1) * stride;
    if q < height {
      assert (q + 1) * stride <= height * stride;
    } else {
      assert height * stride <= q * stride;
    }
  }

  /** The check refuses exactly the buffers that do not fit, and no product or difference
      in it leaves its type. */
  lemma RefusedIffNotFitting(l: Layout, size: ssize)
    requires 0 <= size as int <= INT32_MAX
    ensures Refused(l, size) <==> !Fits(l, size as int)
  {
    if 0 < l.stride && 0 < l.height {
      DivisionBounds(l.stride as int, l.height as int);
    }
  }

  class Buffer {
    const layout: Layout
    const pool: Pool
    var internal: int
    var external: int

    constructor (layout: Layout, pool: Pool)
      ensures this.layout == layout && this.pool == pool && internal == 1 && external == 0
    {
      this.layout, this.pool, internal, external := layout, pool, 1, 0;
    }

    /** The wl_buffer resource holds the one internal reference; the rest belong to the
        compositor. */
    predicate Live()
      reads this
    {
      0 <= internal <= 1 && 0 <= external && internal + external > 0
    }
  }

  class Pool {
    var hasResource: bool
    var internal: int
    var external: int
    var data: nat
    var size: ssize
    var newSize: ssize
    ghost var buffers: set<Buffer>
    ghost var released: bool

    /** Every live buffer lies in what is mapped; the pool counts its resource and its
        live buffers, and is there while it counts anything. */
    ghost predicate Valid()
      reads this, buffers
    {
      && 0 < size <= newSize && newSize as int <= INT32_MAX
      && internal == (if hasResource then 1 else 0) + |buffers| && external >= 0
      && (released <==> internal + external == 0)
      && forall b <- buffers :: b.Live() && b.pool == this && Fits(b.layout, size as int)
    }

    /** While the compositor holds the pool, the mapping stays where and what it is. */
    twostate predicate Stays()
      reads this
    {
      old(external) > 0 && external > 0 ==> data == old(data) && size == old(size)
    }

    constructor (size: int32, data: nat)
      requires 0 < size
      ensures Valid() && hasResource && external == 0 && buffers == {} && !released
      ensures this.size as int == size as int && newSize == this.size && this.data == data
    {
      hasResource, internal, external, released, buffers := true, 1, 0, false, {};
      this.size, newSize, this.data := size as ssize, size as ssize, data;
    }

    /** A pending size is taken on, if the kernel lets the mapping grow. */
    method FinishResize(mremap: Option<nat>)
      requires Valid()
      modifies this`data, this`size
      ensures Valid()
      ensures mremap.Some? || size == newSize ==> size == newSize
      ensures mremap == None ==> size == old(size) && data == old(data)
      ensures old(size) == newSize ==> data == old(data)
    {
      if size == newSize {
        return;
      }
      match mremap
      case None => return;
      case Some(address) =>
        data := address;
        size := newSize;
    }

    /** Drops an external reference that the compositor holds. */
    method UnrefExternal(mremap: Option<nat>)
      requires Valid() && external > 0
      modifies this`external, this`data, this`size, this`released
      ensures Valid() && external == old(external) - 1 && Stays()
      ensures external == 0 && mremap.Some? ==> size == newSize
      ensures released <==> internal == 0 && external == 0
    {
      external := external - 1;
      released := internal + external == 0;
      if external == 0 {
        FinishResize(mremap);
      }
    }

    /** The pool resource goes away. Buffers keep the pool. */
    method DestroyResource()
      requires Valid() && hasResource
      modifies this`hasResource, this`internal, this`released
      ensures Valid() && !hasResource && Stays()
      ensures released <==> buffers == {} && external == 0
    {
      hasResource := false;
      internal := internal - 1;
      released := internal + external == 0;
    }

    /** The size never falls below what is mapped; while the compositor holds the pool
        it only grows on paper. */
    method Resize(newSize: int32, mremap: Option<nat>) returns (error: Option<Error>)
      requires Valid() && hasResource
      modifies this`newSize, this`data, this`size
      ensures Valid() && Stays()
      ensures error == (if newSize as int < old(size) as int then Some(InvalidFd) else None)
      ensures error.Some? ==> this.newSize == old(this.newSize) && size == old(size) && data == old(data)
      ensures error == None ==> this.newSize as int == newSize as int
      ensures error == None && external == 0 && mremap.Some? ==> size == this.newSize
    {
      if (newSize as ssize) < size {
        return Some(InvalidFd);
      }
      this.newSize := newSize as ssize;
      if external == 0 {
        FinishResize(mremap);
      }
      error := None;
    }

    /** A request for a buffer: it is made exactly if the format is known, it fits, and
        there is memory. */
    method CreateBuffer(l: Layout, knownFormat: bool, memory: bool, resource: bool)
      returns (b: Buffer?, error: Option<Error>)
      requires Valid() && hasResource
      modifies this`internal, this`buffers
      ensures Valid() && Stays()
      ensures b != null <==> knownFormat && Fits(l, size as int) && memory && resource
      ensures b != null ==> fresh(b) && b.layout == l && b.external == 0
                            && buffers == old(buffers) + {b} && error == None
      ensures b == null ==> buffers == old(buffers) && internal == old(internal)
      ensures b == null ==> error == Some(if !knownFormat then InvalidFormat
                                          else if !Fits(l, size as int) then InvalidStride else NoMemory)
    {
      RefusedIffNotFitting(l, size);
      b, error := null, None;
      if !knownFormat {
        error := Some(InvalidFormat);
      } else if Refused(l, size) {
        error := Some(InvalidStride);
      } else if !memory {
        error := Some(NoMemory);
      } else {
        internal := internal + 1;
        if !resource {
          error := Some(NoMemory);
          internal := internal - 1;
        } else {
          b := new Buffer(l, this);
          buffers := buffers + {b};
        }
      }
    }

    method RefPool(b: Buffer)
      requires Valid() && b in buffers
      modifies this`external
      ensures Valid() && external == old(external) + 1 && !released && Stays()
    {
      BufferKeepsPool(b);
      external := external + 1;
    }

    lemma BufferKeepsPool(b: Buffer)
      requires Valid() && b in buffers
      ensures internal > 0 && !released
    {
      assert {b} <= buffers;
      SubsetSize({b}, buffers);
    }

    method RefBuffer(b: Buffer)
      requires Valid() && b in buffers
      modifies b`external
      ensures Valid() && b.external == old(b.external) + 1
    {
      b.external := b.external + 1;
    }

    /** The last reference of a buffer gives its reference to the pool back. */
    method ForgetBuffer(b: Buffer)
      requires b in buffers && b.internal + b.external == 0
      requires 0 < size <= newSize && newSize as int <= INT32_MAX && external >= 0
      requires internal == (if hasResource then 1 else 0) + |buffers|
      requires forall x <- buffers | x != b :: x.Live() && x.pool == this && Fits(x.layout, size as int)
      modifies this`internal, this`buffers, this`released
      ensures Valid() && buffers == old(buffers) - {b}
    {
      buffers := buffers - {b};
      internal := internal - 1;
      released := internal + external == 0;
    }

    method UnrefBuffer(b: Buffer, ext: bool)
      requires Valid() && b in buffers && (if ext then b.external > 0 else b.internal > 0)
      modifies b`internal, b`external, this`internal, this`buffers, this`released
      ensures Valid() && Stays()
      ensures b.internal == old(b.internal) - (if ext then 0 else 1)
      ensures b.external == old(b.external) - (if ext then 1 else 0)
      ensures buffers == if b.internal + b.external > 0 then old(buffers) else old(buffers) - {b}
      ensures released <==> !hasResource && buffers == {} && external == 0
    {
      if ext {
        b.external := b.external - 1;
      } else {
        b.internal := b.internal - 1;
      }
      if b.internal + b.external > 0 {
        BufferKeepsPool(b);
        return;
      }
      ForgetBuffer(b);
    }

    /** The bytes of a live buffer are mapped, from here to here. */
    method GetData(b: Buffer) returns (address: int)
      requires Valid() && b in buffers
      ensures data <= address == data + b.layout.offset as int
      ensures address + b.layout.stride as int * b.layout.height as int <= data + size as int
    {
      address := data + b.layout.offset as int;
    }
  }

  lemma SubsetSize<T>(a: set<T>, b: set<T>)
    requires a <= b
    ensures |a| <= |b|
  {
    if a != b {
      assert b == a + (b - a);
    }
  }

  /** A request for a new pool, which the kernel maps unless its size is refused, and
      whose mapping does not outlive a failure. */
  method CreatePool(size: int32, memory: bool, mapping: Option<nat>, resource: bool)
    returns (pool: Pool?, error: Option<Error>, unmapped: bool)
    ensures pool != null <==> size > 0 && memory && mapping.Some? && resource
    ensures pool != null ==> fresh(pool) && pool.Valid() && pool.hasResource && pool.external == 0
                             && pool.size as int == size as int && pool.data == mapping.value && pool.buffers == {}
    ensures error == if size <= 0 then Some(InvalidStride) else if !memory then Some(NoMemory)
                     else if mapping == None then Some(InvalidFd) else if !resource then Some(NoMemory) else None
    ensures unmapped <==> size > 0 && memory && mapping.Some? && !resource
  {
    pool, error, unmapped := null, None, false;
    if size <= 0 {
      error := Some(InvalidStride);
    } else if !memory {
      error := Some(NoMemory);
    } else {
      match mapping
      case None => error := Some(InvalidFd);
      case Some(data) =>
        if resource {
          pool := new Pool(size, data);
        } else {
          error, unmapped := Some(NoMemory), true;
        }
    }
  }
}
