/**
 * `SslSupport` reduced to its buffer sizing: enlarging a buffer to a TLS session's
 * size hint, recovering from a buffer underflow, the configured default sizes, and
 * what `wrap`/`unwrap` do without an engine.
 */
module Tls {
  import opened Wrappers
  import opened Text
  import opened Buffers

  /** A Java `int`. */
  newtype Int32 = x: int | -0x8000_0000 <= x <= 0x7FFF_FFFF

  /** Java `int` arithmetic: the low 32 bits of `x`, read as two's complement. */
  function WrapInt(x: int): (r: Int32)
    ensures MinInt <= x <= MaxInt ==> r as int == x
    ensures (r as int - x) % 0x1_0000_0000 == 0
  {
    ((x - MinInt) % 0x1_0000_0000 + MinInt) as Int32
  }

  /**
   * An `SSLEngine`, seen only through its session's size hints: the largest TLS
   * record and the largest plaintext a record can carry.
   */
  datatype SslEngine = SslEngine(packetBufferSize: Int32, applicationBufferSize: Int32)

  /** Both static sizes start out as 16 KiB. */
  const DefaultBufferSize: Int32 := 16 * 1024

  /** A buffer just returned by `ByteBuffer.allocate(n)`. */
  ghost predicate Allocated(b: ByteBuf, n: nat)
    reads b, b.data
  {
    && b.Valid() && b.Capacity() == n
    && b.position == 0 && b.limit == n && b.mark == -1
    && b.data[..] == seq(n, _ => 0)
  }

  // ---------------------------------------------------------------------------
  // enlargeBuffer

  /**
   * The capacity `enlargeBuffer` asks `ByteBuffer.allocate` for: the proposed one
   * when it exceeds the old capacity, and otherwise twice the old capacity, in
   * `int` arithmetic. For a capacity that is not negative, it is negative, so that
   * `allocate` throws, exactly when doubling overflows; otherwise it is at least the
   * proposed capacity and the old one, and larger than a non-zero old one.
   */
  function EnlargedCapacity(capacity: Int32, proposed: Int32): (r: Int32)
    ensures capacity >= 0 ==> (r < 0 <==> proposed <= capacity && capacity as int > MaxInt / 2)
    ensures capacity >= 0 && r >= 0 ==>
      && r >= proposed && r >= capacity
      && (capacity > 0 ==> r > capacity)
  {
    if proposed > capacity then proposed else WrapInt(capacity as int * 2)
  }

  /**
   * `enlargeBuffer(buffer, proposed)`: a new, empty buffer of the enlarged
   * capacity; none of the old bytes are copied. `allocate` throws
   * `IllegalArgumentException` when that capacity is negative.
   */
  method EnlargeBuffer(buffer: ByteBuf, proposed: Int32) returns (r: Result<ByteBuf>)
    requires buffer.Capacity() <= MaxInt
    ensures r.Err? <==> EnlargedCapacity(buffer.Capacity() as Int32, proposed) < 0
    ensures r.Err? ==> r.error == IllegalArgument
    ensures r.Ok? ==>
      && fresh(r.value) && fresh(r.value.data)
      && Allocated(r.value, EnlargedCapacity(buffer.Capacity() as Int32, proposed) as nat)
      && r.value.Capacity() >= proposed as int && r.value.Capacity() >= buffer.Capacity()
      && (buffer.Capacity() > 0 ==> r.value.Capacity() > buffer.Capacity())
  {
    var capacity := buffer.Capacity() as Int32;
    var size;
    if proposed > capacity {
      size := proposed;
    } else {
      size := WrapInt(capacity as int * 2);
    }
    if size < 0 {
      return Err(IllegalArgument);
    }
    var enlarged := new ByteBuf.Allocate(size as nat);
    return Ok(enlarged);
  }

  /** `enlargePacketBuffer`: `enlargeBuffer` to the session's packet size. */
  method EnlargePacketBuffer(engine: SslEngine, buffer: ByteBuf) returns (r: Result<ByteBuf>)
    requires buffer.Capacity() <= MaxInt
    ensures r.Err? <==> EnlargedCapacity(buffer.Capacity() as Int32, engine.packetBufferSize) < 0
    ensures r.Err? ==> r.error == IllegalArgument
    ensures r.Ok? ==>
      && fresh(r.value) && fresh(r.value.data)
      && Allocated(r.value, EnlargedCapacity(buffer.Capacity() as Int32, engine.packetBufferSize) as nat)
      && r.value.Capacity() >= engine.packetBufferSize as int && r.value.Capacity() >= buffer.Capacity()
  {
    r := EnlargeBuffer(buffer, engine.packetBufferSize);
  }

  /** `enlargeApplicationBuffer`: `enlargeBuffer` to the session's application size. */
  method EnlargeApplicationBuffer(engine: SslEngine, buffer: ByteBuf) returns (r: Result<ByteBuf>)
    requires buffer.Capacity() <= MaxInt
    ensures r.Err? <==> EnlargedCapacity(buffer.Capacity() as Int32, engine.applicationBufferSize) < 0
    ensures r.Err? ==> r.error == IllegalArgument
    ensures r.Ok? ==>
      && fresh(r.value) && fresh(r.value.data)
      && Allocated(r.value, EnlargedCapacity(buffer.Capacity() as Int32, engine.applicationBufferSize) as nat)
      && r.value.Capacity() >= engine.applicationBufferSize as int && r.value.Capacity() >= buffer.Capacity()
  {
    r := EnlargeBuffer(buffer, engine.applicationBufferSize);
  }

  // ---------------------------------------------------------------------------
  // handleBufferUnderflow

  /**
   * `handleBufferUnderflow`: when the session's packet size is below the buffer's
   * limit, the buffer itself, untouched. Otherwise an enlarged buffer into which
   * the bytes before the old position were copied, its position just after them;
   * the old buffer is flipped and drained. Enlarging can throw before the old
   * buffer is touched; copying never overflows.
   */
  method HandleBufferUnderflow(engine: SslEngine, buffer: ByteBuf) returns (r: Result<ByteBuf>)
    requires buffer.Valid() && buffer.Capacity() <= MaxInt
    modifies buffer`position, buffer`limit, buffer`mark
    ensures buffer.Valid()
    ensures (engine.packetBufferSize as int) < old(buffer.limit) ==>
      && r == Ok(buffer)
      && buffer.position == old(buffer.position) && buffer.limit == old(buffer.limit)
      && buffer.mark == old(buffer.mark)
    ensures (engine.packetBufferSize as int) >= old(buffer.limit) &&
            EnlargedCapacity(buffer.Capacity() as Int32, engine.packetBufferSize) < 0 ==>
      && r == Err(IllegalArgument)
      && buffer.position == old(buffer.position) && buffer.limit == old(buffer.limit)
      && buffer.mark == old(buffer.mark)
    ensures (engine.packetBufferSize as int) >= old(buffer.limit) &&
            EnlargedCapacity(buffer.Capacity() as Int32, engine.packetBufferSize) >= 0 ==>
      && r.Ok? && r.value != buffer && fresh(r.value) && fresh(r.value.data) && r.value.Valid()
      && r.value.Capacity() == EnlargedCapacity(buffer.Capacity() as Int32, engine.packetBufferSize) as int
      && r.value.limit == r.value.Capacity() && r.value.mark == -1
      && r.value.position == old(buffer.position)
      && r.value.data[..r.value.position] == old(buffer.data[..buffer.position])
      && r.value.data[r.value.position..] == seq(r.value.Capacity() - r.value.position, _ => 0)
      && buffer.position == buffer.limit == old(buffer.position) && buffer.mark == -1
  {
    if (engine.packetBufferSize as int) < buffer.limit {
      return Ok(buffer);
    }
    var replace := EnlargePacketBuffer(engine, buffer);
    if replace.Err? {
      return Err(replace.error);
    }
    var enlarged := replace.value;
    buffer.Flip();
    enlarged.Put(buffer);
    return Ok(enlarged);
  }

  // ---------------------------------------------------------------------------
  // The configured sizes

  /** The static `packetBufferSize` and `applicationBufferSize` of `SslSupport`. */
  class BufferSizes {
    var packetBufferSize: Int32
    var applicationBufferSize: Int32

    /** Both sizes start at the default. */
    constructor ()
      ensures packetBufferSize == DefaultBufferSize && applicationBufferSize == DefaultBufferSize
    {
      packetBufferSize, applicationBufferSize := DefaultBufferSize, DefaultBufferSize;
    }

    /** `getPacketBufferSize`. */
    function GetPacketBufferSize(): (r: Int32)
      reads this`packetBufferSize
      ensures r == packetBufferSize
    {
      packetBufferSize
    }

    /** `getApplicationBufferSize`. */
    function GetApplicationBufferSize(): (r: Int32)
      reads this`applicationBufferSize
      ensures r == applicationBufferSize
    {
      applicationBufferSize
    }

    /** `setPacketBufferSize`: the getter returns `size` from now on; the other size is kept. */
    method SetPacketBufferSize(size: Int32)
      modifies this`packetBufferSize
      ensures GetPacketBufferSize() == size
    {
      packetBufferSize := size;
    }

    /** `setApplicationBufferSize`: the getter returns `size` from now on; the other size is kept. */
    method SetApplicationBufferSize(size: Int32)
      modifies this`applicationBufferSize
      ensures GetApplicationBufferSize() == size
    {
      applicationBufferSize := size;
    }
  }

  // ---------------------------------------------------------------------------
  // wrap and unwrap without an engine

  /** What `wrap`/`unwrap` return: their input, or what the engine made of it. */
  datatype Passed<T> = Unchanged(value: T) | ByEngine

  /**
   * `unwrap(engine, channel, buffer)` and `wrap(engine, channel, buffers)`: without
   * an engine, each returns its input itself.
   */
  function PassThrough<T>(engine: Option<SslEngine>, x: T): (r: Passed<T>)
    ensures r == Unchanged(x) <==> engine.None?
  {
    if engine.None? then Unchanged(x) else ByEngine
  }
}
