/** The bounded, compacting byte buffer `IOBuf`. */
module IOBufs {
  import opened Base

  const INITIAL_SIZE := 1024
  const MAX_SIZE := 4096

  /** Capacity, read index and readable length: all that decides how a buffer grows. */
  datatype Shape = Shape(cap: nat, read: nat, held: nat) {
    ghost predicate Valid() { read + held <= cap }
    function Writable(): int { cap - (read + held) }
  }

  function RoundUp(n: nat): nat {
    INITIAL_SIZE * (n / INITIAL_SIZE + if n % INITIAL_SIZE > 0 then 1 else 0)
  }

  /** `ensure_writable`: success, and the shape left behind. `new_size` is computed in 64-bit `size_t`. */
  function Ensure(s: Shape, n: nat): (bool, Shape) {
    if n > s.Writable() + s.read then
      var newSize := (n - s.Writable() - s.read + s.cap) % TWO_64;
      if newSize > MAX_SIZE then (false, s) else (true, Shape(RoundUp(newSize), 0, s.held))
    else if n > s.Writable() then (true, Shape(s.cap, 0, s.held))
    else (true, s)
  }

  /** The promise of `ensure_writable(n)`: it succeeds exactly when the bytes fit below the larger of the
      capacity and 4096, then there is room for `n`, a buffer that grew has the least sufficient multiple of
      1024, and one that failed is as it was. */
  ghost predicate GrowthLaw(s: Shape, n: nat) {
    var (ok, t) := Ensure(s, n);
    && (ok <==> n + s.held <= s.cap || n + s.held <= MAX_SIZE)
    && (ok ==> t.Valid() && n <= t.Writable() && t.held == s.held && t.cap >= s.cap)
    && (ok && t.cap != s.cap ==>
          t.cap % INITIAL_SIZE == 0
          && forall c: nat :: c % INITIAL_SIZE == 0 && n + s.held <= c ==> t.cap <= c)
    && (ok && n <= s.Writable() ==> t == s)
    && (!ok ==> t == s)
  }

  /** `n + held` leaves 64 bits and lands in the range that looks small. */
  predicate Wraps(s: Shape, n: nat) {
    TWO_64 <= n + s.held <= TWO_64 + MAX_SIZE
  }

  lemma RoundUpIsLeast(n: nat)
    ensures RoundUp(n) % INITIAL_SIZE == 0 && n <= RoundUp(n) < n + INITIAL_SIZE
    ensures forall c: nat :: c % INITIAL_SIZE == 0 && n <= c ==> RoundUp(n) <= c
  {
  }

  /** The law holds for every 64-bit request exactly when the sum does not wrap into the small range. */
  lemma EnsureObeysGrowthLaw(s: Shape, n: nat)
    requires s.Valid() && s.cap < TWO_64 && n < TWO_64
    ensures GrowthLaw(s, n) <==> !Wraps(s, n)
  {
    hide RoundUp;
    var total := n + s.held;
    assert total % TWO_64 == if total < TWO_64 then total else total - TWO_64;
    RoundUpIsLeast(total % TWO_64);
  }

  /** A request one byte short of 2^64 on a buffer holding two bytes is granted, and the buffer keeps 1024. */
  lemma WrappedRequestIsGranted()
    ensures Ensure(Shape(1024, 0, 2), TWO_64 - 1) == (true, Shape(1024, 0, 2))
    ensures !GrowthLaw(Shape(1024, 0, 2), TWO_64 - 1)
  {
  }

  /** `written` and `consumed` are the bytes that have entered and left: the buffer is a queue between them. */
  class IOBuf {
    var buff: array<Byte>
    var readIndex: nat
    var writeIndex: nat
    ghost var written: Bytes
    ghost var consumed: Bytes

    ghost predicate Valid()
      reads this, buff
    {
      && readIndex <= writeIndex <= buff.Length < TWO_64
      && written == consumed + Readable()
    }

    ghost function Readable(): Bytes
      requires readIndex <= writeIndex <= buff.Length
      reads this, buff
    {
      buff[readIndex..writeIndex]
    }

    ghost function View(): Shape
      requires readIndex <= writeIndex <= buff.Length
      reads this, buff
    {
      Shape(buff.Length, readIndex, writeIndex - readIndex)
    }

    constructor (init: nat)
      requires init < TWO_64
      ensures Valid() && fresh(buff) && View() == Shape(init, 0, 0) && written == consumed == []
    {
      buff := new Byte[init](_ => 0);
      readIndex, writeIndex, written, consumed := 0, 0, [], [];
    }

    method ReadableBytes() returns (n: nat)
      requires Valid()
      ensures n == |Readable()|
    {
      n := writeIndex - readIndex;
    }

    method WritableBytes() returns (n: nat)
      requires Valid()
      ensures n == View().Writable()
    {
      n := buff.Length - writeIndex;
    }

    method HasReaded(n: nat) returns (ret: int)
      requires Valid()
      modifies this
      ensures Valid() && buff == old(buff) && written == old(written)
      ensures ret == if n <= |old(Readable())| then 0 else -1
      ensures n <= |old(Readable())| ==>
        Readable() == old(Readable())[n..] && consumed == old(consumed + Readable()[..n])
      ensures n <= |old(Readable())| ==> readIndex == old(readIndex) + n && writeIndex == old(writeIndex)
      ensures n > |old(Readable())| ==>
        View() == old(View()) && Readable() == old(Readable()) && consumed == old(consumed)
    {
      if n > writeIndex - readIndex {
        return -1;
      }
      consumed := consumed + Readable()[..n];
      readIndex := readIndex + n;
      return 0;
    }

    method HasReadAll()
      requires Valid()
      modifies this
      ensures Valid() && buff == old(buff) && Readable() == [] && written == consumed == old(written)
    {
      consumed := written;
      readIndex := writeIndex;
    }

    method Read(data: array<Byte>, n: nat) returns (ret: int)
      requires Valid() && data != buff && n <= data.Length
      modifies this, data
      ensures Valid() && buff == old(buff) && written == old(written)
      ensures ret == if n == 0 then -1 else if n > |old(Readable())| then -2 else 0
      ensures ret == 0 ==> data[..] == Patched(old(data[..]), 0, old(Readable())[..n])
      ensures ret == 0 ==> Readable() == old(Readable())[n..] && consumed == old(consumed) + data[..n]
      ensures ret != 0 ==> data[..] == old(data[..]) && Readable() == old(Readable()) && consumed == old(consumed)
    {
      if n == 0 {
        return -1;
      }
      if n > writeIndex - readIndex {
        return -2;
      }
      ghost var front := Readable()[..n];
      assert buff[readIndex..readIndex + n] == front;
      CopyInto(data, 0, buff[readIndex..readIndex + n]);
      assert data[..n] == front;
      ret := HasReaded(n);
    }

    /** Bytes stored through `begin_write()` by whoever was handed the pointer; not yet part of the queue. */
    method Store(data: Bytes)
      requires Valid() && writeIndex + |data| <= buff.Length
      modifies buff
      ensures Valid() && Readable() == old(Readable())
      ensures buff[..] == Patched(old(buff[..]), writeIndex, data)
    {
      CopyInto(buff, writeIndex, data);
      assert Readable() == old(Readable());
    }

    /** Bytes of the queue overwritten through a pointer kept from an earlier `begin_write()`. */
    method Overwrite(at: nat, data: Bytes)
      requires Valid() && at + |data| <= |Readable()|
      modifies buff, this`written
      ensures Valid() && buff == old(buff) && View() == old(View())
      ensures Readable() == Patched(old(Readable()), at, data)
    {
      PatchedSlice(buff[..], readIndex, writeIndex, at, data);
      CopyInto(buff, readIndex + at, data);
      assert buff[readIndex..writeIndex] == buff[..][readIndex..writeIndex];
      written := consumed + Readable();
    }

    /** Store through `begin_write()` and make it readable: the pattern of every raw writer. */
    method Append(data: Bytes)
      requires Valid() && writeIndex + |data| <= buff.Length
      modifies this, buff
      ensures Valid() && buff == old(buff) && Readable() == old(Readable()) + data && written == old(written) + data
      ensures writeIndex == old(writeIndex) + |data| && readIndex == old(readIndex) && consumed == old(consumed)
    {
      Store(data);
      var _ := HasWritten(|data|);
    }

    method HasWritten(n: nat) returns (ret: int)
      requires Valid()
      modifies this
      ensures Valid() && buff == old(buff) && consumed == old(consumed) && readIndex == old(readIndex)
      ensures ret == if n <= old(View().Writable()) then 0 else -1
      ensures ret == 0 ==> writeIndex == old(writeIndex) + n
      ensures ret == 0 ==> Readable() == old(Readable()) + buff[old(writeIndex)..old(writeIndex) + n]
      ensures ret == 0 ==> written == old(written) + buff[old(writeIndex)..old(writeIndex) + n]
      ensures ret != 0 ==> writeIndex == old(writeIndex) && written == old(written)
    {
      if n > buff.Length - writeIndex {
        return -1;
      }
      written := written + buff[writeIndex..writeIndex + n];
      writeIndex := writeIndex + n;
      return 0;
    }

    method Write(data: Bytes) returns (ret: int)
      requires Valid() && |data| < TWO_64 && !Wraps(View(), |data|)
      modifies this, buff
      ensures Valid() && (buff == old(buff) || fresh(buff)) && consumed == old(consumed)
      ensures ret == if |data| == 0 then -1 else if !Ensure(old(View()), |data|).0 then -2 else 0
      ensures ret == 0 ==> Readable() == old(Readable()) + data && written == old(written) + data
      ensures ret != 0 ==> View() == old(View()) && Readable() == old(Readable()) && written == old(written)
    {
      if |data| == 0 {
        return -1;
      }
      var room := EnsureWritable(|data|);
      if !room {
        return -2;
      }
      EnsureObeysGrowthLaw(old(View()), |data|);
      Store(data);
      ret := HasWritten(|data|);
    }

    method EnsureWritable(n: nat) returns (ok: bool)
      requires Valid() && n < TWO_64 && !Wraps(View(), n)
      modifies this, buff
      ensures Valid() && (buff == old(buff) || fresh(buff))
      ensures ok == Ensure(old(View()), n).0 && View() == Ensure(old(View()), n).1
      ensures Readable() == old(Readable()) && written == old(written) && consumed == old(consumed)
    {
      var writable := buff.Length - writeIndex;
      if n > writable + readIndex {
        ok := MakeSpace(n);
        return;
      }
      if n > writable {
        MoveReadableData();
      }
      return true;
    }

    method MakeSpace(n: nat) returns (ok: bool)
      requires Valid() && n < TWO_64 && n > View().Writable() + readIndex && !Wraps(View(), n)
      modifies this, buff
      ensures Valid() && (buff == old(buff) || fresh(buff))
      ensures ok == Ensure(old(View()), n).0 && View() == Ensure(old(View()), n).1
      ensures Readable() == old(Readable()) && written == old(written) && consumed == old(consumed)
    {
      var newSize := (n - (buff.Length - writeIndex) - readIndex + buff.Length) % TWO_64;
      if newSize > MAX_SIZE {
        return false;
      }
      var multiple, remain := newSize / INITIAL_SIZE, newSize % INITIAL_SIZE;
      if remain > 0 {
        multiple := multiple + 1;
      }
      EnsureObeysGrowthLaw(View(), n);
      Resize(INITIAL_SIZE * multiple);
      MoveReadableData();
      return true;
    }

    /** `std::vector::resize` to a larger size: the old bytes are kept, the new ones are zero. */
    method Resize(size: nat)
      requires Valid() && buff.Length <= size < TWO_64
      modifies this`buff
      ensures Valid() && fresh(buff) && buff.Length == size
      ensures buff[..old(buff.Length)] == old(buff[..]) && Readable() == old(Readable())
    {
      var bigger := new Byte[size](_ => 0);
      CopyInto(bigger, 0, buff[..]);
      buff := bigger;
      assert Readable() == old(Readable());
    }

    /** The `memcpy` as an ascending byte loop: source and target may overlap, and every byte still arrives,
        because a source byte is overwritten only after it was copied. */
    method MoveReadableData()
      requires Valid()
      modifies this, buff
      ensures Valid() && buff == old(buff) && readIndex == 0 && writeIndex == |old(Readable())|
      ensures Readable() == old(Readable()) && written == old(written) && consumed == old(consumed)
    {
      if readIndex == 0 {
        return;
      }
      var count := writeIndex - readIndex;
      for i := 0 to count
        invariant forall k :: 0 <= k < i ==> buff[k] == old(buff[readIndex + k])
        invariant forall k :: i <= k < buff.Length ==> buff[k] == old(buff[k])
        modifies buff
      {
        buff[i] := buff[readIndex + i];
      }
      assert buff[0..count] == old(Readable());
      readIndex, writeIndex := 0, count;
    }
  }
}
