/** `Buffer`: a growable byte array with room to prepend, which behaves as a byte sequence. */
module ByteBuffer {
  import opened Ascii

  // ---------------------------------------------------------------- integers in network order

  function Pow256(k: nat): nat { if k == 0 then 1 else 256 * Pow256(k - 1) }

  /** The `k` bytes of an integer in the memory of a little-endian host. */
  function ToMemory(n: nat, k: nat): (r: Bytes)
    ensures |r| == k
  {
    if k == 0 then [] else [n % 256] + ToMemory(n / 256, k - 1)
  }

  function FromMemory(s: Bytes): nat { if s == [] then 0 else s[0] + 256 * FromMemory(s[1..]) }

  /** htonl, htons and evppbswap_64: the bytes in the opposite order. */
  function Bswap(n: nat, k: nat): nat {
    if k == 0 then 0 else (n % 256) * Pow256(k - 1) + Bswap(n / 256, k - 1)
  }

  /** The most significant byte first. */
  function BigEndian(n: nat, k: nat): (r: Bytes)
    ensures |r| == k
  {
    if k == 0 then [] else BigEndian(n / 256, k - 1) + [n % 256]
  }

  lemma Product(a: nat, b: nat, p: nat)
    requires a < 256 && b < p
    ensures a * p + b < 256 * p
  {
    assert a * p <= 255 * p by { Monotone(a, 255, p); }
  }

  lemma Monotone(a: nat, b: nat, p: nat)
    requires a <= b
    ensures a * p <= b * p
  {
    assert b * p == a * p + (b - a) * p;
  }

  lemma {:induction false} BswapBound(n: nat, k: nat)
    ensures Bswap(n, k) < Pow256(k)
  {
    if k > 0 {
      BswapBound(n / 256, k - 1);
      Product(n % 256, Bswap(n / 256, k - 1), Pow256(k - 1));
    }
  }

  lemma {:induction false} PowPositive(k: nat)
    ensures Pow256(k) > 0
  {
    if k > 0 { PowPositive(k - 1); }
  }

  /** The bytes of h * 256^k + l are those of l and then those of h. */
  lemma {:induction false} MemorySplit(h: nat, l: nat, k: nat)
    requires l < Pow256(k) && h < 256
    ensures ToMemory(h * Pow256(k) + l, k + 1) == ToMemory(l, k) + [h]
  {
    if k == 0 {
      assert ToMemory(h, 1) == [h] + ToMemory(h / 256, 0);
    } else {
      var n := h * Pow256(k) + l;
      assert n == 256 * (h * Pow256(k - 1)) + l;
      DivMod(h * Pow256(k - 1), l);
      assert l / 256 < Pow256(k - 1);
      MemorySplit(h, l / 256, k - 1);
      assert ToMemory(n, k + 1) == [n % 256] + ToMemory(n / 256, k);
    }
  }

  lemma DivMod(a: nat, l: nat)
    ensures (256 * a + l) % 256 == l % 256 && (256 * a + l) / 256 == a + l / 256
  {
  }

  /** A swapped integer in memory is in network order. */
  lemma {:induction false} SwappedIsBigEndian(n: nat, k: nat)
    ensures ToMemory(Bswap(n, k), k) == BigEndian(n, k)
  {
    if k > 0 {
      SwappedIsBigEndian(n / 256, k - 1);
      BswapBound(n / 256, k - 1);
      MemorySplit(n % 256, Bswap(n / 256, k - 1), k - 1);
    }
  }

  lemma {:induction false} MemoryReadsBack(n: nat, k: nat)
    requires n < Pow256(k)
    ensures FromMemory(ToMemory(n, k)) == n
  {
    if k > 0 {
      MemoryReadsBack(n / 256, k - 1);
      assert ToMemory(n, k)[1..] == ToMemory(n / 256, k - 1);
    }
  }

  lemma Regroup(h: nat, p: nat, l: nat)
    ensures h * (256 * p) + l == 256 * (h * p) + l
  {
  }

  /** Bswap of h * 256^k + l. */
  lemma {:induction false} BswapSplit(h: nat, l: nat, k: nat)
    requires l < Pow256(k) && h < 256
    ensures Bswap(h * Pow256(k) + l, k + 1) == Bswap(l, k) * 256 + h
  {
    if k == 0 {
      assert Bswap(h, 1) == (h % 256) * Pow256(0) + Bswap(h / 256, 0);
    } else {
      var q := Pow256(k - 1);
      Regroup(h, q, l);
      DivMod(h * q, l);
      BswapSplit(h, l / 256, k - 1);
      BswapUnfold(h * Pow256(k) + l, k + 1, l % 256, h * q + l / 256);
      BswapUnfold(l, k, l % 256, l / 256);
      Regroup(l % 256, q, 0);
    }
  }

  lemma BswapUnfold(n: nat, k: nat, low: nat, high: nat)
    requires k > 0 && n % 256 == low && n / 256 == high
    ensures Bswap(n, k) == low * Pow256(k - 1) + Bswap(high, k - 1)
  {
  }

  /** Swapping twice gives the integer back. */
  lemma {:induction false} BswapTwice(n: nat, k: nat)
    requires n < Pow256(k)
    ensures Bswap(Bswap(n, k), k) == n
  {
    if k > 0 {
      var high := Bswap(n / 256, k - 1);
      BswapBound(n / 256, k - 1);
      BswapUnfold(n, k, n % 256, n / 256);
      BswapSplit(n % 256, high, k - 1);
      Smaller(n, Pow256(k - 1));
      BswapTwice(n / 256, k - 1);
    }
  }

  lemma Smaller(n: nat, p: nat)
    requires n < 256 * p
    ensures n / 256 < p
  {
  }

  /** `x` is a signed integer of `k` bytes. */
  predicate IsInt(x: int, k: nat) { 2 * x < Pow256(k) && -2 * x <= Pow256(k) }

  /** The bit pattern of a signed integer of `k` bytes, and back. */
  function Pattern(x: int, k: nat): nat
    requires IsInt(x, k)
  {
    if x >= 0 then x else x + Pow256(k)
  }

  function Signed(n: nat, k: nat): int { if 2 * n >= Pow256(k) then n - Pow256(k) else n }

  /** What AppendInt puts into the buffer for a signed integer of `k` bytes, and what PeekInt makes
      of the first `k` bytes. */
  function Encoded(x: int, k: nat): Bytes
    requires IsInt(x, k)
  {
    ToMemory(Bswap(Pattern(x, k), k), k)
  }

  function Decoded(s: Bytes): int { Signed(Bswap(FromMemory(s), |s|), |s|) }

  /** Integers of any width read back as appended. */
  lemma IntReadsBack(x: int, k: nat)
    requires k > 0 && IsInt(x, k)
    ensures Decoded(Encoded(x, k)) == x
    ensures Encoded(x, k) == BigEndian(Pattern(x, k), k)
  {
    var n := Pattern(x, k);
    PowPositive(k);
    BswapBound(n, k);
    MemoryReadsBack(Bswap(n, k), k);
    BswapTwice(n, k);
    SwappedIsBigEndian(n, k);
  }

  /** An integer and its width in bytes. */
  datatype Sized = Sized(x: int, k: nat)

  predicate AllInts(xs: seq<Sized>) { forall i :: 0 <= i < |xs| ==> xs[i].k > 0 && IsInt(xs[i].x, xs[i].k) }

  /** Integers appended one after the other. */
  function EncodedAll(xs: seq<Sized>): Bytes
    requires AllInts(xs)
  {
    if xs == [] then [] else Encoded(xs[0].x, xs[0].k) + EncodedAll(xs[1..])
  }

  /** Integers of the given widths read one after the other; none where the bytes run out. */
  function DecodedAll(s: Bytes, widths: seq<nat>): seq<int> {
    if widths == [] || |s| < widths[0] then [] else [Decoded(s[..widths[0]])] + DecodedAll(s[widths[0]..], widths[1..])
  }

  function Widths(xs: seq<Sized>): seq<nat> { if xs == [] then [] else [xs[0].k] + Widths(xs[1..]) }

  function Values(xs: seq<Sized>): seq<int> { if xs == [] then [] else [xs[0].x] + Values(xs[1..]) }

  /** Integers of mixed widths read back as appended, whatever follows them. */
  lemma {:induction false} MixedWidthsReadBack(xs: seq<Sized>, rest: Bytes)
    requires AllInts(xs)
    ensures DecodedAll(EncodedAll(xs) + rest, Widths(xs)) == Values(xs)
    decreases |xs|
  {
    hide Encoded, Decoded, IsInt;
    if xs != [] {
      var k := xs[0].k;
      var first, more := Encoded(xs[0].x, k), EncodedAll(xs[1..]);
      var s := EncodedAll(xs) + rest;
      IntReadsBack(xs[0].x, k);
      MixedWidthsReadBack(xs[1..], rest);
      assert |first| == k;
      assert s == first + (more + rest);
      assert s[..k] == first && s[k..] == more + rest;
      assert Widths(xs)[1..] == Widths(xs[1..]);
    }
  }

  // ---------------------------------------------------------------- the buffer

  const CHEAP_PREPEND_SIZE: nat := 8
  const EXTRA_SIZE: nat := 65536

  class Buffer {
    var buffer: array<Byte>       // of length capacity_
    var readIndex: nat
    var writeIndex: nat
    var reserved: nat             // reserved_prepend_size_

    ghost predicate Valid()
      reads this
    {
      readIndex <= writeIndex <= buffer.Length && reserved <= buffer.Length
    }

    /** The unread bytes. */
    ghost function Contents(): Bytes
      requires Valid()
      reads this, buffer
    {
      buffer[readIndex..writeIndex]
    }

    constructor (initialSize: nat, reservedPrepend: nat)
      ensures Valid() && fresh(buffer) && Contents() == []
      ensures buffer.Length == reservedPrepend + initialSize && readIndex == reserved == reservedPrepend
    {
      buffer := new Byte[reservedPrepend + initialSize];
      readIndex, writeIndex, reserved := reservedPrepend, reservedPrepend, reservedPrepend;
    }

    function Length(): nat
      requires Valid()
      reads this
    {
      writeIndex - readIndex
    }

    function Writable(): nat
      requires Valid()
      reads this
    {
      buffer.Length - writeIndex
    }

    /** Skip, Retrieve: drops bytes from the front, all of them if there are not more. */
    method Skip(n: nat)
      requires Valid()
      modifies this
      ensures Valid() && buffer == old(buffer) && reserved == old(reserved)
      ensures Contents() == if n < |old(Contents())| then old(Contents())[n..] else []
    {
      if n < Length() {
        readIndex := readIndex + n;
      } else {
        Truncate(0);
      }
    }

    /** Truncate, Reset: keeps the first n unread bytes. */
    method Truncate(n: nat)
      requires Valid()
      modifies this
      ensures Valid() && buffer == old(buffer) && reserved == old(reserved)
      ensures Contents() == if n < |old(Contents())| then old(Contents())[..n] else old(Contents())
      ensures n == 0 ==> readIndex == writeIndex == reserved
    {
      if n == 0 {
        readIndex, writeIndex := reserved, reserved;
      } else if writeIndex > readIndex + n {
        writeIndex := readIndex + n;
      }
    }

    /** grow: new storage if the free room at both ends does not hold `n` bytes more, otherwise the
        unread bytes move to the front. */
    method Grow(n: nat)
      requires Valid() && (Writable() < n || buffer.Length < n)
      modifies this, buffer
      ensures Valid() && reserved == old(reserved) && (buffer == old(buffer) || fresh(buffer))
      ensures Contents() == old(Contents())
      ensures Writable() >= n && readIndex == reserved && buffer.Length >= old(buffer.Length)
    {
      if Writable() + readIndex < n + reserved {
        Reallocate(2 * buffer.Length + n);
      } else {
        MoveToFront();
      }
    }

    method Reallocate(size: nat)
      requires Valid() && size >= reserved + Length()
      modifies this
      ensures Valid() && reserved == old(reserved) && fresh(buffer) && buffer.Length == size
      ensures Contents() == old(Contents()) && readIndex == reserved
    {
      var m := Length();
      var d := new Byte[size];
      forall i | 0 <= i < m {
        d[reserved + i] := buffer[readIndex + i];
      }
      assert d[reserved..reserved + m] == Contents();
      writeIndex, readIndex := m + reserved, reserved;
      buffer := d;
    }

    /** memmove; the assert of the source that there is room to move is always met. */
    method MoveToFront()
      requires Valid() && reserved < readIndex
      modifies this`readIndex, this`writeIndex, buffer
      ensures Valid() && Contents() == old(Contents()) && readIndex == reserved
      ensures Writable() == old(Writable() + readIndex) - reserved
    {
      var m := Length();
      ghost var was := Contents();
      forall i | 0 <= i < m {
        buffer[reserved + i] := buffer[readIndex + i];
      }
      assert buffer[reserved..reserved + m] == was;
      readIndex, writeIndex := reserved, reserved + m;
    }

    /** Reserve: capacity for n bytes besides the prepend room. */
    method Reserve(n: nat)
      requires Valid()
      modifies this, buffer
      ensures Valid() && reserved == old(reserved) && (buffer == old(buffer) || fresh(buffer))
      ensures Contents() == old(Contents()) && buffer.Length >= n + reserved
    {
      if buffer.Length < n + reserved {
        Grow(n + reserved);
      }
    }

    method EnsureWritable(n: nat)
      requires Valid()
      modifies this, buffer
      ensures Valid() && reserved == old(reserved) && (buffer == old(buffer) || fresh(buffer))
      ensures Contents() == old(Contents()) && Writable() >= n
      ensures n <= old(Writable()) ==> buffer == old(buffer)
    {
      if Writable() < n {
        Grow(n);
      }
    }

    /** Write, Append: adds bytes at the end. */
    method Write(d: Bytes)
      requires Valid()
      modifies this, buffer
      ensures Valid() && reserved == old(reserved) && (buffer == old(buffer) || fresh(buffer))
      ensures Contents() == old(Contents()) + d
      ensures |d| <= old(Writable()) ==> buffer == old(buffer)
    {
      EnsureWritable(|d|);
      Put(d);
    }

    /** memcpy to WriteBegin() and WriteBytes. */
    method Put(d: Bytes)
      requires Valid() && |d| <= Writable()
      modifies this`writeIndex, buffer
      ensures Valid() && Contents() == old(Contents()) + d
      ensures writeIndex == old(writeIndex) + |d|
    {
      ghost var was := Contents();
      forall i | 0 <= i < |d| {
        buffer[writeIndex + i] := d[i];
      }
      writeIndex := writeIndex + |d|;
      assert forall i :: 0 <= i < |was| ==> buffer[readIndex + i] == was[i];
    }

    /** Prepend: adds bytes at the front, into the room before the unread bytes. */
    method Prepend(d: Bytes)
      requires Valid() && |d| <= readIndex
      modifies this`readIndex, buffer
      ensures Valid() && Contents() == d + old(Contents())
    {
      ghost var was := Contents();
      readIndex := readIndex - |d|;
      forall i | 0 <= i < |d| {
        buffer[readIndex + i] := d[i];
      }
      assert forall i :: 0 <= i < |was| ==> buffer[readIndex + |d| + i] == was[i];
    }

    /** Next, NextAll: takes bytes from the front. */
    method Next(n: nat) returns (s: Bytes)
      requires Valid()
      modifies this
      ensures Valid() && buffer == old(buffer) && reserved == old(reserved)
      ensures s + Contents() == old(Contents()) && |s| == if n < |old(Contents())| then n else |old(Contents())|
    {
      if n < Length() {
        s := buffer[readIndex..readIndex + n];
        readIndex := readIndex + n;
      } else {
        s := buffer[readIndex..writeIndex];
        Truncate(0);
      }
    }

    /** Shrink: new storage for the unread bytes and `reserve` more. */
    method Shrink(reserve: nat)
      requires Valid()
      modifies this
      ensures Valid() && fresh(buffer) && Contents() == old(Contents())
      ensures buffer.Length == CHEAP_PREPEND_SIZE + |old(Contents())| + reserve
    {
      var other := new Buffer(Length() + reserve, CHEAP_PREPEND_SIZE);
      other.Write(buffer[readIndex..writeIndex]);
      buffer, readIndex, writeIndex, reserved := other.buffer, other.readIndex, other.writeIndex, other.reserved;
    }

    /** ReadFromFD: `readv` into the free room and, if that is small, 64K on the side. `failed` says that it
        failed, `got` is what it read otherwise: exactly these bytes are appended. */
    method ReadFromFD(failed: bool, got: Bytes) returns (n: int)
      requires Valid()
      requires !failed ==> |got| <= Writable() + if Writable() < EXTRA_SIZE then EXTRA_SIZE else 0
      modifies this, buffer
      ensures Valid() && reserved == old(reserved) && (buffer == old(buffer) || fresh(buffer))
      ensures n == (if failed then -1 else |got|) && Contents() == old(Contents()) + if failed then [] else got
    {
      if failed {
        assert Contents() + [] == Contents();
        return -1;
      }
      n := |got|;
      var writable := Writable();
      if |got| <= writable {
        Put(got);
      } else {
        Put(got[..writable]);
        assert writeIndex == buffer.Length;
        Write(got[writable..]);
        assert got == got[..writable] + got[writable..];
      }
    }

    /** AppendInt64, AppendInt32, AppendInt16, AppendInt8: k = 8, 4, 2, 1. */
    method AppendInt(x: int, k: nat)
      requires Valid() && k > 0 && IsInt(x, k)
      modifies this, buffer
      ensures Valid() && reserved == old(reserved) && (buffer == old(buffer) || fresh(buffer))
      ensures Contents() == old(Contents()) + BigEndian(Pattern(x, k), k)
    {
      IntReadsBack(x, k);
      Write(Encoded(x, k));
    }

    /** ReadInt64 and so on: the integer at the front, taken off. */
    method ReadInt(k: nat) returns (x: int)
      requires Valid() && 0 < k <= Length()
      modifies this
      ensures Valid() && buffer == old(buffer) && reserved == old(reserved)
      ensures x == Decoded(old(Contents())[..k]) && Contents() == old(Contents())[k..]
    {
      x := Decoded(buffer[readIndex..readIndex + k]);
      assert buffer[readIndex..readIndex + k] == Contents()[..k];
      Skip(k);
    }
  }
}
