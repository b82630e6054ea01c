// StreamReader::read of the engine's data library: a little-endian integer
// of up to eight bytes taken from a binary input stream.
//
// A stream is modelled by the bytes not yet consumed. A read of n bytes into a
// zero-initialised buffer stops at the end of the stream and leaves the
// missing bytes at 0; every later read then delivers nothing, which is the
// same as reading from an empty remainder.

module StreamReader {
  import opened Bytes

  const TwoTo63: nat := 0x8000_0000_0000_0000
  const TwoTo64: nat := 0x1_0000_0000_0000_0000

  function Zeros(n: nat): (z: seq<byte>)
    ensures |z| == n
  {
    seq(n, _ => 0)
  }

  /** The buffer after reading n bytes from bs: what is there, then zeros. */
  function Padded(bs: seq<byte>, n: nat): (r: seq<byte>)
    ensures |r| == n
  {
    if n <= |bs| then bs[..n] else bs + Zeros(n - |bs|)
  }

  /** Byte i of the buffer is byte i of the stream, or 0 past its end. */
  lemma PaddedAt(bs: seq<byte>, n: nat)
    ensures forall i :: 0 <= i < n ==> Padded(bs, n)[i] == if i < |bs| then bs[i] else 0
  {
  }

  /** A read of a + b bytes is a read of a bytes followed by a read of b. */
  lemma PaddedSplit(bs: seq<byte>, a: nat, b: nat)
    ensures Padded(bs, a + b) == Padded(bs, a) + Padded(Rest(bs, a), b)
  {
    var whole, first, second := Padded(bs, a + b), Padded(bs, a), Padded(Rest(bs, a), b);
    PaddedAt(bs, a + b);
    PaddedAt(bs, a);
    PaddedAt(Rest(bs, a), b);
    forall i | 0 <= i < a + b
      ensures whole[i] == (first + second)[i]
    {
      if a <= i < |bs| {
        assert Rest(bs, a)[i - a] == bs[i];
      }
    }
  }

  /** The stream left after reading n bytes from bs. */
  function Rest(bs: seq<byte>, n: nat): (r: seq<byte>)
    ensures |r| == if n <= |bs| then |bs| - n else 0
    ensures n <= |bs| ==> r == bs[n..]
  {
    if n <= |bs| then bs[n..] else []
  }

  /** Two reads in a row skip as much as one read of both lengths. */
  lemma RestRest(bs: seq<byte>, a: nat, b: nat)
    ensures Rest(Rest(bs, a), b) == Rest(bs, a + b)
  {
  }

  /** The unsigned value of an n-byte little-endian read. */
  function ReadUnsigned(bs: seq<byte>, n: nat): nat
  {
    LittleEndian(Padded(bs, n))
  }

  /** A two-byte read, written out: the low byte plus 256 times the high
      byte, a byte past the end of the stream counting as 0. */
  function U16(bs: seq<byte>): int
  {
    var low: int := if 0 < |bs| then bs[0] else 0;
    var high: int := if 1 < |bs| then bs[1] else 0;
    low + 256 * high
  }

  /** It is the value of a two-byte read. */
  lemma U16IsRead(bs: seq<byte>)
    ensures U16(bs) == ReadUnsigned(bs, 2)
  {
    var low: int := if 0 < |bs| then bs[0] else 0;
    var high: int := if 1 < |bs| then bs[1] else 0;
    var p := Padded(bs, 2);
    PaddedAt(bs, 2);
    assert p[0] == low && p[1..] == [high];
    assert LittleEndian([high]) == high + 256 * LittleEndian([high][1..]);
  }

  /** A value written on two bytes reads back, whatever follows it. */
  lemma U16OfField(v: int, rest: seq<byte>)
    requires ToBytes(v, 2).Ok?
    ensures U16(ToBytes(v, 2).value + rest) == v
  {
    var field := ToBytes(v, 2).value;
    assert LittleEndian(field) == field[0] + 256 * LittleEndian(field[1..]);
    assert LittleEndian(field[1..]) == field[1] + 256 * LittleEndian(field[2..]);
  }

  /** A one-byte read, written out: the byte, or 0 past the end of the
      stream. */
  function U8(bs: seq<byte>): int
  {
    if bs == [] then 0 else bs[0]
  }

  /** It is the value of a one-byte read. */
  lemma U8IsRead(bs: seq<byte>)
    ensures U8(bs) == ReadValue(bs, 1)
  {
    ReadOneByte(bs);
  }

  /** The bit pattern of an unsigned 64-bit value read as an int64_t. */
  function AsInt64(u: nat): int
  {
    if u < TwoTo63 then u else u - TwoTo64
  }

  /** The value StreamReader::read returns: the accumulator is an int64_t. */
  function ReadValue(bs: seq<byte>, n: nat): int
  {
    AsInt64(ReadUnsigned(bs, n))
  }

  lemma {:induction false} Pow256Monotonic(m: nat, n: nat)
    requires m <= n
    ensures Pow256(m) <= Pow256(n)
  {
    if m < n {
      Pow256Monotonic(m, n - 1);
    }
  }

  lemma Pow256Of7And8()
    ensures Pow256(7) == 0x100_0000_0000_0000 && Pow256(8) == TwoTo64
  {
    assert Pow256(1) == 0x100;
    assert Pow256(2) == 0x1_0000;
    assert Pow256(3) == 0x100_0000;
    assert Pow256(4) == 0x1_0000_0000;
    assert Pow256(5) == 0x100_0000_0000;
    assert Pow256(6) == 0x1_0000_0000_0000;
  }

  /** Reads of at most seven bytes are non-negative and below 256^n. */
  lemma ReadValueBounds(bs: seq<byte>, n: nat)
    requires n <= 7
    ensures 0 <= ReadValue(bs, n) < Pow256(n)
    ensures ReadValue(bs, n) == ReadUnsigned(bs, n)
  {
    Pow256Monotonic(n, 7);
    Pow256Of7And8();
  }

  /** A one-byte read is the byte itself, or 0 at the end of the stream. */
  lemma ReadOneByte(bs: seq<byte>)
    ensures ReadValue(bs, 1) == if bs == [] then 0 else bs[0]
    ensures Rest(bs, 1) == if bs == [] then [] else bs[1..]
  {
    var p := Padded(bs, 1);
    assert p[1..] == [];
    ReadValueBounds(bs, 1);
  }

  /** The bytes beyond the end of a short read count as 0: the value is that
      of the bytes that were there. */
  lemma {:induction false} ShortRead(bs: seq<byte>, n: nat)
    requires |bs| < n
    ensures ReadUnsigned(bs, n) == LittleEndian(bs)
    ensures Rest(bs, n) == []
  {
    ZerosAdd(bs, n - |bs|);
  }

  lemma {:induction false} ZerosAdd(s: seq<byte>, k: nat)
    ensures LittleEndian(s + Zeros(k)) == LittleEndian(s)
  {
    if k == 0 {
      assert s + Zeros(k) == s;
    } else {
      assert s + Zeros(k) == (s + Zeros(k - 1)) + [0];
      LittleEndianSnoc(s + Zeros(k - 1), 0);
      ZerosAdd(s, k - 1);
    }
  }

  /** Reading n bytes from a stream that starts with at least n bytes. */
  lemma ReadPrefix(a: seq<byte>, b: seq<byte>, n: nat)
    requires n <= |a|
    ensures Padded(a + b, n) == a[..n] && ReadUnsigned(a + b, n) == LittleEndian(a[..n])
    ensures Rest(a + b, n) == a[n..] + b
  {
    assert (a + b)[..n] == a[..n];
    assert (a + b)[n..] == a[n..] + b;
  }

  /** What an encoder wrote with to_bytes(n, 'little') reads back. */
  lemma ReadWritten(v: nat, n: nat, rest: seq<byte>)
    requires v < Pow256(n)
    ensures ReadUnsigned(LittleEndianBytes(v, n) + rest, n) == v
    ensures Rest(LittleEndianBytes(v, n) + rest, n) == rest
  {
    var w := LittleEndianBytes(v, n);
    ReadPrefix(w, rest, n);
    assert w[..n] == w && w[n..] == [];
    LittleEndianRoundTrip(v, n);
  }

  /** n two-byte values read one after the other, each a U16. */
  function ReadU16s(bs: seq<byte>, n: nat): (values: seq<int>)
    ensures |values| == n
    decreases n
  {
    if n == 0 then [] else [U16(bs)] + ReadU16s(Rest(bs, 2), n - 1)
  }

  /** Reading the values one by one is reading the whole block of 2n bytes
      at once into a vector of n zeros. */
  lemma {:induction false} ReadU16sIsBlockRead(bs: seq<byte>, n: nat)
    ensures ReadU16s(bs, n) == Values(Padded(bs, 2 * n), 2)
    decreases n
  {
    if n > 0 {
      var block, first, others := Padded(bs, 2 * n), Padded(bs, 2), Padded(Rest(bs, 2), 2 * (n - 1));
      PaddedSplit(bs, 2, 2 * (n - 1));
      SplitAppend(first, others);
      assert Values(block, 2) == [LittleEndian(block[..2])] + Values(block[2..], 2);
      U16IsRead(bs);
      ReadU16sIsBlockRead(Rest(bs, 2), n - 1);
    }
  }

  /** Values written as two-byte fields read back, leaving what follows. */
  lemma {:induction false} ReadU16sOfFields(vs: seq<int>, rest: seq<byte>)
    requires Fields(vs, 2).Ok?
    ensures ReadU16s(Fields(vs, 2).value + rest, |vs|) == vs
    ensures Rest(Fields(vs, 2).value + rest, 2 * |vs|) == rest
  {
    var bs := Fields(vs, 2).value + rest;
    if vs != [] {
      var head, tail := ToBytes(vs[0], 2).value, Fields(vs[1..], 2).value;
      assert Fields(vs, 2).value == head + tail;
      assert bs == head + (tail + rest);
      U16OfField(vs[0], tail + rest);
      SplitAppend(head, tail + rest);
      ReadU16sOfFields(vs[1..], rest);
      assert ReadU16s(bs, |vs|) == [vs[0]] + vs[1..];
    }
    SplitAppend(Fields(vs, 2).value, rest);
  }

  /** The values of consecutive two-byte reads fit two bytes. */
  lemma {:induction false} ReadU16sRange(bs: seq<byte>, n: nat)
    ensures forall i :: 0 <= i < n ==> 0 <= ReadU16s(bs, n)[i] < 0x1_0000
    decreases n
  {
    if n > 0 {
      ReadU16sRange(Rest(bs, 2), n - 1);
    }
  }

  /** Value k of consecutive reads is the read 2k bytes further on. */
  lemma {:induction false} ReadU16sAt(bs: seq<byte>, n: nat, k: nat)
    requires k < n
    ensures ReadU16s(bs, n)[k] == U16(Rest(bs, 2 * k))
    decreases k
  {
    if k > 0 {
      ReadU16sAt(Rest(bs, 2), n - 1, k - 1);
      RestRest(bs, 2, 2 * (k - 1));
    }
  }

  /** Value k of consecutive reads, reached in two steps of p and d bytes. */
  lemma ReadU16sAfter(bs: seq<byte>, m: nat, k: nat, p: nat, d: nat)
    requires k < m && p + d == 2 * k
    ensures ReadU16s(bs, m)[k] == U16(Rest(Rest(bs, p), d))
  {
    ReadU16sAt(bs, m, k);
    RestRest(bs, p, d);
  }

  /** A value written on one byte reads back, whatever follows it. */
  lemma U8OfField(v: int, rest: seq<byte>)
    requires ToBytes(v, 1).Ok?
    ensures U8(ToBytes(v, 1).value + rest) == v
  {
    var field := ToBytes(v, 1).value;
    assert LittleEndian(field) == field[0] + 256 * LittleEndian(field[1..]);
  }

  /** n one-byte values read one after the other. */
  function ReadU8s(bs: seq<byte>, n: nat): (values: seq<int>)
    ensures |values| == n
    decreases n
  {
    if n == 0 then [] else [U8(bs)] + ReadU8s(Rest(bs, 1), n - 1)
  }

  /** Value k of consecutive one-byte reads is the read k bytes further
      on. */
  lemma {:induction false} ReadU8sAt(bs: seq<byte>, n: nat, k: nat)
    requires k < n
    ensures ReadU8s(bs, n)[k] == U8(Rest(bs, k))
    decreases k
  {
    if k > 0 {
      ReadU8sAt(Rest(bs, 1), n - 1, k - 1);
      RestRest(bs, 1, k - 1);
    }
  }

  /** Values written as one-byte fields read back, leaving what follows. */
  lemma {:induction false} ReadU8sOfFields(vs: seq<int>, rest: seq<byte>)
    requires Fields(vs, 1).Ok?
    ensures ReadU8s(Fields(vs, 1).value + rest, |vs|) == vs
    ensures Rest(Fields(vs, 1).value + rest, |vs|) == rest
  {
    var bs := Fields(vs, 1).value + rest;
    if vs != [] {
      var head, tail := ToBytes(vs[0], 1).value, Fields(vs[1..], 1).value;
      assert Fields(vs, 1).value == head + tail;
      assert bs == head + (tail + rest);
      U8OfField(vs[0], tail + rest);
      SplitAppend(head, tail + rest);
      ReadU8sOfFields(vs[1..], rest);
      assert ReadU8s(bs, |vs|) == [vs[0]] + vs[1..];
    }
    SplitAppend(Fields(vs, 1).value, rest);
  }

  /** StreamReader::read(stream, num_bytes): the stream is `data` from `pos`
      on; `next` is where the stream stands afterwards. The bytes are ORed in
      at increasing weights; since the accumulator stays below the weight of
      the byte being added, the OR is an addition. Shifts of 64 bits or more
      are undefined, hence at most eight bytes. */
  method Read(data: seq<byte>, pos: nat, numBytes: nat) returns (value: int, next: nat)
    requires pos <= |data| && numBytes <= 8
    ensures value == ReadValue(data[pos..], numBytes)
    ensures pos <= next <= |data| && data[next..] == Rest(data[pos..], numBytes)
  {
    var avail := if numBytes <= |data| - pos then numBytes else |data| - pos;
    var buf := data[pos..pos + avail] + Zeros(numBytes - avail);
    assert buf == Padded(data[pos..], numBytes);
    next := pos + avail;
    var acc: nat := 0;
    var i := 0;
    while i < numBytes
      invariant 0 <= i <= numBytes
      invariant acc == LittleEndian(buf[..i])
    {
      assert buf[..i + 1] == buf[..i] + [buf[i]];
      LittleEndianSnoc(buf[..i], buf[i]);
      acc := acc + buf[i] * Pow256(i);
      i := i + 1;
    }
    assert buf[..numBytes] == buf;
    value := AsInt64(acc);
  }
}
