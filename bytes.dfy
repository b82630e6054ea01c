// Bytes, little-endian integers and the error outcomes shared by the asset
// encoders (Python) and loaders (C++).

module Bytes {

  /** One octet of a binary asset file. */
  type byte = b: int | 0 <= b < 256

  /** The ways an encoder or a loader can fail. The Python names are the
      exceptions the generators raise; `Undefined` stands for C++ undefined
      behaviour (an out-of-range vector index, a division by zero), after
      which the model promises nothing. */
  datatype Error =
    | OverflowError      // int.to_bytes of a negative or too large value
    | IndexError         // a Python list index out of range
    | ValueError         // an unpacking of the wrong arity, range() with step 0
    | StructError        // struct.unpack on a buffer of the wrong size
    | TypeError          // subscripting the None of a failed re.search
    | ZeroDivisionError  // Python // or % by zero
    | OutOfRange         // std::out_of_range from unordered_map::at
    | InvalidArgument    // std::invalid_argument thrown by a mapper
    | Undefined          // C++ undefined behaviour

  datatype Result<T> = Ok(value: T) | Err(error: Error)

  /** The outcome of an operation that returns nothing: it completes or
      raises. */
  datatype Outcome = Done | Raised(error: Error)

  /** Python `lst[k]` on a list of n elements: negative indices count from
      the end; anything else out of range raises IndexError. */
  function ListIndex(k: int, n: nat): (r: Result<nat>)
    ensures r.Ok? <==> -(n as int) <= k < n
    ensures r.Ok? ==> r.value < n && (k >= 0 ==> r.value == k)
  {
    if 0 <= k < n then Ok(k) else if -(n as int) <= k < 0 then Ok(k + n) else Err(IndexError)
  }

  /** Sequential composition of two writes: the first failure wins, as an
      exception stops the generator at the first failing write. */
  function Cat(a: Result<seq<byte>>, b: Result<seq<byte>>): Result<seq<byte>>
  {
    match a
    case Err(e) => Err(e)
    case Ok(x) => (match b case Err(e) => Err(e) case Ok(y) => Ok(x + y))
  }

  lemma CatAssoc(a: Result<seq<byte>>, b: Result<seq<byte>>, c: Result<seq<byte>>)
    ensures Cat(Cat(a, b), c) == Cat(a, Cat(b, c))
  {
    if a.Ok? && b.Ok? && c.Ok? {
      assert (a.value + b.value) + c.value == a.value + (b.value + c.value);
    }
  }

  lemma CatEmpty(r: Result<seq<byte>>)
    ensures Cat(Ok([]), r) == r
  {
    if r.Ok? {
      assert [] + r.value == r.value;
    }
  }

  function Pow256(n: nat): (p: nat)
    ensures p >= 1
  {
    if n == 0 then 1 else 256 * Pow256(n - 1)
  }

  /** The value of a little-endian byte string: byte i weighs 256^i. */
  function LittleEndian(bs: seq<byte>): (v: nat)
    ensures v < Pow256(|bs|)
  {
    if bs == [] then 0
    else
      var rest := LittleEndian(bs[1..]);
      assert rest <= Pow256(|bs| - 1) - 1;
      assert 256 * rest <= 256 * Pow256(|bs| - 1) - 256;
      bs[0] + 256 * rest
  }

  /** Dropping a then b elements is dropping a + b. */
  lemma DropDrop<T>(s: seq<T>, a: nat, b: nat)
    requires a + b <= |s|
    ensures s[a..][b..] == s[a + b..]
  {
  }

  /** The first m elements after a. */
  lemma TakeOfDrop<T>(s: seq<T>, a: nat, m: nat)
    requires a + m <= |s|
    ensures s[a..][..m] == s[a..a + m]
  {
  }

  /** Concatenation is associative. */
  lemma AppendAssoc<T>(a: seq<T>, b: seq<T>, c: seq<T>)
    ensures (a + b) + c == a + (b + c)
  {
  }

  /** A concatenation split where its halves meet. */
  lemma SplitAppend<T>(a: seq<T>, b: seq<T>)
    ensures (a + b)[..|a|] == a && (a + b)[|a|..] == b
  {
  }

  /** The n low-order bytes of v, least significant first. */
  function LittleEndianBytes(v: nat, n: nat): (bs: seq<byte>)
    ensures |bs| == n
  {
    if n == 0 then [] else [v % 256] + LittleEndianBytes(v / 256, n - 1)
  }

  lemma {:induction false} LittleEndianRoundTrip(v: nat, n: nat)
    requires v < Pow256(n)
    ensures LittleEndian(LittleEndianBytes(v, n)) == v
  {
    if n > 0 {
      var bs := LittleEndianBytes(v, n);
      assert bs[1..] == LittleEndianBytes(v / 256, n - 1);
      LittleEndianRoundTrip(v / 256, n - 1);
    }
  }

  lemma {:induction false} LittleEndianBytesRoundTrip(bs: seq<byte>)
    ensures LittleEndianBytes(LittleEndian(bs), |bs|) == bs
  {
    if bs != [] {
      var v := LittleEndian(bs);
      assert v % 256 == bs[0] && v / 256 == LittleEndian(bs[1..]);
      LittleEndianBytesRoundTrip(bs[1..]);
    }
  }

  /** Appending a byte adds it at the next weight. */
  lemma {:induction false} LittleEndianSnoc(s: seq<byte>, b: byte)
    ensures LittleEndian(s + [b]) == LittleEndian(s) + b * Pow256(|s|)
  {
    if s != [] {
      var t := s + [b];
      assert t[0] == s[0] && t[1..] == s[1..] + [b];
      LittleEndianSnoc(s[1..], b);
      var rest, p := LittleEndian(s[1..]), Pow256(|s| - 1);
      assert LittleEndian(t) == s[0] + 256 * (rest + b * p);
      Distribute(rest, b, p);
    }
  }

  lemma Distribute(rest: int, b: int, p: int)
    ensures 256 * (rest + b * p) == 256 * rest + b * (256 * p)
  {
  }

  /** Python's int.to_bytes(n, 'little') (unsigned): OverflowError unless
      0 <= v < 256^n. */
  function ToBytes(v: int, n: nat): (r: Result<seq<byte>>)
    ensures r.Ok? <==> 0 <= v < Pow256(n)
    ensures r.Ok? ==> |r.value| == n && LittleEndian(r.value) == v
  {
    if 0 <= v < Pow256(n) then
      LittleEndianRoundTrip(v, n);
      Ok(LittleEndianBytes(v, n))
    else Err(OverflowError)
  }

  /** Each value written on `width` bytes, in order; the first value out of
      range raises. */
  function Fields(vs: seq<int>, width: nat): (r: Result<seq<byte>>)
    ensures r.Ok? <==> forall i :: 0 <= i < |vs| ==> 0 <= vs[i] < Pow256(width)
    ensures r.Ok? ==> |r.value| == width * |vs|
    ensures r.Err? ==> r.error == OverflowError
  {
    if vs == [] then Ok([])
    else
      var r := Cat(ToBytes(vs[0], width), Fields(vs[1..], width));
      assert forall i :: 1 <= i < |vs| ==> vs[i] == vs[1..][i - 1];
      r
  }

  /** The values of a sequence of `width`-byte little-endian fields. */
  function Values(bs: seq<byte>, width: nat): seq<nat>
    decreases |bs|
  {
    if width == 0 || |bs| < width then [] else [LittleEndian(bs[..width])] + Values(bs[width..], width)
  }

  lemma {:induction false} FieldsRoundTrip(vs: seq<int>, width: nat)
    requires width > 0 && Fields(vs, width).Ok?
    ensures Values(Fields(vs, width).value, width) == vs
  {
    if vs != [] {
      var head := ToBytes(vs[0], width).value;
      var tail := Fields(vs[1..], width).value;
      assert Fields(vs, width).value == head + tail;
      assert (head + tail)[..width] == head;
      assert (head + tail)[width..] == tail;
      assert |head + tail| >= width;
      FieldsRoundTrip(vs[1..], width);
    }
  }

  /** Fields read back from whole fields re-encode to the same bytes. */
  lemma {:induction false} ValuesRoundTrip(bs: seq<byte>, width: nat, n: nat)
    requires width > 0 && |bs| == width * n
    ensures |Values(bs, width)| == n
    ensures Fields(Values(bs, width), width) == Ok(bs)
  {
    if n == 0 {
      assert bs == [];
    } else {
      assert |bs| == width * (n - 1) + width;
      var head := bs[..width];
      ValuesRoundTrip(bs[width..], width, n - 1);
      var vs := Values(bs, width);
      assert vs == [LittleEndian(head)] + Values(bs[width..], width);
      assert vs[1..] == Values(bs[width..], width);
      LittleEndianBytesRoundTrip(head);
      assert ToBytes(vs[0], width) == Ok(head);
      assert head + bs[width..] == bs;
    }
  }

  /** Writing two runs of fields is writing their concatenation. */
  lemma {:induction false} FieldsAppend(a: seq<int>, b: seq<int>, width: nat)
    ensures Fields(a + b, width) == Cat(Fields(a, width), Fields(b, width))
  {
    if a == [] {
      assert a + b == b;
      if Fields(b, width).Ok? {
        assert [] + Fields(b, width).value == Fields(b, width).value;
      }
    } else {
      assert (a + b)[1..] == a[1..] + b;
      FieldsAppend(a[1..], b, width);
      CatAssoc(ToBytes(a[0], width), Fields(a[1..], width), Fields(b, width));
    }
  }

  /** The Python generators' loop `for v in vs: f.write(v.to_bytes(width,
      'little'))`: the bytes written, or the error of the first value out of
      range. */
  method WriteFields(vs: seq<int>, width: nat) returns (r: Result<seq<byte>>)
    ensures r == Fields(vs, width)
  {
    var out: seq<byte> := [];
    var k := 0;
    CatEmpty(Fields(vs, width));
    while k < |vs|
      invariant 0 <= k <= |vs|
      invariant Fields(vs, width) == Cat(Ok(out), Fields(vs[k..], width))
    {
      assert vs[k..][1..] == vs[k + 1..];
      var b := ToBytes(vs[k], width);
      CatAssoc(Ok(out), b, Fields(vs[k + 1..], width));
      if b.Err? {
        return Err(b.error);
      }
      out := out + b.value;
      k := k + 1;
    }
    assert vs[k..] == [];
    assert out + [] == out;
    r := Ok(out);
  }
}
