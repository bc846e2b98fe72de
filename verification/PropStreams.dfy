/** The property streams: a growing write buffer and a bounded read cursor over raw memory images of numbers. */
module PropStreams {
  import opened Bytes

  type uint16 = x: int | 0 <= x < 0x1_0000
  type uint32 = x: int | 0 <= x < 0x1_0000_0000
  type int32 = x: int | -0x8000_0000 <= x < 0x8000_0000

  /** Memory images are little-endian, as on the hosts the server is built for. */
  function U16(x: uint16): (b: seq<byte>)
    ensures |b| == 2
  {
    [x % 0x100, x / 0x100]
  }

  function U32(x: uint32): (b: seq<byte>)
    ensures |b| == 4
  {
    [x % 0x100, x / 0x100 % 0x100, x / 0x1_0000 % 0x100, x / 0x100_0000]
  }

  function FromU16(b: seq<byte>): uint16
    requires |b| == 2
  {
    b[0] as int + 0x100 * b[1] as int
  }

  function FromU32(b: seq<byte>): uint32
    requires |b| == 4
  {
    b[0] as int + 0x100 * b[1] as int + 0x1_0000 * b[2] as int + 0x100_0000 * b[3] as int
  }

  /** Two's complement. */
  function Wrap(x: int): int32 {
    var m := x % 0x1_0000_0000;
    if m < 0x8000_0000 then m else m - 0x1_0000_0000
  }

  function Unsigned(x: int32): uint32 {
    if x < 0 then x + 0x1_0000_0000 else x
  }

  function I32(x: int32): (b: seq<byte>)
    ensures |b| == 4
  {
    U32(Unsigned(x))
  }

  function FromI32(b: seq<byte>): int32
    requires |b| == 4
  {
    Wrap(FromU32(b))
  }

  lemma U16Back(x: uint16)
    ensures FromU16(U16(x)) == x && U16(x)[0] as int + 0x100 * U16(x)[1] as int == x
  {
  }

  lemma U32Back(x: uint32)
    ensures FromU32(U32(x)) == x
    ensures U32(x)[0] as int + 0x100 * U32(x)[1] as int + 0x1_0000 * U32(x)[2] as int + 0x100_0000 * U32(x)[3] as int == x
  {
    var q, r := x / 0x100, x / 0x1_0000;
    assert x == 0x100 * q + x % 0x100;
    assert r == q / 0x100 && q == 0x100 * r + q % 0x100;
    assert x / 0x100_0000 == r / 0x100 && r == 0x100 * (r / 0x100) + r % 0x100;
  }

  /** Four bytes, the low ones first, in two's complement; every value comes back. */
  lemma I32Back(x: int32)
    ensures FromI32(I32(x)) == x
    ensures I32(x)[0] as int + 0x100 * I32(x)[1] as int + 0x1_0000 * I32(x)[2] as int + 0x100_0000 * I32(x)[3] as int
            == if x < 0 then x + 0x1_0000_0000 else x
  {
    hide U32, FromU32;
    U32Back(Unsigned(x));
    assert x < 0 ==> (x + 0x1_0000_0000) % 0x1_0000_0000 == x + 0x1_0000_0000;
  }

  lemma WrapIsIdentity(x: int32)
    ensures Wrap(x) == x
  {
    assert x < 0 ==> x % 0x1_0000_0000 == x + 0x1_0000_0000;
  }

  lemma WrapAbsorbs(x: int, y: int)
    ensures Wrap(Wrap(x) + y) == Wrap(x + y)
  {
    var m := 0x1_0000_0000;
    assert x == m * (x / m) + x % m;
    assert x - Wrap(x) == m * (x / m) || x - Wrap(x) == m * (x / m + 1);
    ModShift(Wrap(x) + y, if x - Wrap(x) == m * (x / m) then x / m else x / m + 1);
  }

  lemma ModShift(a: int, j: int)
    ensures (a + 0x1_0000_0000 * j) % 0x1_0000_0000 == a % 0x1_0000_0000
  {
    var m := 0x1_0000_0000;
    var q := (a + m * j) / m;
    var r := a / m;
    assert a + m * j == m * q + (a + m * j) % m;
    assert a == m * r + a % m;
    assert m * (q - r - j) == a % m - (a + m * j) % m;
  }

  const GROWTH_UNIT: nat := 0x20

  /** `(n + 0x1F) & 0xFFFFFFE0` */
  function RoundUp(n: nat): (r: nat)
    ensures n <= r < n + GROWTH_UNIT && r % GROWTH_UNIT == 0
  {
    var m := n + (GROWTH_UNIT - 1);
    m - m % GROWTH_UNIT
  }

  class PropWriteStream {
    var buffer: array<byte>
    var size: nat

    ghost predicate Valid()
      reads this
    {
      size <= buffer.Length
    }

    /** `getStream` */
    ghost function Written(): (s: seq<byte>)
      requires Valid()
      reads this, buffer
    {
      buffer[..size]
    }

    constructor ()
      ensures Valid() && fresh(buffer) && Written() == []
    {
      buffer := new byte[GROWTH_UNIT](_ => 0);
      size := 0;
    }

    /** `addType` of a value with this memory image. */
    method AddType(image: seq<byte>)
      requires Valid()
      modifies this, buffer
      ensures Valid() && (buffer == old(buffer) || fresh(buffer))
      ensures Written() == old(Written()) + image
    {
      if buffer.Length - size < |image| {
        Grow(|image|);
      }
      CopyIn(image);
      size := size + |image|;
    }

    /** `memcpy` behind what is written. */
    method CopyIn(image: seq<byte>)
      requires size + |image| <= buffer.Length
      modifies buffer
      ensures buffer[..size + |image|] == old(buffer[..size]) + image
    {
      for i := 0 to |image|
        invariant forall k :: 0 <= k < size ==> buffer[k] == old(buffer[k])
        invariant forall k :: 0 <= k < i ==> buffer[size + k] == image[k]
      {
        buffer[size + i] := image[i];
      }
      forall k | size <= k < size + |image| ensures buffer[k] == image[k - size] {
        assert buffer[size + (k - size)] == image[k - size];
      }
    }

    /** `realloc` to a size with room for `n` more bytes. */
    method Grow(n: nat)
      requires Valid()
      modifies `buffer
      ensures Valid() && fresh(buffer) && buffer.Length >= old(buffer.Length) + n
      ensures buffer[..size] == old(buffer[..size])
    {
      var bigger := new byte[buffer.Length + RoundUp(n)](_ => 0);
      for i := 0 to size
        invariant bigger != buffer && buffer == old(buffer) && buffer[..] == old(buffer[..])
        invariant forall k :: 0 <= k < i ==> bigger[k] == buffer[k]
      {
        bigger[i] := buffer[i];
      }
      buffer := bigger;
    }
  }

  class PropStream {
    const data: seq<byte>
    var p: nat

    ghost predicate Valid()
      reads this
    {
      p <= |data|
    }

    constructor (data: seq<byte>)
      ensures Valid() && this.data == data && p == 0
    {
      this.data, p := data, 0;
    }

    /** `getType` of a type of this size: the image of the value, or no movement at all. */
    method GetType(n: nat) returns (ok: bool, image: seq<byte>)
      requires Valid()
      modifies this
      ensures Valid() && ok == (n <= |data| - old(p))
      ensures ok ==> p == old(p) + n && image == data[old(p)..p]
      ensures !ok ==> p == old(p)
    {
      if |data| - p < n {
        return false, [];
      }
      ok, image := true, data[p..p + n];
      p := p + n;
    }

    method GetByte() returns (ok: bool, b: byte)
      requires Valid()
      modifies this
      ensures Valid() && ok == (old(p) < |data|)
      ensures ok ==> p == old(p) + 1 && b == data[old(p)]
      ensures !ok ==> p == old(p)
    {
      var image;
      ok, image := GetType(1);
      b := if ok then image[0] else 0;
    }
  }
}
