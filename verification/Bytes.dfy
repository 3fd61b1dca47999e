/** Bytes, fixed-width integers and the fixed-width big-endian fields that every
    LazyGate codec writes. Go strings are byte sequences, so they are `seq<byte>` here. */
module Bytes {

  datatype Option<+T> = None | Some(value: T) {
    predicate IsFailure() {
      None?
    }

    function PropagateFailure<U>(): Option<U>
      requires None?
    {
      None
    }

    function Extract(): T
      requires Some?
    {
      value
    }
  }

  type byte = b: int | 0 <= b < 0x100

  const TWO_32 := 0x1_0000_0000
  type int32 = v: int | -0x8000_0000 <= v < 0x8000_0000

  /** What a field decoder returns: the value and the bytes it left unread. */
  type Parsed<T> = Option<(T, seq<byte>)>

  /** Go's conversion to `int32`: keep the low 32 bits, read as two's complement. */
  function ToInt32(v: int): (r: int32)
    ensures (r - v) % TWO_32 == 0
  {
    var low := v % TWO_32;
    if low < 0x8000_0000 then low else low - TWO_32
  }

  /** Only the low 32 bits matter, so a running sum may be truncated at any point. */
  lemma ToInt32Sum(a: int, b: int)
    ensures ToInt32(ToInt32(a) + b) == ToInt32(a + b)
  {
    var k := (ToInt32(a) - a) / TWO_32;
    assert ToInt32(a) == a + k * TWO_32;
    assert (a + b + k * TWO_32) % TWO_32 == (a + b) % TWO_32;
  }

  lemma ToInt32Fits(v: int32)
    ensures ToInt32(v) == v && ToInt32(v % TWO_32) == v
  {
  }

  /** The bytes of an ASCII literal. */
  function Ascii(s: string): (r: seq<byte>)
    ensures |r| == |s|
  {
    seq(|s|, i requires 0 <= i < |s| => s[i] as int % 0x100)
  }

  function Pow256(n: nat): (r: nat)
    ensures r > 0
  {
    if n == 0 then 1 else 0x100 * Pow256(n - 1)
  }

  /** Big-endian field of `width` bytes; higher bits of `v` are dropped. */
  function BigEndian(width: nat, v: nat): (s: seq<byte>)
    ensures |s| == width
  {
    if width == 0 then [] else BigEndian(width - 1, v / 0x100) + [v % 0x100]
  }

  function FromBigEndian(s: seq<byte>): nat {
    if s == [] then 0 else FromBigEndian(s[..|s| - 1]) * 0x100 + s[|s| - 1]
  }

  lemma {:induction false} BigEndianRoundTrip(width: nat, v: nat)
    requires v < Pow256(width)
    ensures FromBigEndian(BigEndian(width, v)) == v
  {
    if width > 0 {
      BigEndianRoundTrip(width - 1, v / 0x100);
      assert BigEndian(width, v)[..width - 1] == BigEndian(width - 1, v / 0x100);
    }
  }

  /** Signed field: the two's complement bits of `v`, big-endian. */
  function SignedField(width: nat, v: int): (s: seq<byte>)
    ensures |s| == width
  {
    BigEndian(width, v % Pow256(width))
  }

  function FromSignedField(s: seq<byte>): int {
    var u := FromBigEndian(s);
    if 2 * u < Pow256(|s|) then u else u - Pow256(|s|)
  }

  predicate FitsSigned(width: nat, v: int) {
    var m: int := Pow256(width);
    -m <= 2 * v < m
  }

  lemma SignedFieldRoundTrip(width: nat, v: int)
    requires FitsSigned(width, v)
    ensures FromSignedField(SignedField(width, v)) == v
  {
    var m := Pow256(width);
    BigEndianRoundTrip(width, v % m);
    if v >= 0 {
      assert v % m == v by { ModSmall(v, m); }
    } else {
      assert v % m == v + m by { ModSmall(v + m, m); assert (v + m) % m == v % m by { ModShift(v, m); } }
    }
  }

  lemma ModSmall(v: nat, m: nat)
    requires v < m
    ensures v % m == v
  {
  }

  lemma ModShift(v: int, m: nat)
    requires m > 0
    ensures (v + m) % m == v % m
  {
    var q, r := v / m, v % m;
    assert v + m == (q + 1) * m + r;
    ModUnique(v + m, m, q + 1, r);
  }

  lemma ModUnique(v: int, m: nat, q: int, r: nat)
    requires r < m && v == q * m + r
    ensures v % m == r
  {
    var d := v / m - q;
    assert v == (v / m) * m + v % m;
    assert d * m == r - v % m;
    assert d == 0;
  }

  /** Take a fixed number of bytes off the front. */
  function TakeBytes(s: seq<byte>, n: nat): Parsed<seq<byte>> {
    if n <= |s| then Some((s[..n], s[n..])) else None
  }

  lemma TakeBytesBack(a: seq<byte>, rest: seq<byte>)
    ensures TakeBytes(a + rest, |a|) == Some((a, rest))
  {
  }

  lemma FourFields(a: seq<byte>, b: seq<byte>, c: seq<byte>, d: seq<byte>, rest: seq<byte>)
    ensures (a + (b + (c + d))) + rest == a + (b + (c + (d + rest)))
  {
  }
}
