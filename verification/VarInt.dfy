/** proto/varint.go: var-ints, little-endian groups of seven bits over 32-bit two's complement.

    Bit operations are written as arithmetic on disjoint bit ranges: `u & 0x7F` is `u % 128`,
    `u >>= 7` is `u / 128`, setting bit 7 of a seven-bit group adds 128, and or-ing group `i`
    into an `int32` adds `group * 128^i` and keeps the low 32 bits. */
module VarInt {
  import opened Bytes

  const MAX_VAR_INT_BYTES := 5

  /** The encoding of an unsigned value, by definition of the format. */
  function Groups(u: nat): (s: seq<byte>)
    ensures |s| >= 1
  {
    if u < 0x80 then [u] else [u % 0x80 + 0x80] + Groups(u / 0x80)
  }

  function Encoding(v: int32): (s: seq<byte>)
    ensures 1 <= |s| <= MAX_VAR_INT_BYTES
  {
    GroupsLength(v % TWO_32);
    Groups(v % TWO_32)
  }

  lemma GroupsLength(u: nat)
    ensures |Groups(u)| == if u < 0x80 then 1 else 1 + |Groups(u / 0x80)|
    ensures u < TWO_32 ==> |Groups(u)| <= 5
    ensures u < 0x4000 <==> |Groups(u)| <= 2
    ensures u < 0x20_0000 ==> |Groups(u)| <= 3
  {
    if u >= 0x80 {
      var u1 := u / 0x80;
      if u1 >= 0x80 {
        var u2 := u1 / 0x80;
        assert Groups(u1) == [u1 % 0x80 + 0x80] + Groups(u2);
        if u2 >= 0x80 {
          var u3 := u2 / 0x80;
          assert Groups(u2) == [u2 % 0x80 + 0x80] + Groups(u3);
          if u3 >= 0x80 {
            assert Groups(u3) == [u3 % 0x80 + 0x80] + Groups(u3 / 0x80);
          }
        }
      }
    }
  }

  function Pow128(n: nat): nat {
    if n == 0 then 1 else 0x80 * Pow128(n - 1)
  }

  /** The value carried by a run of groups. */
  function GroupsValue(s: seq<byte>): nat {
    if s == [] then 0 else s[0] % 0x80 + 0x80 * GroupsValue(s[1..])
  }

  lemma {:induction false} GroupsValueSnoc(s: seq<byte>, b: byte)
    ensures GroupsValue(s + [b]) == GroupsValue(s) + (b % 0x80) as int * Pow128(|s|)
  {
    if s == [] {
      assert [b][1..] == [];
      assert [] + [b] == [b];
    } else {
      assert (s + [b])[1..] == s[1..] + [b];
      GroupsValueSnoc(s[1..], b);
      calc {
        GroupsValue(s + [b]);
        s[0] % 0x80 + 0x80 * (GroupsValue(s[1..]) + b % 0x80 * Pow128(|s| - 1));
        GroupsValue(s) + 0x80 * (b % 0x80 * Pow128(|s| - 1));
        GroupsValue(s) + b % 0x80 * Pow128(|s|);
      }
    }
  }

  /** Number of bytes up to and including the first one without a continuation bit,
      if that is among the first five. */
  function PrefixLength(s: seq<byte>, from: nat := 0): (n: Option<nat>)
    requires from <= 5
    ensures n.Some? ==> from < n.value <= |s| && n.value <= 5
    decreases 5 - from
  {
    if from >= 5 || from >= |s| then None
    else if s[from] < 0x80 then Some(from + 1)
    else PrefixLength(s, from + 1)
  }

  /** Decoding, by definition of the format: the value and the unread bytes. */
  function TakeVarInt(s: seq<byte>): (r: Parsed<int32>)
    ensures r.Some? ==> |r.value.1| < |s|
  {
    var n :- PrefixLength(s);
    Some((ToInt32(GroupsValue(s[..n])), s[n..]))
  }

  lemma {:induction false} NoPrefix(s: seq<byte>, from: nat)
    requires from <= 5
    requires forall k :: from <= k < 5 && k < |s| ==> s[k] >= 0x80
    ensures PrefixLength(s, from).None?
    decreases 5 - from
  {
    if from < 5 && from < |s| {
      NoPrefix(s, from + 1);
    }
  }

  lemma {:induction false} PrefixShape(s: seq<byte>, from: nat)
    requires from <= 5 && PrefixLength(s, from).Some?
    ensures var n := PrefixLength(s, from).value;
            s[n - 1] < 0x80 && forall k :: from <= k < n - 1 ==> s[k] >= 0x80
    decreases 5 - from
  {
    if s[from] >= 0x80 {
      PrefixShape(s, from + 1);
    }
  }

  lemma {:induction false} PrefixLengthUnique(s: seq<byte>, n: nat, from: nat)
    requires from < n <= |s| && n <= 5 && s[n - 1] < 0x80
    requires forall k :: from <= k < n - 1 ==> s[k] >= 0x80
    ensures PrefixLength(s, from) == Some(n)
    decreases n - from
  {
    if from < n - 1 {
      PrefixLengthUnique(s, n, from + 1);
    }
  }

  lemma {:induction false} GroupsShape(u: nat)
    ensures GroupsValue(Groups(u)) == u
    ensures Groups(u)[|Groups(u)| - 1] < 0x80
    ensures forall k :: 0 <= k < |Groups(u)| - 1 ==> Groups(u)[k] >= 0x80
  {
    if u >= 0x80 {
      GroupsShape(u / 0x80);
      assert Groups(u)[1..] == Groups(u / 0x80);
      forall k | 0 <= k < |Groups(u)| - 1
        ensures Groups(u)[k] >= 0x80
      {
        if k > 0 {
          assert Groups(u)[k] == Groups(u / 0x80)[k - 1];
        }
      }
    }
  }

  /** Round trip with any suffix: the value comes back and exactly the encoding is consumed. */
  lemma RoundTrip(v: int32, rest: seq<byte>)
    ensures 1 <= |Encoding(v)| <= 5
    ensures TakeVarInt(Encoding(v) + rest) == Some((v, rest))
    ensures PrefixLength(Encoding(v) + rest) == Some(|Encoding(v)|)
  {
    var e := Encoding(v);
    GroupsShape(v % TWO_32);
    var s := e + rest;
    assert forall k :: 0 <= k < |e| ==> s[k] == e[k];
    PrefixLengthUnique(s, |e|, 0);
    assert s[..|e|] == e;
    assert s[|e|..] == rest;
    ToInt32Fits(v);
  }

  /** Whether and where a var-int ends depends on its own bytes only. */
  lemma PrefixStable(s: seq<byte>, more: seq<byte>)
    requires PrefixLength(s).Some?
    ensures PrefixLength(s + more) == PrefixLength(s)
    ensures TakeVarInt(s + more) == Some((TakeVarInt(s).value.0, TakeVarInt(s).value.1 + more))
  {
    var n := PrefixLength(s).value;
    PrefixShape(s, 0);
    PrefixLengthUnique(s + more, n, 0);
    assert (s + more)[..n] == s[..n];
    assert (s + more)[n..] == s[n..] + more;
  }

  method EncodeVarInt(v: int32) returns (out: seq<byte>)
    ensures out == Encoding(v)
  {
    var u: nat := v % TWO_32;
    out := [];
    while true
      invariant out + Groups(u) == Encoding(v)
      decreases u
    {
      var b := u % 0x80;
      var next := u / 0x80;
      if next != 0 {
        b := b + 0x80;
      }
      assert Groups(u) == if next == 0 then [b] else [b] + Groups(next);
      out := out + [b];
      if next == 0 {
        break;
      }
      u := next;
    }
  }

  /** decodeVarInt: or every group into an int32. */
  method DecodeGroups(buf: seq<byte>) returns (result: int32)
    ensures result == ToInt32(GroupsValue(buf))
  {
    result := 0;
    var place: int := 1;
    for i := 0 to |buf|
      invariant place == Pow128(i)
      invariant result == ToInt32(GroupsValue(buf[..i]))
    {
      GroupsValueSnoc(buf[..i], buf[i]);
      assert buf[..i + 1] == buf[..i] + [buf[i]];
      var group: int := buf[i] % 0x80;
      ToInt32Sum(GroupsValue(buf[..i]), group * place);
      result := ToInt32(result + group * place);
      place := place * 0x80;
    }
    assert buf[..|buf|] == buf;
  }

  /** ReadVarInt: find the length first, then decode that many bytes. */
  method ReadVarInt(buf: seq<byte>) returns (consumed: nat, value: int32, ok: bool)
    ensures ok <==> TakeVarInt(buf).Some?
    ensures ok ==> consumed <= |buf| && TakeVarInt(buf) == Some((value, buf[consumed..]))
    ensures ok ==> PrefixLength(buf) == Some(consumed)
  {
    var max := if |buf| < 5 then |buf| else 5;
    var length := 1;
    while length <= max
      invariant 1 <= length <= max + 1
      invariant forall k :: 0 <= k < length - 1 ==> buf[k] >= 0x80
    {
      if buf[length - 1] < 0x80 {
        PrefixLengthUnique(buf, length, 0);
        value := DecodeGroups(buf[..length]);
        return length, value, true;
      }
      length := length + 1;
    }
    NoPrefix(buf, 0);
    return 0, 0, false;
  }
}
