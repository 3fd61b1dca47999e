/** online_auth.go: the CFB-8 stream of an encrypted connection (section 6.3 of NIST SP 800-38A with
    s = 8), for any block function. */
module Cfb8 {

  import opened Bytes

  /** The forward function of a block cipher. */
  type Cipher = seq<byte> -> seq<byte>

  // ---- exclusive or of bytes ----

  function Pow2(n: nat): nat {
    if n == 0 then 1 else 2 * Pow2(n - 1)
  }

  /** The exclusive or of the low `n` bits: a bit is set where the two differ. */
  function XorBits(n: nat, a: nat, b: nat): (r: nat)
    ensures r < Pow2(n)
  {
    if n == 0 then 0 else (if a % 2 == b % 2 then 0 else 1) + 2 * XorBits(n - 1, a / 2, b / 2)
  }

  lemma ByteRange()
    ensures Pow2(8) == 0x100
  {
    assert Pow2(4) == 16;
  }

  function Xor(a: byte, b: byte): byte {
    ByteRange();
    XorBits(8, a, b)
  }

  lemma {:induction false} XorBitsTwice(n: nat, a: nat, b: nat)
    requires a < Pow2(n)
    ensures XorBits(n, XorBits(n, a, b), b) == a
  {
    if n > 0 {
      var x, rest := XorBits(n, a, b), XorBits(n - 1, a / 2, b / 2);
      assert x / 2 == rest && (x % 2 == b % 2 <==> a % 2 == 0);
      XorBitsTwice(n - 1, a / 2, b / 2);
    }
  }

  lemma XorTwice(a: byte, b: byte)
    ensures Xor(Xor(a, b), b) == a
  {
    ByteRange();
    XorBitsTwice(8, a, b);
  }

  // ---- the mode ----

  /** The keystream byte for a shift register. */
  function Key(f: Cipher, register: seq<byte>): byte {
    var e := f(register);
    if e == [] then 0 else e[0]
  }

  function Shift(register: seq<byte>, x: byte): (r: seq<byte>)
    ensures |r| == |register|
  {
    if register == [] then [] else register[1..] + [x]
  }

  /** Feedback is always the ciphertext byte: the output when encrypting, the input when decrypting. */
  function Feedback(decrypt: bool, x: byte, out: byte): byte {
    if decrypt then x else out
  }

  /** Output and final shift register for a run of input. */
  function Apply(f: Cipher, decrypt: bool, register: seq<byte>, src: seq<byte>): (r: (seq<byte>, seq<byte>))
    ensures |r.0| == |src| && |r.1| == |register|
    decreases src
  {
    if src == [] then ([], register)
    else
      var out := Xor(src[0], Key(f, register));
      var (rest, last) := Apply(f, decrypt, Shift(register, Feedback(decrypt, src[0], out)), src[1..]);
      ([out] + rest, last)
  }

  lemma ApplyCons(f: Cipher, decrypt: bool, register: seq<byte>, x: byte, src: seq<byte>)
    ensures var out := Xor(x, Key(f, register));
            var (rest, last) := Apply(f, decrypt, Shift(register, Feedback(decrypt, x, out)), src);
            Apply(f, decrypt, register, [x] + src) == ([out] + rest, last)
  {
    assert ([x] + src)[1..] == src;
  }

  lemma ApplyNone(f: Cipher, decrypt: bool, register: seq<byte>)
    ensures Apply(f, decrypt, register, []) == ([], register)
  {
  }

  /** Processing a then b is processing a + b. */
  lemma {:induction false} ApplyConcat(f: Cipher, decrypt: bool, register: seq<byte>, first: seq<byte>, second: seq<byte>)
    ensures var (out1, mid) := Apply(f, decrypt, register, first);
            var (out2, last) := Apply(f, decrypt, mid, second);
            Apply(f, decrypt, register, first + second) == (out1 + out2, last)
    decreases first
  {
    hide Apply, Xor, Key, Shift;
    if first == [] {
      ApplyNone(f, decrypt, register);
      assert first + second == second;
      assert [] + Apply(f, decrypt, register, second).0 == Apply(f, decrypt, register, second).0;
    } else {
      var x := first[0];
      var out := Xor(x, Key(f, register));
      var next := Shift(register, Feedback(decrypt, x, out));
      assert first == [x] + first[1..] && first + second == [x] + (first[1..] + second);
      ApplyCons(f, decrypt, register, x, first[1..]);
      ApplyCons(f, decrypt, register, x, first[1..] + second);
      ApplyConcat(f, decrypt, next, first[1..], second);
      var (o1, mid) := Apply(f, decrypt, next, first[1..]);
      var o2 := Apply(f, decrypt, mid, second).0;
      assert [out] + (o1 + o2) == [out] + o1 + o2;
    }
  }

  /** Decryption undoes encryption and leaves both sides with the same shift register. */
  lemma {:induction false} Inversion(f: Cipher, register: seq<byte>, plain: seq<byte>)
    ensures var (cipher, last) := Apply(f, false, register, plain);
            Apply(f, true, register, cipher) == (plain, last)
    decreases plain
  {
    hide Apply, Xor, Key, Shift;
    if plain == [] {
      ApplyNone(f, false, register);
      ApplyNone(f, true, register);
    } else {
      var p, key := plain[0], Key(f, register);
      var c := Xor(p, key);
      var next := Shift(register, c);
      assert plain == [p] + plain[1..];
      ApplyCons(f, false, register, p, plain[1..]);
      ApplyCons(f, true, register, c, Apply(f, false, next, plain[1..]).0);
      XorTwice(p, key);
      Inversion(f, next, plain[1..]);
    }
  }

  /** The reference: the input block for byte `j` is the last `n` bytes of the IV and the
      ciphertext so far, and the ciphertext byte is the plaintext byte mixed with its first byte. */
  ghost predicate IsCfb8(f: Cipher, iv: seq<byte>, plain: seq<byte>, cipher: seq<byte>) {
    && |cipher| == |plain|
    && forall j :: 0 <= j < |plain| ==> cipher[j] == Xor(plain[j], Key(f, (iv + cipher)[j..j + |iv|]))
  }

  lemma {:induction false} EncryptIsCfb8(f: Cipher, iv: seq<byte>, plain: seq<byte>)
    requires iv != []
    ensures IsCfb8(f, iv, plain, Apply(f, false, iv, plain).0)
    decreases plain
  {
    hide Apply, Xor, Key;
    if plain == [] {
      ApplyNone(f, false, iv);
    } else {
      var n := |iv|;
      var c := Xor(plain[0], Key(f, iv));
      var next := Shift(iv, c);
      assert plain == [plain[0]] + plain[1..];
      ApplyCons(f, false, iv, plain[0], plain[1..]);
      EncryptIsCfb8(f, next, plain[1..]);
      var rest := Apply(f, false, next, plain[1..]).0;
      var cipher := [c] + rest;
      assert (iv + cipher)[0..n] == iv;
      forall j | 0 <= j < |plain|
        ensures cipher[j] == Xor(plain[j], Key(f, (iv + cipher)[j..j + n]))
      {
        if j > 0 {
          assert (iv + cipher)[j..j + n] == (next + rest)[j - 1..j - 1 + n];
          assert cipher[j] == rest[j - 1] && plain[j] == plain[1..][j - 1];
        }
      }
    }
  }

  function Join(pieces: seq<seq<byte>>): seq<byte> {
    if pieces == [] then [] else pieces[0] + Join(pieces[1..])
  }

  /** The bytes of successive calls on one stream. */
  function ApplyPieces(f: Cipher, decrypt: bool, register: seq<byte>, pieces: seq<seq<byte>>): (seq<byte>, seq<byte>)
    decreases pieces
  {
    if pieces == [] then ([], register)
    else
      var (out, next) := Apply(f, decrypt, register, pieces[0]);
      var (rest, last) := ApplyPieces(f, decrypt, next, pieces[1..]);
      (out + rest, last)
  }

  lemma {:induction false} PiecesAreOneCall(f: Cipher, decrypt: bool, register: seq<byte>, pieces: seq<seq<byte>>)
    ensures ApplyPieces(f, decrypt, register, pieces) == Apply(f, decrypt, register, Join(pieces))
    decreases pieces
  {
    hide Apply;
    if pieces == [] {
      ApplyNone(f, decrypt, register);
    } else {
      ApplyConcat(f, decrypt, register, pieces[0], Join(pieces[1..]));
      PiecesAreOneCall(f, decrypt, Apply(f, decrypt, register, pieces[0]).1, pieces[1..]);
    }
  }

  /** Inversion under any chunking: however the plaintext is split into writes and the ciphertext
      into reads, the reader's bytes are the plaintext. */
  lemma ChunkedInversion(f: Cipher, iv: seq<byte>, writes: seq<seq<byte>>, received: seq<seq<byte>>)
    requires Join(received) == ApplyPieces(f, false, iv, writes).0
    ensures ApplyPieces(f, true, iv, received).0 == Join(writes)
    ensures ApplyPieces(f, true, iv, received).1 == ApplyPieces(f, false, iv, writes).1
  {
    hide Apply, ApplyPieces, Join;
    PiecesAreOneCall(f, false, iv, writes);
    PiecesAreOneCall(f, true, iv, received);
    Inversion(f, iv, Join(writes));
  }

  class Stream {
    const cipher: Cipher
    const decrypt: bool
    const iv: array<byte>
    const scratch: array<byte>

    /** The register and its copy are one block long, and the cipher maps blocks to blocks. */
    ghost predicate Valid() {
      && iv != scratch && scratch.Length == iv.Length > 0
      && forall x :: |x| == iv.Length ==> |cipher(x)| == iv.Length
    }

    constructor (f: Cipher, initial: seq<byte>, forDecryption: bool)
      requires initial != [] && forall x :: |x| == |initial| ==> |f(x)| == |initial|
      ensures Valid() && fresh(iv) && fresh(scratch)
      ensures cipher == f && decrypt == forDecryption && iv[..] == initial
    {
      cipher, decrypt := f, forDecryption;
      iv := new byte[|initial|](i requires 0 <= i < |initial| => initial[i]);
      scratch := new byte[|initial|](_ => 0);
    }

    /** One byte: encrypt the register in place, mix, shift the register and feed back. */
    method MixByte(x: byte) returns (out: byte)
      requires Valid()
      modifies iv, scratch
      ensures out == Xor(x, Key(cipher, old(iv[..])))
      ensures iv[..] == Shift(old(iv[..]), Feedback(decrypt, x, out))
    {
      hide Xor;
      ghost var register := iv[..];
      forall i | 0 <= i < iv.Length { scratch[i] := iv[i]; }
      assert scratch[..] == register == iv[..];
      var e := cipher(iv[..]);
      forall i | 0 <= i < iv.Length { iv[i] := e[i]; }
      out := Xor(x, iv[0]);
      forall i | 0 <= i < iv.Length - 1 { iv[i] := scratch[i + 1]; }
      iv[iv.Length - 1] := if decrypt then x else out;
      assert forall i :: 0 <= i < iv.Length - 1 ==> iv[i] == register[i + 1];
    }

    /** XORKeyStream over the first `n` bytes, where `dst` may be `src` itself. */
    method XorKeyStream(dst: array<byte>, src: array<byte>, n: nat)
      requires Valid() && n <= src.Length && n <= dst.Length
      requires dst != iv && dst != scratch && src != iv && src != scratch
      modifies dst, iv, scratch
      ensures (dst[..n], iv[..]) == Apply(cipher, decrypt, old(iv[..]), old(src[..n]))
      ensures dst[n..] == old(dst[n..])
    {
      hide Apply, Xor, Key, Shift;
      ghost var input, start := src[..n], iv[..];
      ApplyNone(cipher, decrypt, start);
      assert input[..0] == [];
      for i := 0 to n
        invariant (dst[..i], iv[..]) == Apply(cipher, decrypt, start, input[..i])
        invariant src[i..n] == input[i..]
        invariant dst[n..] == old(dst[n..])
      {
        assert src[i] == src[i..n][0] == input[i];
        assert forall k :: i < k < n ==> src[k] == src[i..n][k - i];
        ghost var done, register := dst[..i], iv[..];
        var out := MixByte(src[i]);
        dst[i] := out;
        ApplySnoc(cipher, decrypt, start, input[..i], input[i]);
        assert input[..i] + [input[i]] == input[..i + 1];
        assert dst[..i + 1] == done + [out];
        assert src[i + 1..n] == input[i + 1..];
      }
      assert input[..n] == input;
    }
  }

  /** What one write on the underlying connection does: accept some bytes, and possibly fail. */
  datatype WriteResult = Wrote(n: nat, failed: bool)

  /** minecraftEncryptedConn.Read: decrypt the `n` received bytes in place. */
  method ReadEncrypted(reader: Stream, p: array<byte>, n: nat)
    requires reader.Valid() && n <= p.Length && p != reader.iv && p != reader.scratch
    modifies p, reader.iv, reader.scratch
    ensures (p[..n], reader.iv[..]) == Apply(reader.cipher, reader.decrypt, old(reader.iv[..]), old(p[..n]))
    ensures p[n..] == old(p[n..])
  {
    if n > 0 {
      reader.XorKeyStream(p, p, n);
    } else {
      assert p[..n] == [];
    }
  }

  /** minecraftEncryptedConn.Write: everything is encrypted once, then written until it is out. A
      write that succeeds put exactly the ciphertext on the wire, one that fails a prefix of it. */
  method WriteEncrypted(writer: Stream, p: array<byte>, results: seq<WriteResult>) returns (wire: seq<byte>, written: nat, ok: bool)
    requires writer.Valid() && p != writer.iv && p != writer.scratch
    modifies writer.iv, writer.scratch
    ensures var (cipher, register) := Apply(writer.cipher, writer.decrypt, old(writer.iv[..]), old(p[..]));
            && writer.iv[..] == register
            && wire <= cipher && written == |wire|
            && (ok <==> Accepts(results, p.Length))
            && (ok ==> wire == cipher)
  {
    hide Apply;
    var encrypted := new byte[p.Length](_ => 0);
    writer.XorKeyStream(encrypted, p, p.Length);
    ghost var cipher := encrypted[..p.Length];
    assert cipher == encrypted[..] && p[..p.Length] == p[..];
    var i := 0;
    wire, written := [], 0;
    while written < encrypted.Length
      invariant 0 <= written <= encrypted.Length && i <= |results|
      invariant wire == encrypted[..written] && encrypted[..] == cipher
      invariant Accepts(results, p.Length) == Accepts(results[i..], p.Length - written)
      decreases |results| - i
    {
      if i >= |results| {
        return wire, written, false;
      }
      var left := encrypted.Length - written;
      var n := if results[i].n < left then results[i].n else left;
      wire := wire + encrypted[written..written + n];
      written := written + n;
      if results[i].failed || n == 0 {
        return wire, written, false;
      }
      assert results[i..][0] == results[i] && results[i..][1..] == results[i + 1..];
      i := i + 1;
    }
    ok := true;
  }

  /** The connection accepts `left` more bytes before it fails or stalls. */
  predicate Accepts(results: seq<WriteResult>, left: nat)
    decreases results
  {
    if left == 0 then true
    else if results == [] || results[0].failed || results[0].n == 0 then false
    else Accepts(results[1..], if results[0].n < left then left - results[0].n else 0)
  }

  /** The bytes taken by the first `m` writes. */
  function Taken(results: seq<WriteResult>, m: nat): nat
    requires m <= |results|
  {
    if m == 0 then 0 else results[0].n + Taken(results[1..], m - 1)
  }

  /** Some run of writes, none of which fails or takes nothing, takes at least `left` bytes. */
  ghost predicate EnoughWrites(results: seq<WriteResult>, left: nat, m: nat) {
    m <= |results| && (forall i :: 0 <= i < m ==> !results[i].failed && results[i].n > 0) && Taken(results, m) >= left
  }

  /** Exactly when the connection accepts so many bytes. */
  lemma {:induction false} AcceptsExactly(results: seq<WriteResult>, left: nat)
    ensures Accepts(results, left) <==> exists m: nat :: EnoughWrites(results, left, m)
    decreases results
  {
    if left == 0 {
      assert EnoughWrites(results, left, 0);
    } else if results != [] {
      var less := if results[0].n < left then left - results[0].n else 0;
      AcceptsExactly(results[1..], less);
      if Accepts(results, left) {
        var m: nat :| EnoughWrites(results[1..], less, m);
        assert EnoughWrites(results, left, m + 1);
      }
      if m: nat :| EnoughWrites(results, left, m) {
        assert m > 0 && !results[0].failed && results[0].n > 0;
        assert EnoughWrites(results[1..], less, m - 1);
      }
    }
  }

  lemma ApplySnoc(f: Cipher, decrypt: bool, register: seq<byte>, src: seq<byte>, x: byte)
    ensures var (out, mid) := Apply(f, decrypt, register, src);
            var last := Xor(x, Key(f, mid));
            Apply(f, decrypt, register, src + [x]) == (out + [last], Shift(mid, Feedback(decrypt, x, last)))
  {
    hide Apply, Xor, Key, Shift;
    ApplyConcat(f, decrypt, register, src, [x]);
    var mid := Apply(f, decrypt, register, src).1;
    ApplyCons(f, decrypt, mid, x, []);
    assert [x] + [] == [x];
    var last := Xor(x, Key(f, mid));
    assert [last] + [] == [last];
    ApplyNone(f, decrypt, Shift(mid, Feedback(decrypt, x, last)));
  }
}
