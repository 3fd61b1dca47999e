/** proto/stream.go: which splits of a stream the reader survives, told from the sizes of the pieces and
    packets alone, without following the reader.

    A read takes at most 8 KiB, so even a stream that arrives in one piece is split. For frames that
    leave room for a whole read, the ends of the reads are fixed by the pieces; near the buffer limit
    reads are shortened, and the sizes are added up read by read. */
module ReadSizes {
  import opened Bytes
  import opened VarInt
  import opened Framing
  import opened PacketStream

  /** Some read ends when exactly `k` bytes of the stream have arrived, `have` of them already. */
  predicate EndsAt(have: nat, script: seq<ReadEvent>, k: nat)
    decreases |Flat(script)|
  {
    k == have ||
    (script != [] && script[0].Data? && script[0].bytes != [] &&
     var b := script[0].bytes;
     if |b| <= BUF_SIZE then EndsAt(have + |b|, script[1..], k)
     else
       FlatCons(Data(b[BUF_SIZE..]), script[1..]);
       EndsAt(have + BUF_SIZE, [Data(b[BUF_SIZE..])] + script[1..], k))
  }

  lemma {:induction false} EndsAtOrLater(have: nat, script: seq<ReadEvent>, k: nat)
    requires EndsAt(have, script, k)
    ensures k >= have
    decreases |Flat(script)|
  {
    if k != have {
      var b := script[0].bytes;
      if |b| <= BUF_SIZE {
        EndsAtOrLater(have + |b|, script[1..], k);
      } else {
        FlatCons(Data(b[BUF_SIZE..]), script[1..]);
        EndsAtOrLater(have + BUF_SIZE, [Data(b[BUF_SIZE..])] + script[1..], k);
      }
    }
  }

  lemma {:induction false} EndsAtShift(have: nat, script: seq<ReadEvent>, k: nat, d: nat)
    ensures EndsAt(have + d, script, k + d) <==> EndsAt(have, script, k)
    decreases |Flat(script)|
  {
    if k != have && script != [] && script[0].Data? && script[0].bytes != [] {
      var b := script[0].bytes;
      if |b| <= BUF_SIZE {
        EndsAtShift(have + |b|, script[1..], k, d);
      } else {
        FlatCons(Data(b[BUF_SIZE..]), script[1..]);
        EndsAtShift(have + BUF_SIZE, [Data(b[BUF_SIZE..])] + script[1..], k, d);
      }
    }
  }

  /** One read, with room for all of it, moves to the next end. */
  lemma ReadMoreEnds(s: Source, k: nat)
    requires Chunked(s.script) && |s.buf| <= MAX_BUFFERED_BYTES - BUF_SIZE && AfterReadMore(s).1.None?
    ensures var t := AfterReadMore(s).0;
            EndsAt(|s.buf|, s.script, k) <==> k == |s.buf| || EndsAt(|t.buf|, t.script, k)
  {
  }

  /** Filling up to `want` bytes skips only ends below `want`. */
  lemma {:induction false} FillEnds(s: Source, want: nat, k: nat)
    requires Chunked(s.script) && want <= MAX_BUFFERED_BYTES - BUF_SIZE + 1 && want <= k
    requires AfterFill(s, want).1.None?
    ensures var f := AfterFill(s, want).0;
            EndsAt(|s.buf|, s.script, k) <==> EndsAt(|f.buf|, f.script, k)
    decreases want - |s.buf|
  {
    hide EndsAt, AfterReadMore, Flat;
    if |s.buf| < want {
      ReadMoreEnds(s, k);
      ReadMoreConserves(s);
      FillEnds(AfterReadMore(s).0, want, k);
    }
  }

  /** A packet within the limits whose frame leaves room for a whole read. */
  predicate Roomy(z: Zlib, mode: int32, p: RawPacket) {
    Fits(z, mode, p) && |EncodeWithLen(z, mode, p)| <= MAX_BUFFERED_BYTES - BUF_SIZE
  }

  lemma AtMostThreeLengthBytes(z: Zlib, mode: int32, p: RawPacket)
    requires Fits(z, mode, p)
    ensures LengthBytes(z, mode, p) <= 3
  {
    GroupsLength(|EncodeWithoutLen(z, mode, p)|);
    ToInt32Fits(|EncodeWithoutLen(z, mode, p)|);
  }

  /** The prefix of the next frame is whole when it is parsed, unless it has three bytes and a read ends
      after the second. */
  lemma NextPrefixArrives(z: Zlib, mode: int32, s: Source, p: RawPacket, rest: seq<byte>)
    requires Fits(z, mode, p) && Chunked(s.script)
    requires Total(s) == EncodeWithLen(z, mode, p) + rest
    ensures Arrived(s) >= LengthBytes(z, mode, p) <==> LengthBytes(z, mode, p) <= 2 || !EndsAt(|s.buf|, s.script, 2)
  {
    hide EncodeWithLen, EncodeWithoutLen, Flat, Fits;
    FrameSize(z, mode, p);
    AtMostThreeLengthBytes(z, mode, p);
    hide LengthBytes;
    FillSucceeds(s, 2);
    FillEnds(s, 2, 2);
    var f := AfterFill(s, 2).0;
    if EndsAt(|f.buf|, f.script, 2) {
      EndsAtOrLater(|f.buf|, f.script, 2);
    }
    assert |f.buf| == 2 ==> EndsAt(|f.buf|, f.script, 2);
  }

  /** Where a frame that is read leaves the reader. */
  lemma ReadState(z: Zlib, mode: int32, s: Source, p: RawPacket, rest: seq<byte>)
    requires Lawful(z) && Fits(z, mode, p)
    requires Chunked(s.script) && |s.buf| <= MAX_BUFFERED_BYTES
    requires Total(s) == EncodeWithLen(z, mode, p) + rest
    requires Arrived(s) >= LengthBytes(z, mode, p)
    ensures var n := |EncodeWithLen(z, mode, p)|;
            var f := AfterFill(s, 2).0;
            var g := AfterFill(f, n).0;
            AfterFill(s, 2).1.None? && AfterFill(f, n).1.None? && Chunked(f.script)
            && AfterReadPacket(z, mode, s).1 == g.(buf := g.buf[n..])
  {
    hide TakeVarInt, AfterFill, Encoding, EncodeWithoutLen, Flat, Chunked, DecodeWithLen;
    FrameSize(z, mode, p);
    FillSucceeds(s, 2);
    FillConserves(s, 2);
    var f := AfterFill(s, 2).0;
    PrefixParses(z, mode, f, p, rest);
    FillSucceeds(f, |EncodeWithLen(z, mode, p)|);
    ReadFrame(z, mode, s, p, rest);
  }

  /** Reading a frame keeps the ends that lie beyond it. */
  lemma ReadKeepsEnds(z: Zlib, mode: int32, s: Source, p: RawPacket, rest: seq<byte>, k: nat)
    requires Lawful(z) && Roomy(z, mode, p)
    requires Chunked(s.script) && |s.buf| <= MAX_BUFFERED_BYTES
    requires Total(s) == EncodeWithLen(z, mode, p) + rest
    requires Arrived(s) >= LengthBytes(z, mode, p)
    ensures var t := AfterReadPacket(z, mode, s).1;
            EndsAt(|t.buf|, t.script, k) <==> EndsAt(|s.buf|, s.script, k + |EncodeWithLen(z, mode, p)|)
  {
    hide EndsAt, AfterFill, AfterReadPacket, EncodeWithLen, EncodeWithoutLen, Flat, Chunked, LengthBytes, Fits;
    var n := |EncodeWithLen(z, mode, p)|;
    FrameSize(z, mode, p);
    ReadState(z, mode, s, p, rest);
    var f := AfterFill(s, 2).0;
    var g := AfterFill(f, n).0;
    FillEnds(s, 2, k + n);
    FillEnds(f, n, k + n);
    EndsAtShift(|g.buf| - n, g.script, k, n);
  }

  /** No read ends two bytes into a three-byte length prefix of these packets, the first of which starts
      at offset `at`. */
  predicate NoPrefixSplit(z: Zlib, mode: int32, have: nat, script: seq<ReadEvent>, ps: seq<RawPacket>, at: nat)
    decreases ps
  {
    ps == [] ||
    ((LengthBytes(z, mode, ps[0]) <= 2 || !EndsAt(have, script, at + 2)) &&
     NoPrefixSplit(z, mode, have, script, ps[1..], at + |EncodeWithLen(z, mode, ps[0])|))
  }

  lemma {:induction false} SameEnds(
    z: Zlib, mode: int32, have: nat, script: seq<ReadEvent>, later: nat, rest: seq<ReadEvent>, ps: seq<RawPacket>, at: nat, d: nat)
    requires forall k: nat :: EndsAt(later, rest, k) <==> EndsAt(have, script, k + d)
    ensures NoPrefixSplit(z, mode, later, rest, ps, at) <==> NoPrefixSplit(z, mode, have, script, ps, at + d)
    decreases ps
  {
    hide EndsAt, LengthBytes, EncodeWithLen;
    if ps != [] {
      assert EndsAt(later, rest, at + 2) <==> EndsAt(have, script, at + 2 + d);
      SameEnds(z, mode, have, script, later, rest, ps[1..], at + |EncodeWithLen(z, mode, ps[0])|, d);
    }
  }

  /** Every prefix arrives whole exactly if no read ends two bytes into a prefix of three. */
  lemma {:induction false} PrefixesArriveByReadEnds(z: Zlib, mode: int32, s: Source, ps: seq<RawPacket>, rest: seq<byte>)
    requires Lawful(z) && forall i :: 0 <= i < |ps| ==> Roomy(z, mode, ps[i])
    requires Chunked(s.script) && |s.buf| <= MAX_BUFFERED_BYTES
    requires Total(s) == Stream(z, mode, ps) + rest
    ensures PrefixesArriveWhole(z, mode, s, ps) <==> NoPrefixSplit(z, mode, |s.buf|, s.script, ps, 0)
    decreases ps
  {
    hide AfterReadPacket, Arrived, Fits, LengthBytes, EncodeWithLen, Chunked, EndsAt, Flat;
    if ps != [] {
      var p := ps[0];
      var n := |EncodeWithLen(z, mode, p)|;
      var tail := Stream(z, mode, ps[1..]) + rest;
      assert Total(s) == EncodeWithLen(z, mode, p) + tail;
      assert Roomy(z, mode, p);
      NextPrefixArrives(z, mode, s, p, tail);
      if Arrived(s) >= LengthBytes(z, mode, p) {
        ReadFrame(z, mode, s, p, tail);
        ReadConserves(z, mode, s);
        var t := AfterReadPacket(z, mode, s).1;
        forall k: nat
          ensures EndsAt(|t.buf|, t.script, k) <==> EndsAt(|s.buf|, s.script, k + n)
        {
          ReadKeepsEnds(z, mode, s, p, tail, k);
        }
        SameEnds(z, mode, |s.buf|, s.script, |t.buf|, t.script, ps[1..], 0, n);
        PrefixesArriveByReadEnds(z, mode, t, ps[1..], rest);
      }
    }
  }

  /** Chunking independence for frames that leave room: successive reads return exactly the packets
      written, in order, if and only if no read ends two bytes into a three-byte length prefix. */
  lemma ChunkingByReadEnds(z: Zlib, mode: int32, s: Source, ps: seq<RawPacket>, rest: seq<byte>)
    requires Lawful(z) && forall i :: 0 <= i < |ps| ==> Roomy(z, mode, ps[i])
    requires Chunked(s.script) && |s.buf| <= MAX_BUFFERED_BYTES
    requires Total(s) == Stream(z, mode, ps) + rest
    ensures ReadMany(z, mode, s, |ps|).0 == ps <==> NoPrefixSplit(z, mode, |s.buf|, s.script, ps, 0)
  {
    hide ReadMany, Fits, EncodeWithLen, Stream, Chunked, NoPrefixSplit, PrefixesArriveWhole;
    assert forall i :: 0 <= i < |ps| ==> Roomy(z, mode, ps[i]) ==> Fits(z, mode, ps[i]);
    PrefixesArriveByReadEnds(z, mode, s, ps, rest);
    ChunkingIndependence(z, mode, s, ps, rest);
  }

  // ---- all frames ----

  function Sizes(script: seq<ReadEvent>): (r: seq<nat>)
    ensures |r| == |script|
  {
    seq(|script|, i requires 0 <= i < |script| => if script[i].Data? then |script[i].bytes| else 0)
  }

  /** Bytes buffered, and sizes of the pieces still to come, when reading up to `want` bytes stops. */
  function Ahead(have: nat, sizes: seq<nat>, want: nat): (nat, seq<nat>)
    decreases want - have
  {
    if have >= want || have >= MAX_BUFFERED_BYTES || sizes == [] || sizes[0] == 0 then (have, sizes)
    else
      var room := MAX_BUFFERED_BYTES - have;
      var most := if room < BUF_SIZE then room else BUF_SIZE;
      if sizes[0] <= most then Ahead(have + sizes[0], sizes[1..], want)
      else Ahead(have + most, [sizes[0] - most] + sizes[1..], want)
  }

  lemma ReadMoreSizes(s: Source)
    requires Chunked(s.script) && s.script != [] && |s.buf| < MAX_BUFFERED_BYTES
    ensures var (t, e) := AfterReadMore(s);
            var room := MAX_BUFFERED_BYTES - |s.buf|;
            var most := if room < BUF_SIZE then room else BUF_SIZE;
            var first := |s.script[0].bytes|;
            && e.None?
            && (if first <= most then |t.buf| == |s.buf| + first && Sizes(t.script) == Sizes(s.script)[1..]
                else |t.buf| == |s.buf| + most && Sizes(t.script) == [first - most] + Sizes(s.script)[1..])
  {
  }

  lemma {:induction false} FillIsAhead(s: Source, want: nat)
    requires Chunked(s.script)
    ensures var f := AfterFill(s, want).0; (|f.buf|, Sizes(f.script)) == Ahead(|s.buf|, Sizes(s.script), want)
    decreases want - |s.buf|
  {
    hide AfterReadMore, Sizes, Flat;
    if |s.buf| < want {
      NoPieces(s.script);
      if s.script != [] && |s.buf| < MAX_BUFFERED_BYTES {
        ReadMoreSizes(s);
        ReadMoreConserves(s);
        FillIsAhead(AfterReadMore(s).0, want);
      } else {
        ReadMoreStops(s);
      }
    }
  }

  lemma NoPieces(script: seq<ReadEvent>)
    requires Chunked(script)
    ensures script != [] ==> Sizes(script)[0] == |script[0].bytes| > 0
  {
  }

  lemma ReadMoreStops(s: Source)
    requires s.script == [] || |s.buf| >= MAX_BUFFERED_BYTES
    ensures AfterReadMore(s).1.Some? && AfterReadMore(s).0 == s
  {
  }

  /** The length of a frame's prefix and of the whole frame. */
  datatype Extent = Extent(prefix: nat, frame: nat)

  function Extents(z: Zlib, mode: int32, ps: seq<RawPacket>): (r: seq<Extent>)
    ensures |r| == |ps|
  {
    seq(|ps|, i requires 0 <= i < |ps| => Extent(LengthBytes(z, mode, ps[i]), |EncodeWithLen(z, mode, ps[i])|))
  }

  /** Adding up sizes: each prefix is there as soon as two bytes are, and each frame can be completed. */
  predicate SizesSuffice(have: nat, sizes: seq<nat>, frames: seq<Extent>)
    decreases frames
  {
    frames == [] ||
    (var (two, coming) := Ahead(have, sizes, 2);
     var (full, later) := Ahead(two, coming, frames[0].frame);
     two >= frames[0].prefix && full >= frames[0].frame &&
     SizesSuffice(full - frames[0].frame, later, frames[1..]))
  }

  /** One read, followed by its sizes. */
  lemma ReadFollowsSizes(z: Zlib, mode: int32, s: Source, p: RawPacket, rest: seq<byte>)
    requires Lawful(z) && Fits(z, mode, p)
    requires Chunked(s.script) && |s.buf| <= MAX_BUFFERED_BYTES
    requires Total(s) == EncodeWithLen(z, mode, p) + rest
    ensures var n := |EncodeWithLen(z, mode, p)|;
            var (two, coming) := Ahead(|s.buf|, Sizes(s.script), 2);
            var (full, later) := Ahead(two, coming, n);
            && two == Arrived(s)
            && (two >= LengthBytes(z, mode, p) ==>
                  var t := AfterReadPacket(z, mode, s).1;
                  full >= n && |t.buf| == full - n && Sizes(t.script) == later)
  {
    hide AfterReadPacket, AfterFill, Ahead, Sizes, Fits, LengthBytes, EncodeWithLen, Chunked, Flat;
    FillIsAhead(s, 2);
    if Arrived(s) >= LengthBytes(z, mode, p) {
      ReadState(z, mode, s, p, rest);
      FillIsAhead(AfterFill(s, 2).0, |EncodeWithLen(z, mode, p)|);
    }
  }

  lemma ExtentsUnfold(z: Zlib, mode: int32, ps: seq<RawPacket>)
    requires ps != []
    ensures Extents(z, mode, ps)[0] == Extent(LengthBytes(z, mode, ps[0]), |EncodeWithLen(z, mode, ps[0])|)
    ensures Extents(z, mode, ps)[1..] == Extents(z, mode, ps[1..])
  {
    hide LengthBytes, EncodeWithLen;
  }

  /** Every prefix arrives whole exactly if the sizes of pieces and frames say so, whatever the frames. */
  lemma {:induction false} PrefixesArriveBySizes(z: Zlib, mode: int32, s: Source, ps: seq<RawPacket>, rest: seq<byte>)
    requires Lawful(z) && forall i :: 0 <= i < |ps| ==> Fits(z, mode, ps[i])
    requires Chunked(s.script) && |s.buf| <= MAX_BUFFERED_BYTES
    requires Total(s) == Stream(z, mode, ps) + rest
    ensures PrefixesArriveWhole(z, mode, s, ps) <==> SizesSuffice(|s.buf|, Sizes(s.script), Extents(z, mode, ps))
    decreases ps
  {
    hide AfterReadPacket, Arrived, Ahead, Sizes, Extents, Fits, LengthBytes, EncodeWithLen, Chunked, Flat, Lawful;
    if ps != [] {
      var p := ps[0];
      var tail := Stream(z, mode, ps[1..]) + rest;
      assert Total(s) == EncodeWithLen(z, mode, p) + tail;
      ExtentsUnfold(z, mode, ps);
      ReadFollowsSizes(z, mode, s, p, tail);
      if Arrived(s) >= LengthBytes(z, mode, p) {
        ReadFrame(z, mode, s, p, tail);
        ReadConserves(z, mode, s);
        PrefixesArriveBySizes(z, mode, AfterReadPacket(z, mode, s).1, ps[1..], rest);
      }
    }
  }

  /** Chunking independence from sizes alone: for all frames within the limits, successive reads return
      exactly the packets written, in order, if and only if the sizes suffice. */
  lemma ChunkingBySizes(z: Zlib, mode: int32, s: Source, ps: seq<RawPacket>, rest: seq<byte>)
    requires Lawful(z) && forall i :: 0 <= i < |ps| ==> Fits(z, mode, ps[i])
    requires Chunked(s.script) && |s.buf| <= MAX_BUFFERED_BYTES
    requires Total(s) == Stream(z, mode, ps) + rest
    ensures ReadMany(z, mode, s, |ps|).0 == ps <==> SizesSuffice(|s.buf|, Sizes(s.script), Extents(z, mode, ps))
  {
    hide ReadMany, Fits, Stream, Chunked, SizesSuffice, PrefixesArriveWhole, Extents, Sizes;
    PrefixesArriveBySizes(z, mode, s, ps, rest);
    ChunkingIndependence(z, mode, s, ps, rest);
  }

  // ---- a stream that fails in one piece ----

  /** The sizes in question: a first frame of two bytes less than a read, a second with a prefix of three. */
  lemma WitnessSizes(z: Zlib, p: RawPacket, q: RawPacket)
    requires |EncodeWithLen(z, -1, p)| == BUF_SIZE - 2 && |Body(q)| == 0x4000
    ensures Roomy(z, -1, p) && LengthBytes(z, -1, p) <= 2
    ensures Roomy(z, -1, q) && LengthBytes(z, -1, q) == 3
    ensures |EncodeWithLen(z, -1, q)| > 2
  {
    FrameSize(z, -1, p);
    FrameSize(z, -1, q);
    assert EncodeWithoutLen(z, -1, p) == Body(p) && EncodeWithoutLen(z, -1, q) == Body(q);
    SmallLengthBytes(z, -1, p);
    GroupsLength(0x4000);
    ToInt32Fits(0x4000);
    AtMostThreeLengthBytes(z, -1, q);
  }

  lemma FullReadEnds(b: seq<byte>)
    requires |b| > BUF_SIZE
    ensures EndsAt(0, [Data(b)], BUF_SIZE)
  {
    var later := [Data(b[BUF_SIZE..])] + [Data(b)][1..];
    assert EndsAt(BUF_SIZE, later, BUF_SIZE);
  }

  /** Of two frames, the first is returned and the second is lost if a read ends two bytes into its prefix. */
  lemma SecondPrefixSplit(z: Zlib, mode: int32, s: Source, p: RawPacket, q: RawPacket)
    requires Lawful(z) && Roomy(z, mode, p) && Roomy(z, mode, q)
    requires LengthBytes(z, mode, p) <= 2 && LengthBytes(z, mode, q) == 3
    requires Chunked(s.script) && |s.buf| <= MAX_BUFFERED_BYTES
    requires Total(s) == EncodeWithLen(z, mode, p) + EncodeWithLen(z, mode, q)
    requires EndsAt(|s.buf|, s.script, 2 + |EncodeWithLen(z, mode, p)|)
    ensures ReadMany(z, mode, s, 2).0 == [p]
  {
    hide EncodeWithLen, LengthBytes, Flat, EndsAt, AfterReadPacket, Arrived, Chunked, Fits;
    var b := EncodeWithLen(z, mode, q);
    NextPrefixArrives(z, mode, s, p, b);
    ReadFrame(z, mode, s, p, b);
    ReadConserves(z, mode, s);
    ReadKeepsEnds(z, mode, s, p, b, 2);
    var t := AfterReadPacket(z, mode, s).1;
    assert b + [] == b;
    NextPrefixArrives(z, mode, t, q, []);
    ReadFrame(z, mode, t, q, []);
    assert ReadMany(z, mode, t, 1).0 == [];
    assert [p] + [] == [p];
  }

  /** The peer need not split anything: two frames sent in one piece fail if the first is two bytes short
      of a read and the second has a three-byte prefix. */
  lemma OnePieceCanFail(z: Zlib, p: RawPacket, q: RawPacket)
    requires Lawful(z)
    requires |EncodeWithLen(z, -1, p)| == BUF_SIZE - 2 && |Body(q)| == 0x4000
    ensures var s := Source([], [Data(EncodeWithLen(z, -1, p) + EncodeWithLen(z, -1, q))]);
            ReadMany(z, -1, s, 2).0 == [p]
  {
    WitnessSizes(z, p, q);
    hide EncodeWithLen, LengthBytes, EndsAt, ReadMany, Roomy, Lawful;
    var all := EncodeWithLen(z, -1, p) + EncodeWithLen(z, -1, q);
    var s := Source([], [Data(all)]);
    FullReadEnds(all);
    assert Flat(s.script) == all by {
      FlatCons(Data(all), []);
      assert all + [] == all && [Data(all)] + [] == [Data(all)];
    }
    assert [] + all == all;
    SecondPrefixSplit(z, -1, s, p, q);
  }
}
