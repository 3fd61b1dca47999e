/** nbt/read.go: what the reader can return at all. Everything it returns is well formed, so a tag
    reads back from its bytes exactly if it is well formed; and the reader panics exactly if it comes
    to a negative length of a string or byte array. */
module NbtExact {
  import opened Bytes
  import opened Nbt

  // ---- fields ----

  lemma {:induction false} BigEndianRange(s: seq<byte>)
    ensures FromBigEndian(s) < Pow256(|s|)
    decreases s
  {
    if s != [] {
      BigEndianRange(s[..|s| - 1]);
    }
  }

  lemma FieldFits(s: seq<byte>, width: nat)
    requires ReadField(s, width).Done?
    ensures FitsSigned(width, ReadField(s, width).value)
  {
    BigEndianRange(s[..width]);
  }

  lemma {:induction false} FieldsFit(s: seq<byte>, width: nat, n: int)
    requires ReadFields(s, width, n).Done?
    ensures var vs := ReadFields(s, width, n).value;
            |vs| == (if n <= 0 then 0 else n) && forall i :: 0 <= i < |vs| ==> FitsSigned(width, vs[i])
    decreases n
  {
    hide ReadField, FitsSigned;
    if n > 0 {
      FieldFits(s, width);
      FieldsFit(ReadField(s, width).rest, width, n - 1);
    }
  }

  lemma CountFits(n: int)
    requires FitsSigned(4, n)
    ensures FitsSigned(4, if n <= 0 then 0 else n)
  {
  }

  lemma NumbersFit(s: seq<byte>, width: nat)
    requires ReadNumbers(s, width).Done?
    ensures var vs := ReadNumbers(s, width).value;
            FitsSigned(4, |vs|) && forall i :: 0 <= i < |vs| ==> FitsSigned(width, vs[i])
  {
    hide FitsSigned;
    FieldFits(s, 4);
    hide ReadField;
    var n := ReadField(s, 4).value;
    CountFits(n);
    FieldsFit(ReadField(s, 4).rest, width, n);
  }

  lemma SliceFits(s: seq<byte>, width: nat)
    requires ReadField(s, width).Done? && ReadSlice(ReadField(s, width).rest, ReadField(s, width).value).Done?
    ensures FitsSigned(width, |ReadSlice(ReadField(s, width).rest, ReadField(s, width).value).value|)
  {
    FieldFits(s, width);
  }

  lemma NameFits(s: seq<byte>)
    requires ReadName(s).Done?
    ensures FitsSigned(2, |ReadName(s).value|)
  {
    SliceFits(s, 2);
  }

  // ---- everything read is well formed ----

  lemma InsertKeepsWellFormed(entries: seq<Entry>, name: Name, tag: Tag)
    requires WellFormedEntries(entries) && WellFormedEntry(Entry(name, tag))
    ensures WellFormedEntries(Insert(entries, name, tag))
  {
    hide WellFormedEntry, Insert;
    if k :| 0 <= k < |entries| && entries[k].name == name {
      InsertExisting(entries, k, name, tag);
    } else {
      InsertNew(entries, name, tag);
    }
  }

  lemma {:induction false} ReadGivesWellFormed(id: byte, s: seq<byte>)
    requires ReadTag(id, s).Done?
    ensures TypeId(ReadTag(id, s).value) == id && WellFormed(ReadTag(id, s).value)
    decreases |s|, 1, 0
  {
    hide ReadField, ReadBits, ReadName, ReadNumbers, ReadSlice, ReadItems, ReadEntries, FitsSigned, Pow256;
    match id
    case 1 => FieldFits(s, 1);
    case 2 => FieldFits(s, 2);
    case 3 => FieldFits(s, 4);
    case 4 => FieldFits(s, 8);
    case 5 => BitsFit(s, 4);
    case 6 => BitsFit(s, 8);
    case 7 => SliceFits(s, 4);
    case 8 => NameFits(s);
    case 9 =>
      var s0 := ReadId(s).rest;
      FieldFits(s0, 4);
      CountFits(ReadField(s0, 4).value);
      ItemsGiveWellFormed(s[0], ReadField(s0, 4).value, ReadField(s0, 4).rest);
    case 10 =>
      EntriesGiveWellFormed([], s);
    case 11 => NumbersFit(s, 4);
    case 12 => NumbersFit(s, 8);
    case _ =>
  }

  lemma BitsFit(s: seq<byte>, width: nat)
    requires ReadBits(s, width).Done?
    ensures ReadBits(s, width).value < Pow256(width)
  {
    BigEndianRange(s[..width]);
  }

  lemma {:induction false} ItemsGiveWellFormed(elemType: byte, n: int, s: seq<byte>)
    requires ReadItems(elemType, n, s).Done?
    ensures var items := ReadItems(elemType, n, s).value;
            && |items| == (if n <= 0 then 0 else n)
            && forall i :: 0 <= i < |items| ==> TypeId(items[i]) == elemType && WellFormed(items[i])
    decreases |s|, 2, n
  {
    hide ReadTag, WellFormed, TypeId;
    if n > 0 {
      ReadGivesWellFormed(elemType, s);
      ItemsGiveWellFormed(elemType, n - 1, ReadTag(elemType, s).rest);
    }
  }

  lemma {:induction false} EntriesGiveWellFormed(acc: seq<Entry>, s: seq<byte>)
    requires WellFormedEntries(acc) && ReadEntries(acc, s).Done?
    ensures WellFormedEntries(ReadEntries(acc, s).value)
    decreases |s|, 0, 0
  {
    hide ReadTag, ReadName, WellFormed, WellFormedEntries, FitsSigned;
    var id, s0 := ReadId(s).value, ReadId(s).rest;
    if id != 0 {
      var name, s1 := ReadName(s0).value, ReadName(s0).rest;
      var tag, s2 := ReadTag(id, s1).value, ReadTag(id, s1).rest;
      NameFits(s0);
      ReadGivesWellFormed(id, s1);
      InsertKeepsWellFormed(acc, name, tag);
      EntriesGiveWellFormed(Insert(acc, name, tag), s2);
    }
  }

  lemma RootGivesWellFormed(s: seq<byte>)
    requires ReadRoot(s).Done?
    ensures WellFormedEntries(ReadRoot(s).value)
  {
    hide ReadTag, ReadName, WellFormedEntries;
    var s1 := ReadName(ReadId(s).rest).rest;
    ReadGivesWellFormed(ReadId(s).value, s1);
  }

  // ---- the round trip is exact ----

  /** A tag reads back from its bytes, in front of any others, exactly if it is well formed: its numbers
      and lengths fit their fields, its lists are homogeneous and its names distinct, at every depth. */
  lemma TagReadsBackExactly(t: Tag, rest: seq<byte>)
    ensures ReadsBack(t, rest) <==> WellFormed(t)
  {
    if WellFormed(t) {
      TagBack(t, rest);
    }
    if ReadsBack(t, rest) {
      ReadGivesWellFormed(TypeId(t), TagBytes(t) + rest);
    }
  }

  lemma RootReadsBackExactly(entries: seq<Entry>, rest: seq<byte>)
    ensures ReadRoot(RootBytes(entries) + rest) == Done(entries, rest) <==> WellFormedEntries(entries)
  {
    hide ReadRoot, RootBytes, WellFormedEntries;
    if WellFormedEntries(entries) {
      RootBack(entries, rest);
    }
    if ReadRoot(RootBytes(entries) + rest) == Done(entries, rest) {
      RootGivesWellFormed(RootBytes(entries) + rest);
    }
  }

  /** Whatever was read once reads back when it is written again. */
  lemma ReadWriteRead(s: seq<byte>, rest: seq<byte>)
    requires ReadRoot(s).Done?
    ensures ReadRoot(RootBytes(ReadRoot(s).value) + rest) == Done(ReadRoot(s).value, rest)
  {
    RootGivesWellFormed(s);
    RootBack(ReadRoot(s).value, rest);
  }

  // ---- when the reader panics ----

  /** The first byte carries the sign of a field. */
  lemma {:induction false} FirstByteBounds(s: seq<byte>)
    requires s != []
    ensures s[0] * Pow256(|s| - 1) <= FromBigEndian(s) < (s[0] + 1) * Pow256(|s| - 1)
    decreases s
  {
    var n := |s|;
    if n == 1 {
      assert s[..0] == [];
    } else {
      FirstByteBounds(s[..n - 1]);
      Scale(s[0], FromBigEndian(s[..n - 1]), s[n - 1], Pow256(n - 2));
    }
  }

  lemma Scale(first: byte, v: nat, last: byte, m: nat)
    requires first * m <= v < (first + 1) * m
    ensures first * (0x100 * m) <= v * 0x100 + last < (first + 1) * (0x100 * m)
  {
    assert first * (0x100 * m) == 0x100 * (first * m);
    assert (first + 1) * (0x100 * m) == 0x100 * ((first + 1) * m);
  }

  lemma NegativeByFirstByte(s: seq<byte>)
    requires s != []
    ensures FromSignedField(s) < 0 <==> s[0] >= 0x80
  {
    hide FromBigEndian, Pow256;
    BigEndianRange(s);
    FirstByteBounds(s);
    Pow256Step(|s|);
    UpperHalf(s[0], FromBigEndian(s), Pow256(|s| - 1));
  }

  lemma Pow256Step(n: nat)
    requires n > 0
    ensures Pow256(n) == 0x100 * Pow256(n - 1)
  {
  }

  lemma UpperHalf(first: byte, u: nat, m: nat)
    requires first * m <= u < (first + 1) * m
    ensures 2 * u >= 0x100 * m <==> first >= 0x80
  {
    if first >= 0x80 {
      MulMono(0x80, first, m);
    } else {
      MulMono(first + 1, 0x80, m);
    }
  }

  lemma MulMono(a: nat, b: nat, m: nat)
    requires a <= b
    ensures a * m <= b * m
  {
    assert b * m == a * m + (b - a) * m;
  }

  /** Reading a string panics exactly if its length is there and its first byte is 0x80 or more. */
  lemma NameCrashesExactly(s: seq<byte>)
    ensures ReadName(s).Crash? <==> |s| >= 2 && s[0] >= 0x80
  {
    if |s| >= 2 {
      NegativeByFirstByte(s[..2]);
    }
  }

  /** Three bytes are enough: a root compound whose name has a negative length. */
  lemma ThreeBytesPanic()
    ensures ReadRoot([10, 0x80, 0x00]).Crash?
  {
    var s: seq<byte> := [10, 0x80, 0x00];
    assert s[1..] == [0x80, 0x00];
    NameCrashesExactly([0x80, 0x00]);
  }

  /** The signed field that a string or byte array starts with, if it is complete. */
  function LengthField(s: seq<byte>, width: nat): seq<int> {
    if |s| < width then [] else [FromSignedField(s[..width])]
  }

  /** The string and byte-array lengths that lie on the reader's way through a tag, in order. */
  function TagLengths(id: byte, s: seq<byte>): seq<int>
    decreases |s|, 1, 0
  {
    if id == 7 then LengthField(s, 4)
    else if id == 8 then LengthField(s, 2)
    else if id == 9 && |s| >= 5 then ItemLengths(s[0], FromSignedField(s[1..5]), s[5..])
    else if id == 10 then EntryLengths(s)
    else []
  }

  function ItemLengths(elemType: byte, n: int, s: seq<byte>): seq<int>
    decreases |s|, 2, n
  {
    if n <= 0 then []
    else
      var item := ReadTag(elemType, s);
      TagLengths(elemType, s) + (if item.Done? then ItemLengths(elemType, n - 1, item.rest) else [])
  }

  function EntryLengths(s: seq<byte>): seq<int>
    decreases |s|, 0, 0
  {
    if s == [] || s[0] == 0 then []
    else
      var name := ReadName(s[1..]);
      LengthField(s[1..], 2) +
      if !name.Done? then []
      else
        var tag := ReadTag(s[0], name.rest);
        TagLengths(s[0], name.rest) + if tag.Done? then EntryLengths(tag.rest) else []
  }

  function RootLengths(s: seq<byte>): seq<int> {
    if s == [] then []
    else
      var name := ReadName(s[1..]);
      LengthField(s[1..], 2) + if name.Done? then TagLengths(s[0], name.rest) else []
  }

  predicate HasNegative(lengths: seq<int>) {
    exists i :: 0 <= i < |lengths| && lengths[i] < 0
  }

  lemma HasNegativeConcat(a: seq<int>, b: seq<int>)
    ensures HasNegative(a + b) <==> HasNegative(a) || HasNegative(b)
  {
    if i :| 0 <= i < |a| && a[i] < 0 {
      assert (a + b)[i] < 0;
    }
    if i :| 0 <= i < |b| && b[i] < 0 {
      assert (a + b)[|a| + i] < 0;
    }
  }

  lemma LengthFieldCrash(s: seq<byte>, width: nat)
    ensures HasNegative(LengthField(s, width)) <==>
              ReadField(s, width).Done? && ReadSlice(ReadField(s, width).rest, ReadField(s, width).value).Crash?
  {
    if |s| >= width {
      assert LengthField(s, width)[0] == FromSignedField(s[..width]);
    }
  }

  lemma {:induction false} TagCrashesExactly(id: byte, s: seq<byte>)
    ensures ReadTag(id, s).Crash? <==> HasNegative(TagLengths(id, s))
    decreases |s|, 1, 0
  {
    hide ReadBits, ReadNumbers, ReadSlice, ReadItems, ReadEntries, LengthField, ItemLengths, EntryLengths, FromSignedField, HasNegative;
    NoneNegative();
    match id
    case 7 => LengthFieldCrash(s, 4);
    case 8 => LengthFieldCrash(s, 2);
    case 9 =>
      if |s| >= 5 {
        assert s[1..][..4] == s[1..5] && s[1..][4..] == s[5..];
        ItemsCrashExactly(s[0], FromSignedField(s[1..5]), s[5..]);
      }
    case 10 => EntriesCrashExactly([], s);
    case _ =>
  }

  lemma NoneNegative()
    ensures !HasNegative([])
  {
  }

  lemma {:induction false} ItemsCrashExactly(elemType: byte, n: int, s: seq<byte>)
    ensures ReadItems(elemType, n, s).Crash? <==> HasNegative(ItemLengths(elemType, n, s))
    decreases |s|, 2, n
  {
    hide ReadTag, TagLengths, HasNegative;
    NoneNegative();
    if n > 0 {
      var item := ReadTag(elemType, s);
      TagCrashesExactly(elemType, s);
      if item.Done? {
        ItemsCrashExactly(elemType, n - 1, item.rest);
        HasNegativeConcat(TagLengths(elemType, s), ItemLengths(elemType, n - 1, item.rest));
      } else {
        assert TagLengths(elemType, s) + [] == TagLengths(elemType, s);
      }
    }
  }

  lemma {:induction false} EntriesCrashExactly(acc: seq<Entry>, s: seq<byte>)
    ensures ReadEntries(acc, s).Crash? <==> HasNegative(EntryLengths(s))
    decreases |s|, 0, 0
  {
    hide ReadTag, ReadSlice, TagLengths, HasNegative, LengthField, Insert;
    NoneNegative();
    if s != [] && s[0] != 0 {
      var own := LengthField(s[1..], 2);
      var name := ReadName(s[1..]);
      LengthFieldCrash(s[1..], 2);
      if name.Done? {
        var tag := ReadTag(s[0], name.rest);
        var lengths := TagLengths(s[0], name.rest);
        TagCrashesExactly(s[0], name.rest);
        if tag.Done? {
          EntriesCrashExactly(Insert(acc, name.value, tag.value), tag.rest);
          HasNegativeConcat(lengths, EntryLengths(tag.rest));
          HasNegativeConcat(own, lengths + EntryLengths(tag.rest));
        } else {
          assert lengths + [] == lengths;
          HasNegativeConcat(own, lengths);
        }
      } else {
        assert own + [] == own;
      }
    }
  }

  /** The reader panics exactly if a string or byte-array length on its way is negative. */
  lemma RootCrashesExactly(s: seq<byte>)
    ensures ReadRoot(s).Crash? <==> HasNegative(RootLengths(s))
  {
    hide ReadTag, ReadSlice, TagLengths, HasNegative, LengthField;
    NoneNegative();
    if s != [] {
      var own := LengthField(s[1..], 2);
      var name := ReadName(s[1..]);
      LengthFieldCrash(s[1..], 2);
      if name.Done? {
        TagCrashesExactly(s[0], name.rest);
        HasNegativeConcat(own, TagLengths(s[0], name.rest));
      } else {
        assert own + [] == own;
      }
    }
  }

  // ---- a check that needs no parsing ----

  /** No byte has its top bit set. */
  ghost predicate Low(s: seq<byte>) {
    forall i :: 0 <= i < |s| ==> s[i] < 0x80
  }

  /** Reading from such bytes does not panic and leaves such bytes. */
  ghost predicate Safe<T>(r: Read<T>) {
    !r.Crash? && (r.Done? ==> Low(r.rest))
  }

  lemma SliceIsSafe(s: seq<byte>, width: nat)
    requires Low(s) && width > 0
    ensures Safe(ReadField(s, width)) && Safe(ReadBits(s, width))
    ensures ReadField(s, width).Done? ==> Safe(ReadSlice(ReadField(s, width).rest, ReadField(s, width).value))
  {
    if |s| >= width {
      NegativeByFirstByte(s[..width]);
    }
  }

  lemma {:induction false} FieldsAreSafe(s: seq<byte>, width: nat, n: int)
    requires Low(s) && width > 0
    ensures Safe(ReadFields(s, width, n))
    decreases n
  {
    hide ReadField, Low;
    if n > 0 {
      SliceIsSafe(s, width);
      if ReadField(s, width).Done? {
        FieldsAreSafe(ReadField(s, width).rest, width, n - 1);
      }
    }
  }

  lemma NumbersAreSafe(s: seq<byte>, width: nat)
    requires Low(s) && width > 0
    ensures Safe(ReadNumbers(s, width))
  {
    hide ReadField, Low;
    SliceIsSafe(s, 4);
    if ReadField(s, 4).Done? {
      FieldsAreSafe(ReadField(s, 4).rest, width, ReadField(s, 4).value);
    }
  }

  lemma {:induction false} TagIsSafe(id: byte, s: seq<byte>)
    requires Low(s)
    ensures Safe(ReadTag(id, s))
    decreases |s|, 1, 0
  {
    hide ReadField, ReadBits, ReadNumbers, ReadSlice, ReadItems, ReadEntries, Low;
    match id
    case 1 => SliceIsSafe(s, 1);
    case 2 => SliceIsSafe(s, 2);
    case 3 => SliceIsSafe(s, 4);
    case 4 => SliceIsSafe(s, 8);
    case 5 => SliceIsSafe(s, 4);
    case 6 => SliceIsSafe(s, 8);
    case 7 => SliceIsSafe(s, 4);
    case 8 => SliceIsSafe(s, 2);
    case 9 =>
      IdIsSafe(s);
      if s != [] {
        var s0 := ReadId(s).rest;
        SliceIsSafe(s0, 4);
        if ReadField(s0, 4).Done? {
          ItemsAreSafe(s[0], ReadField(s0, 4).value, ReadField(s0, 4).rest);
        }
      }
    case 10 => EntriesAreSafe([], s);
    case 11 => NumbersAreSafe(s, 4);
    case 12 => NumbersAreSafe(s, 8);
    case _ =>
  }

  lemma IdIsSafe(s: seq<byte>)
    requires Low(s)
    ensures Safe(ReadId(s))
  {
  }

  lemma {:induction false} ItemsAreSafe(elemType: byte, n: int, s: seq<byte>)
    requires Low(s)
    ensures Safe(ReadItems(elemType, n, s))
    decreases |s|, 2, n
  {
    hide ReadTag, Low;
    if n > 0 {
      TagIsSafe(elemType, s);
      if ReadTag(elemType, s).Done? {
        ItemsAreSafe(elemType, n - 1, ReadTag(elemType, s).rest);
      }
    }
  }

  lemma {:induction false} EntriesAreSafe(acc: seq<Entry>, s: seq<byte>)
    requires Low(s)
    ensures Safe(ReadEntries(acc, s))
    decreases |s|, 0, 0
  {
    hide ReadTag, ReadField, ReadSlice, Low, Insert;
    IdIsSafe(s);
    if s != [] && s[0] != 0 {
      var s0 := ReadId(s).rest;
      SliceIsSafe(s0, 2);
      var name := ReadName(s0);
      if name.Done? {
        TagIsSafe(s[0], name.rest);
        var tag := ReadTag(s[0], name.rest);
        if tag.Done? {
          EntriesAreSafe(Insert(acc, name.value, tag.value), tag.rest);
        }
      }
    }
  }

  /** A caller can rule the panic out by looking at the bytes alone: without a byte of 0x80 or more it
      does not happen. */
  lemma RootIsSafe(s: seq<byte>)
    requires Low(s)
    ensures Safe(ReadRoot(s))
  {
    hide ReadTag, ReadField, ReadSlice, Low;
    IdIsSafe(s);
    if s != [] {
      var s0 := ReadId(s).rest;
      SliceIsSafe(s0, 2);
      if ReadName(s0).Done? {
        TagIsSafe(s[0], ReadName(s0).rest);
      }
    }
  }
}
