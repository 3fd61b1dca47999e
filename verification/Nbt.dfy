/** nbt/nbt.go and nbt/read.go: the binary NBT writer and reader.

    A compound is its entries in insertion order. Floats are their bit patterns. */
module Nbt {
  import opened Bytes

  type Name = seq<byte>

  datatype Entry = Entry(name: Name, tag: Tag)

  datatype Tag =
    | End
    | Byte(n: int)
    | Short(n: int)
    | Int(n: int)
    | Long(n: int)
    | Float(bits: nat)
    | Double(bits: nat)
    | ByteArray(bytes: seq<byte>)
    | Str(text: seq<byte>)
    | List(elemType: byte, items: seq<Tag>)
    | Compound(entries: seq<Entry>)
    | IntArray(ints: seq<int>)
    | LongArray(longs: seq<int>)

  function TypeId(t: Tag): byte {
    match t
    case End => 0
    case Byte(_) => 1
    case Short(_) => 2
    case Int(_) => 3
    case Long(_) => 4
    case Float(_) => 5
    case Double(_) => 6
    case ByteArray(_) => 7
    case Str(_) => 8
    case List(_, _) => 9
    case Compound(_) => 10
    case IntArray(_) => 11
    case LongArray(_) => 12
  }

  /** Insert: an existing name keeps its place and gets the new value, a new name goes last. */
  function Insert(entries: seq<Entry>, name: Name, tag: Tag): seq<Entry> {
    if entries == [] then [Entry(name, tag)]
    else if entries[0].name == name then [Entry(name, tag)] + entries[1..]
    else [entries[0]] + Insert(entries[1..], name, tag)
  }

  // ---- writer ----

  function NameBytes(s: Name): seq<byte> {
    SignedField(2, |s|) + s
  }

  function Fields(width: nat, vs: seq<int>): seq<byte> {
    if vs == [] then [] else SignedField(width, vs[0]) + Fields(width, vs[1..])
  }

  function TagBytes(t: Tag): seq<byte>
    decreases t, 0
  {
    match t
    case End => []
    case Byte(n) => SignedField(1, n)
    case Short(n) => SignedField(2, n)
    case Int(n) => SignedField(4, n)
    case Long(n) => SignedField(8, n)
    case Float(bits) => BigEndian(4, bits)
    case Double(bits) => BigEndian(8, bits)
    case ByteArray(bytes) => SignedField(4, |bytes|) + bytes
    case Str(text) => NameBytes(text)
    case List(elemType, items) => [elemType] + (SignedField(4, |items|) + ItemsBytes(items))
    case Compound(entries) => EntriesBytes(entries)
    case IntArray(ints) => SignedField(4, |ints|) + Fields(4, ints)
    case LongArray(longs) => SignedField(4, |longs|) + Fields(8, longs)
  }

  function ItemsBytes(items: seq<Tag>): seq<byte> {
    if items == [] then [] else TagBytes(items[0]) + ItemsBytes(items[1..])
  }

  function EntryBytes(e: Entry): seq<byte>
    decreases e, 1
  {
    [TypeId(e.tag)] + (NameBytes(e.name) + TagBytes(e.tag))
  }

  /** writeInnerCompound: the entries, then the end marker. */
  function EntriesBytes(entries: seq<Entry>): seq<byte> {
    if entries == [] then [0] else EntryBytes(entries[0]) + EntriesBytes(entries[1..])
  }

  /** WriteCompoundTag: root type, empty root name, contents. */
  function RootBytes(entries: seq<Entry>): seq<byte> {
    [10] + (NameBytes([]) + EntriesBytes(entries))
  }

  // ---- reader ----

  /** A negative length of a string or byte array passes the reader's bound check and then slices
      backwards: the program panics. Every other bad input is reported. */
  datatype Read<+T> = Done(value: T, rest: seq<byte>) | Malformed | Crash {
    predicate IsFailure() {
      !Done?
    }

    function PropagateFailure<U>(): Read<U>
      requires !Done?
    {
      if Crash? then Crash else Malformed
    }

    function Extract(): (T, seq<byte>)
      requires Done?
    {
      (value, rest)
    }
  }

  function ReadField(s: seq<byte>, width: nat): (r: Read<int>)
    ensures r.Done? ==> |r.rest| == |s| - width
    ensures !r.Crash?
  {
    if |s| < width then Malformed else Done(FromSignedField(s[..width]), s[width..])
  }

  function ReadBits(s: seq<byte>, width: nat): (r: Read<nat>)
    ensures r.Done? ==> |r.rest| == |s| - width
    ensures !r.Crash?
  {
    if |s| < width then Malformed else Done(FromBigEndian(s[..width]), s[width..])
  }

  function ReadId(s: seq<byte>): (r: Read<byte>)
    ensures r.Done? ==> |r.rest| == |s| - 1
    ensures !r.Crash?
  {
    if s == [] then Malformed else Done(s[0], s[1..])
  }

  function ReadSlice(s: seq<byte>, n: int): (r: Read<seq<byte>>)
    ensures r.Done? ==> |r.rest| <= |s|
  {
    if n > |s| then Malformed else if n < 0 then Crash else Done(s[..n], s[n..])
  }

  function ReadName(s: seq<byte>): (r: Read<Name>)
    ensures r.Done? ==> |r.rest| + 2 <= |s|
  {
    var (n, rest) :- ReadField(s, 2);
    ReadSlice(rest, n)
  }

  function ReadFields(s: seq<byte>, width: nat, n: int): (r: Read<seq<int>>)
    ensures r.Done? ==> |r.rest| <= |s|
    ensures !r.Crash?
    decreases n
  {
    if n <= 0 then Done([], s)
    else
      var (v, s0) :- ReadField(s, width);
      var (vs, s1) :- ReadFields(s0, width, n - 1);
      Done([v] + vs, s1)
  }

  /** An array of fixed-width numbers, checked against the remaining bytes first. */
  function ReadNumbers(s: seq<byte>, width: nat): (r: Read<seq<int>>)
    ensures r.Done? ==> |r.rest| <= |s|
    ensures !r.Crash?
  {
    var (n, rest) :- ReadField(s, 4);
    if n * width > |rest| then Malformed else ReadFields(rest, width, n)
  }

  function ReadTag(id: byte, s: seq<byte>): (r: Read<Tag>)
    ensures r.Done? ==> |r.rest| <= |s|
    decreases |s|, 1, 0
  {
    match id
    case 0 => Done(End, s)
    case 1 => var (v, rest) :- ReadField(s, 1); Done(Byte(v), rest)
    case 2 => var (v, rest) :- ReadField(s, 2); Done(Short(v), rest)
    case 3 => var (v, rest) :- ReadField(s, 4); Done(Int(v), rest)
    case 4 => var (v, rest) :- ReadField(s, 8); Done(Long(v), rest)
    case 5 => var (v, rest) :- ReadBits(s, 4); Done(Float(v), rest)
    case 6 => var (v, rest) :- ReadBits(s, 8); Done(Double(v), rest)
    case 7 =>
      var (n, s0) :- ReadField(s, 4);
      var (bytes, rest) :- ReadSlice(s0, n);
      Done(ByteArray(bytes), rest)
    case 8 => var (text, rest) :- ReadName(s); Done(Str(text), rest)
    case 9 =>
      var (elemType, s0) :- ReadId(s);
      var (n, s1) :- ReadField(s0, 4);
      var (items, rest) :- ReadItems(elemType, n, s1);
      Done(List(elemType, items), rest)
    case 10 => var (entries, rest) :- ReadEntries([], s); Done(Compound(entries), rest)
    case 11 => var (ints, rest) :- ReadNumbers(s, 4); Done(IntArray(ints), rest)
    case 12 => var (longs, rest) :- ReadNumbers(s, 8); Done(LongArray(longs), rest)
    case _ => Malformed
  }

  function ReadItems(elemType: byte, n: int, s: seq<byte>): (r: Read<seq<Tag>>)
    ensures r.Done? ==> |r.rest| <= |s|
    decreases |s|, 2, n
  {
    if n <= 0 then Done([], s)
    else
      var (item, s0) :- ReadTag(elemType, s);
      var (items, s1) :- ReadItems(elemType, n - 1, s0);
      Done([item] + items, s1)
  }

  function ReadEntries(acc: seq<Entry>, s: seq<byte>): (r: Read<seq<Entry>>)
    ensures r.Done? ==> |r.rest| <= |s|
    decreases |s|, 0, 0
  {
    var (id, s0) :- ReadId(s);
    if id == 0 then Done(acc, s0)
    else
      var (name, s1) :- ReadName(s0);
      var (tag, s2) :- ReadTag(id, s1);
      ReadEntries(Insert(acc, name, tag), s2)
  }

  /** ReadCompoundTag: the root may carry any name and must be a compound. */
  function ReadRoot(s: seq<byte>): Read<seq<Entry>> {
    var (id, s0) :- ReadId(s);
    var (_, s1) :- ReadName(s0);
    var (tag, rest) :- ReadTag(id, s1);
    if tag.Compound? then Done(tag.entries, rest) else Malformed
  }

  // ---- well-formed tags ----

  ghost predicate DistinctNames(entries: seq<Entry>) {
    forall i, j :: 0 <= i < j < |entries| ==> entries[i].name != entries[j].name
  }

  /** Numbers in the range of their tag, lengths that their field can hold, homogeneous lists,
      distinct names, and no entry that would read as the end marker. */
  ghost predicate WellFormed(t: Tag)
    decreases t, 0
  {
    match t
    case End => true
    case Byte(n) => FitsSigned(1, n)
    case Short(n) => FitsSigned(2, n)
    case Int(n) => FitsSigned(4, n)
    case Long(n) => FitsSigned(8, n)
    case Float(bits) => bits < Pow256(4)
    case Double(bits) => bits < Pow256(8)
    case ByteArray(bytes) => FitsSigned(4, |bytes|)
    case Str(text) => FitsSigned(2, |text|)
    case List(elemType, items) =>
      && FitsSigned(4, |items|)
      && forall i :: 0 <= i < |items| ==> TypeId(items[i]) == elemType && WellFormed(items[i])
    case Compound(entries) => WellFormedEntries(entries)
    case IntArray(ints) => FitsSigned(4, |ints|) && forall i :: 0 <= i < |ints| ==> FitsSigned(4, ints[i])
    case LongArray(longs) => FitsSigned(4, |longs|) && forall i :: 0 <= i < |longs| ==> FitsSigned(8, longs[i])
  }

  ghost predicate WellFormedEntry(e: Entry)
    decreases e, 1
  {
    FitsSigned(2, |e.name|) && !e.tag.End? && WellFormed(e.tag)
  }

  ghost predicate WellFormedEntries(entries: seq<Entry>)
    decreases entries, 0
  {
    DistinctNames(entries) && forall i :: 0 <= i < |entries| ==> WellFormedEntry(entries[i])
  }

  // ---- round trips ----

  lemma FieldBack(width: nat, v: int, rest: seq<byte>)
    requires FitsSigned(width, v)
    ensures ReadField(SignedField(width, v) + rest, width) == Done(v, rest)
  {
    SignedFieldRoundTrip(width, v);
    var s := SignedField(width, v);
    assert (s + rest)[..width] == s && (s + rest)[width..] == rest;
  }

  lemma BitsBack(width: nat, v: nat, rest: seq<byte>)
    requires v < Pow256(width)
    ensures ReadBits(BigEndian(width, v) + rest, width) == Done(v, rest)
  {
    BigEndianRoundTrip(width, v);
    var s := BigEndian(width, v);
    assert (s + rest)[..width] == s && (s + rest)[width..] == rest;
  }

  lemma SliceBack(bytes: seq<byte>, rest: seq<byte>)
    ensures ReadSlice(bytes + rest, |bytes|) == Done(bytes, rest)
  {
    assert (bytes + rest)[..|bytes|] == bytes && (bytes + rest)[|bytes|..] == rest;
  }

  lemma NameBack(name: Name, rest: seq<byte>)
    requires FitsSigned(2, |name|)
    ensures ReadName(NameBytes(name) + rest) == Done(name, rest)
  {
    hide SignedField, ReadField, FitsSigned;
    FieldBack(2, |name|, name + rest);
    assert NameBytes(name) + rest == SignedField(2, |name|) + (name + rest);
    SliceBack(name, rest);
  }

  lemma {:induction false} FieldsBack(width: nat, vs: seq<int>, rest: seq<byte>)
    requires forall i :: 0 <= i < |vs| ==> FitsSigned(width, vs[i])
    ensures ReadFields(Fields(width, vs) + rest, width, |vs|) == Done(vs, rest)
    decreases vs
  {
    hide FitsSigned, ReadField, SignedField, ReadFields;
    if vs == [] {
      ReadNoFields(rest, width);
      assert Fields(width, vs) + rest == rest;
    } else {
      var tail := Fields(width, vs[1..]) + rest;
      assert Fields(width, vs) + rest == SignedField(width, vs[0]) + tail;
      FieldBack(width, vs[0], tail);
      FieldsBack(width, vs[1..], rest);
      ReadFieldsStep(Fields(width, vs) + rest, width, |vs|, vs[0], tail);
      assert vs == [vs[0]] + vs[1..];
    }
  }

  lemma ReadNoFields(s: seq<byte>, width: nat)
    ensures ReadFields(s, width, 0) == Done([], s)
  {
  }

  lemma ReadFieldsStep(s: seq<byte>, width: nat, n: nat, v: int, tail: seq<byte>)
    requires n > 0 && ReadField(s, width) == Done(v, tail) && ReadFields(tail, width, n - 1).Done?
    ensures var r := ReadFields(tail, width, n - 1); ReadFields(s, width, n) == Done([v] + r.value, r.rest)
  {
  }

  lemma {:induction false} FieldsLength(width: nat, vs: seq<int>)
    ensures |Fields(width, vs)| == |vs| * width
    decreases vs
  {
    hide SignedField;
    if vs != [] {
      FieldsLength(width, vs[1..]);
      MulStep(|vs|, width);
    }
  }

  lemma MulStep(n: nat, width: nat)
    ensures n * width == width + (n - 1) * width
  {
  }

  lemma NumbersBack(width: nat, vs: seq<int>, rest: seq<byte>)
    requires FitsSigned(4, |vs|) && forall i :: 0 <= i < |vs| ==> FitsSigned(width, vs[i])
    ensures ReadNumbers(SignedField(4, |vs|) + Fields(width, vs) + rest, width) == Done(vs, rest)
  {
    hide FitsSigned, ReadField, SignedField, ReadFields, Fields;
    var body := Fields(width, vs) + rest;
    assert SignedField(4, |vs|) + Fields(width, vs) + rest == SignedField(4, |vs|) + body;
    FieldBack(4, |vs|, body);
    FieldsBack(width, vs, rest);
    FieldsLength(width, vs);
  }

  lemma {:induction false} InsertNew(entries: seq<Entry>, name: Name, tag: Tag)
    requires forall i :: 0 <= i < |entries| ==> entries[i].name != name
    ensures Insert(entries, name, tag) == entries + [Entry(name, tag)]
    decreases entries
  {
    if entries != [] {
      InsertNew(entries[1..], name, tag);
    }
  }

  lemma {:induction false} InsertExisting(entries: seq<Entry>, k: nat, name: Name, tag: Tag)
    requires k < |entries| && entries[k].name == name
    requires forall i :: 0 <= i < k ==> entries[i].name != name
    ensures Insert(entries, name, tag) == entries[k := Entry(name, tag)]
    decreases k
  {
    if k > 0 {
      InsertExisting(entries[1..], k - 1, name, tag);
    }
  }

  /** What reading gives back for a written tag. */
  ghost predicate ReadsBack(t: Tag, rest: seq<byte>) {
    ReadTag(TypeId(t), TagBytes(t) + rest) == Done(t, rest)
  }

  lemma ScalarBack(t: Tag, rest: seq<byte>)
    requires WellFormed(t) && !t.List? && !t.Compound?
    ensures ReadsBack(t, rest)
  {
    hide FitsSigned, ReadField, ReadBits, SignedField, BigEndian, ReadName, NameBytes, ReadNumbers, Fields, ReadItems, ReadEntries, Pow256;
    match t
    case End => assert [] + rest == rest;
    case Byte(n) => FieldBack(1, n, rest);
    case Short(n) => FieldBack(2, n, rest);
    case Int(n) => FieldBack(4, n, rest);
    case Long(n) => FieldBack(8, n, rest);
    case Float(bits) => BitsBack(4, bits, rest);
    case Double(bits) => BitsBack(8, bits, rest);
    case ByteArray(bytes) =>
      assert TagBytes(t) + rest == SignedField(4, |bytes|) + (bytes + rest);
      FieldBack(4, |bytes|, bytes + rest);
      SliceBack(bytes, rest);
    case Str(text) => NameBack(text, rest);
    case IntArray(ints) => NumbersBack(4, ints, rest);
    case LongArray(longs) => NumbersBack(8, longs, rest);
  }

  /** NBT round trip with suffix: reading what was written gives the tag back and leaves exactly
      the bytes that followed, through every nesting. */
  lemma {:induction false} TagBack(t: Tag, rest: seq<byte>)
    requires WellFormed(t)
    ensures ReadsBack(t, rest)
    decreases t, 0
  {
    hide FitsSigned, ReadField, SignedField, ReadItems, ItemsBytes, ReadEntries, EntriesBytes;
    match t {
      case List(elemType, items) =>
        var body := ItemsBytes(items) + rest;
        assert TagBytes(t) + rest == [elemType] + (SignedField(4, |items|) + body);
        FieldBack(4, |items|, body);
        ItemsBack(elemType, items, rest);
      case Compound(entries) =>
        EntriesBack([], entries, rest);
        assert [] + entries == entries;
      case _ =>
        ScalarBack(t, rest);
    }
  }

  lemma {:induction false} ItemsBack(elemType: byte, items: seq<Tag>, rest: seq<byte>)
    requires forall i :: 0 <= i < |items| ==> TypeId(items[i]) == elemType && WellFormed(items[i])
    ensures ReadItems(elemType, |items|, ItemsBytes(items) + rest) == Done(items, rest)
    decreases items, 0
  {
    hide WellFormed, ReadTag, TagBytes, TypeId;
    if items == [] {
      assert ItemsBytes(items) + rest == rest;
    } else {
      var tail := ItemsBytes(items[1..]) + rest;
      assert ItemsBytes(items) + rest == TagBytes(items[0]) + tail;
      TagBack(items[0], tail);
      ItemsBack(elemType, items[1..], rest);
      assert items == [items[0]] + items[1..];
    }
  }

  /** Reading one entry and inserting it, with the reader's accumulator made explicit. */
  lemma EntryBack(acc: seq<Entry>, e: Entry, tail: seq<byte>)
    requires FitsSigned(2, |e.name|) && !e.tag.End? && ReadsBack(e.tag, tail)
    ensures ReadEntries(acc, EntryBytes(e) + tail) == ReadEntries(Insert(acc, e.name, e.tag), tail)
  {
    hide FitsSigned, ReadTag, TagBytes, ReadName, NameBytes, Insert;
    var afterName := TagBytes(e.tag) + tail;
    var afterId := NameBytes(e.name) + afterName;
    var s := EntryBytes(e) + tail;
    assert s == [TypeId(e.tag)] + afterId;
    assert s[0] == TypeId(e.tag) && s[1..] == afterId;
    NameBack(e.name, afterName);
  }

  lemma NextNameIsNew(acc: seq<Entry>, entries: seq<Entry>)
    requires entries != [] && DistinctNames(acc + entries)
    ensures Insert(acc, entries[0].name, entries[0].tag) == acc + [entries[0]]
    ensures acc + [entries[0]] + entries[1..] == acc + entries
  {
    assert (acc + entries)[|acc|] == entries[0];
    assert forall i :: 0 <= i < |acc| ==> (acc + entries)[i] == acc[i];
    InsertNew(acc, entries[0].name, entries[0].tag);
  }

  lemma {:induction false} EntriesBack(acc: seq<Entry>, entries: seq<Entry>, rest: seq<byte>)
    requires DistinctNames(acc + entries)
    requires forall i :: 0 <= i < |entries| ==> WellFormedEntry(entries[i])
    ensures ReadEntries(acc, EntriesBytes(entries) + rest) == Done(acc + entries, rest)
    decreases entries, 0
  {
    hide WellFormed, ReadTag, EntryBytes, FitsSigned, DistinctNames, Insert;
    if entries == [] {
      assert EntriesBytes(entries) + rest == [0] + rest;
      assert acc + entries == acc;
    } else {
      var e := entries[0];
      var tail := EntriesBytes(entries[1..]) + rest;
      assert EntriesBytes(entries) + rest == EntryBytes(e) + tail;
      assert WellFormedEntry(e);
      TagBack(e.tag, tail);
      EntryBack(acc, e, tail);
      NextNameIsNew(acc, entries);
      EntriesBack(acc + [e], entries[1..], rest);
    }
  }

  /** The packet form: a written root compound reads back with the same names in the same order. */
  lemma RootBack(entries: seq<Entry>, rest: seq<byte>)
    requires WellFormedEntries(entries)
    ensures ReadRoot(RootBytes(entries) + rest) == Done(entries, rest)
  {
    hide FitsSigned, ReadTag, TagBytes, ReadName, NameBytes, WellFormedEntries;
    var t := Compound(entries);
    assert WellFormed(t);
    TagBack(t, rest);
    var body := TagBytes(t) + rest;
    assert TagBytes(t) == EntriesBytes(entries) by { CompoundBytes(entries); }
    var s := RootBytes(entries) + rest;
    assert s == [10] + (NameBytes([]) + body);
    assert s[0] == 10 && s[1..] == NameBytes([]) + body;
    assert FitsSigned(2, 0) by { EmptyNameFits(); }
    NameBack([], body);
  }

  lemma CompoundBytes(entries: seq<Entry>)
    ensures TagBytes(Compound(entries)) == EntriesBytes(entries)
  {
  }

  lemma EmptyNameFits()
    ensures FitsSigned(2, 0)
  {
  }

  /** The length bound of a string is exact: a longer one never reads back. */
  lemma StringReadsBackExactly(text: seq<byte>, rest: seq<byte>)
    ensures ReadsBack(Str(text), rest) <==> |text| <= 32767
  {
    assert Pow256(2) == 0x1_0000 by { assert Pow256(1) == 0x100; }
    if |text| <= 32767 {
      NameBack(text, rest);
    } else {
      var s := NameBytes(text) + rest;
      var n := FromSignedField(SignedField(2, |text|));
      assert s[..2] == SignedField(2, |text|);
      BigEndianRoundTrip(2, |text| % 0x1_0000);
      assert n <= 32767;
      assert ReadField(s, 2) == Done(n, s[2..]);
    }
  }

  // ---- the writer and the reader as they run ----

  class NbtWriter {
    var buf: seq<byte>

    constructor ()
      ensures buf == []
    {
      buf := [];
    }

    method WriteName(name: Name)
      modifies this
      ensures buf == old(buf) + NameBytes(name)
    {
      buf := buf + SignedField(2, |name|);
      buf := buf + name;
    }

    method WriteNumbers(width: nat, vs: seq<int>)
      modifies this
      ensures buf == old(buf) + (SignedField(4, |vs|) + Fields(width, vs))
    {
      buf := buf + SignedField(4, |vs|);
      for i := 0 to |vs|
        invariant buf + Fields(width, vs[i..]) == old(buf) + (SignedField(4, |vs|) + Fields(width, vs))
      {
        assert vs[i..][1..] == vs[i + 1..];
        buf := buf + SignedField(width, vs[i]);
      }
    }

    method WriteTag(t: Tag)
      modifies this
      ensures buf == old(buf) + TagBytes(t)
      decreases t, 0
    {
      hide SignedField, BigEndian, Fields, NameBytes;
      match t {
        case End =>
        case Byte(n) => buf := buf + SignedField(1, n);
        case Short(n) => buf := buf + SignedField(2, n);
        case Int(n) => buf := buf + SignedField(4, n);
        case Long(n) => buf := buf + SignedField(8, n);
        case Float(bits) => buf := buf + BigEndian(4, bits);
        case Double(bits) => buf := buf + BigEndian(8, bits);
        case ByteArray(bytes) =>
          buf := buf + SignedField(4, |bytes|);
          buf := buf + bytes;
        case Str(text) => WriteName(text);
        case List(elemType, items) =>
          buf := buf + [elemType];
          buf := buf + SignedField(4, |items|);
          WriteItems(items);
        case Compound(entries) => WriteEntries(entries);
        case IntArray(ints) => WriteNumbers(4, ints);
        case LongArray(longs) => WriteNumbers(8, longs);
      }
    }

    method WriteItems(items: seq<Tag>)
      modifies this
      ensures buf == old(buf) + ItemsBytes(items)
      decreases items, 0
    {
      hide TagBytes;
      for i := 0 to |items|
        invariant buf + ItemsBytes(items[i..]) == old(buf) + ItemsBytes(items)
      {
        assert items[i..][1..] == items[i + 1..];
        WriteTag(items[i]);
      }
    }

    method WriteEntries(entries: seq<Entry>)
      modifies this
      ensures buf == old(buf) + EntriesBytes(entries)
      decreases entries, 0
    {
      hide TagBytes, NameBytes;
      for i := 0 to |entries|
        invariant buf + EntriesBytes(entries[i..]) == old(buf) + EntriesBytes(entries)
      {
        assert entries[i..][1..] == entries[i + 1..];
        ghost var before := buf;
        var e := entries[i];
        buf := buf + [TypeId(e.tag)];
        WriteName(e.name);
        WriteTag(e.tag);
        assert buf == before + EntryBytes(e);
      }
      buf := buf + [0];
    }

    method WriteRoot(entries: seq<Entry>)
      modifies this
      ensures buf == old(buf) + RootBytes(entries)
    {
      hide NameBytes, EntriesBytes;
      buf := buf + [10];
      WriteName([]);
      WriteEntries(entries);
    }
  }

  datatype Status = Ok | Bad | Panicked

  /** `st` and, when it is Ok, the value and position are those of the reading `r`. */
  ghost predicate Agrees<T>(r: Read<T>, st: Status, value: T, rest: seq<byte>) {
    match r
    case Done(v, left) => st == Ok && v == value && left == rest
    case Malformed => st == Bad
    case Crash => st == Panicked
  }

  function Prepend<T>(items: seq<T>, r: Read<seq<T>>): Read<seq<T>> {
    if r.Done? then Done(items + r.value, r.rest) else r
  }

  lemma PrependLaws<T>(items: seq<T>, v: T, r: Read<seq<T>>)
    ensures Prepend([], r) == r
    ensures Prepend(items + [v], r) == Prepend(items, Prepend([v], r))
  {
    if r.Done? {
      assert [] + r.value == r.value;
      assert items + [v] + r.value == items + ([v] + r.value);
    }
  }

  lemma PrependNone<T>(items: seq<T>, rest: seq<byte>)
    ensures Prepend(items, Done([], rest)) == Done(items, rest)
  {
    assert items + [] == items;
  }

  class NbtReader {
    const data: seq<byte>
    var pos: nat

    constructor (bytes: seq<byte>)
      ensures data == bytes && pos == 0
    {
      data, pos := bytes, 0;
    }

    ghost predicate Valid()
      reads this
    {
      pos <= |data|
    }

    ghost function Rest(): seq<byte>
      requires Valid()
      reads this
    {
      data[pos..]
    }

    method TakeField(width: nat) returns (v: int, st: Status)
      requires Valid()
      modifies this
      ensures Valid() && pos >= old(pos) && Agrees(ReadField(old(Rest()), width), st, v, Rest())
      ensures st == Ok ==> pos == old(pos) + width
    {
      if |data| - pos < width {
        return 0, Bad;
      }
      v, st := FromSignedField(data[pos..pos + width]), Ok;
      assert Rest()[..width] == data[pos..pos + width];
      pos := pos + width;
    }

    method TakeBits(width: nat) returns (v: nat, st: Status)
      requires Valid()
      modifies this
      ensures Valid() && pos >= old(pos) && Agrees(ReadBits(old(Rest()), width), st, v, Rest())
    {
      if |data| - pos < width {
        return 0, Bad;
      }
      v, st := FromBigEndian(data[pos..pos + width]), Ok;
      assert Rest()[..width] == data[pos..pos + width];
      pos := pos + width;
    }

    method TakeId() returns (v: byte, st: Status)
      requires Valid()
      modifies this
      ensures Valid() && pos >= old(pos) && Agrees(ReadId(old(Rest())), st, v, Rest())
      ensures st == Ok ==> pos == old(pos) + 1
    {
      if pos >= |data| {
        return 0, Bad;
      }
      v, st := data[pos], Ok;
      pos := pos + 1;
    }

    method TakeSlice(n: int) returns (v: seq<byte>, st: Status)
      requires Valid()
      modifies this
      ensures Valid() && pos >= old(pos) && Agrees(ReadSlice(old(Rest()), n), st, v, Rest())
    {
      if n > |data| - pos {
        return [], Bad;
      }
      if n < 0 {
        return [], Panicked;
      }
      v, st := data[pos..pos + n], Ok;
      assert Rest()[..n] == v;
      pos := pos + n;
    }

    method TakeName() returns (v: Name, st: Status)
      requires Valid()
      modifies this
      ensures Valid() && pos >= old(pos) && Agrees(ReadName(old(Rest())), st, v, Rest())
    {
      hide ReadField;
      var n, ok := TakeField(2);
      if ok != Ok {
        return [], ok;
      }
      v, st := TakeSlice(n);
    }

    method TakeNumbers(width: nat) returns (vs: seq<int>, st: Status)
      requires Valid()
      modifies this
      ensures Valid() && pos >= old(pos) && Agrees(ReadNumbers(old(Rest()), width), st, vs, Rest())
    {
      hide ReadField;
      vs := [];
      var n, ok := TakeField(4);
      if ok != Ok {
        return [], ok;
      }
      if n * width > |data| - pos {
        return [], Bad;
      }
      ghost var start := Rest();
      PrependLaws([], 0, ReadFields(start, width, n));
      var i := 0;
      while i < n
        invariant Valid() && pos >= old(pos)
        invariant 0 <= i && (n >= 0 ==> i <= n) && (n < 0 ==> i == 0)
        invariant ReadFields(start, width, n) == Prepend(vs, ReadFields(Rest(), width, n - i))
      {
        var v, okV := TakeField(width);
        if okV != Ok {
          return [], okV;
        }
        PrependLaws(vs, v, ReadFields(Rest(), width, n - i - 1));
        vs := vs + [v];
        i := i + 1;
      }
      PrependNone(vs, Rest());
      return vs, Ok;
    }

    method Take(id: byte) returns (t: Tag, st: Status)
      requires Valid()
      modifies this
      ensures Valid() && pos >= old(pos) && Agrees(ReadTag(id, old(Rest())), st, t, Rest())
      decreases |data| - pos, 1, 0
    {
      hide ReadField, ReadBits, ReadName, ReadNumbers, ReadItems, ReadEntries;
      t := End;
      match id {
        case 0 => st := Ok;
        case 1 => var v; v, st := TakeField(1); t := Byte(v);
        case 2 => var v; v, st := TakeField(2); t := Short(v);
        case 3 => var v; v, st := TakeField(4); t := Int(v);
        case 4 => var v; v, st := TakeField(8); t := Long(v);
        case 5 => var v; v, st := TakeBits(4); t := Float(v);
        case 6 => var v; v, st := TakeBits(8); t := Double(v);
        case 7 =>
          var n, ok := TakeField(4);
          if ok != Ok {
            return End, ok;
          }
          var bytes;
          bytes, st := TakeSlice(n);
          t := ByteArray(bytes);
        case 8 => var v; v, st := TakeName(); t := Str(v);
        case 9 =>
          var elemType, ok := TakeId();
          if ok != Ok {
            return End, ok;
          }
          var n;
          n, ok := TakeField(4);
          if ok != Ok {
            return End, ok;
          }
          var items;
          items, st := TakeItems(elemType, n);
          t := List(elemType, items);
        case 10 => var entries; entries, st := TakeEntries(); t := Compound(entries);
        case 11 => var vs; vs, st := TakeNumbers(4); t := IntArray(vs);
        case 12 => var vs; vs, st := TakeNumbers(8); t := LongArray(vs);
        case _ => st := Bad;
      }
    }

    method TakeItems(elemType: byte, n: int) returns (items: seq<Tag>, st: Status)
      requires Valid()
      modifies this
      ensures Valid() && pos >= old(pos) && Agrees(ReadItems(elemType, n, old(Rest())), st, items, Rest())
      decreases |data| - pos, 2, n
    {
      hide ReadTag;
      items := [];
      PrependLaws([], End, ReadItems(elemType, n, Rest()));
      var i := 0;
      while i < n
        invariant Valid() && pos >= old(pos)
        invariant 0 <= i && (n >= 0 ==> i <= n) && (n < 0 ==> i == 0)
        invariant ReadItems(elemType, n, old(Rest())) == Prepend(items, ReadItems(elemType, n - i, Rest()))
      {
        var item, ok := Take(elemType);
        if ok != Ok {
          return [], ok;
        }
        PrependLaws(items, item, ReadItems(elemType, n - i - 1, Rest()));
        items := items + [item];
        i := i + 1;
      }
      PrependNone(items, Rest());
      return items, Ok;
    }

    method TakeEntries() returns (entries: seq<Entry>, st: Status)
      requires Valid()
      modifies this
      ensures Valid() && pos >= old(pos) && Agrees(ReadEntries([], old(Rest())), st, entries, Rest())
      decreases |data| - pos, 0, 0
    {
      hide ReadTag, ReadId, ReadName;
      entries := [];
      while true
        invariant Valid() && pos >= old(pos)
        invariant ReadEntries([], old(Rest())) == ReadEntries(entries, Rest())
        decreases |data| - pos
      {
        var id, ok := TakeId();
        if ok != Ok {
          return [], ok;
        }
        if id == 0 {
          return entries, Ok;
        }
        var name;
        name, ok := TakeName();
        if ok != Ok {
          return [], ok;
        }
        var tag;
        tag, ok := Take(id);
        if ok != Ok {
          return [], ok;
        }
        entries := Insert(entries, name, tag);
      }
    }

    method TakeRoot() returns (entries: seq<Entry>, st: Status)
      requires Valid()
      modifies this
      ensures Valid() && Agrees(ReadRoot(old(Rest())), st, entries, Rest())
    {
      hide ReadTag, ReadId, ReadName;
      var id, ok := TakeId();
      if ok != Ok {
        return [], ok;
      }
      var _, okName := TakeName();
      if okName != Ok {
        return [], okName;
      }
      var tag;
      tag, ok := Take(id);
      if ok != Ok {
        return [], ok;
      }
      if !tag.Compound? {
        return [], Bad;
      }
      return tag.entries, Ok;
    }
  }
}
