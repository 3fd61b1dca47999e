/** nbt/read.go: how much the reader builds from how few bytes. One byte makes at most one tag, except
    for list items of type End, which take no byte and whose count nothing bounds. */
module NbtSize {
  import opened Bytes
  import opened Nbt

  // ---- every tag but End takes a byte ----

  lemma TagTakesBytes(id: byte, s: seq<byte>)
    requires ReadTag(id, s).Done?
    ensures if id == 0 then ReadTag(id, s) == Done(End, s) else |ReadTag(id, s).rest| < |s|
  {
    hide ReadField, ReadBits, ReadName, ReadNumbers, ReadSlice, ReadItems, ReadEntries;
    if id == 10 {
      EntriesTakeBytes([], s);
    } else if id == 11 {
      NumbersTakeBytes(s, 4);
    } else if id == 12 {
      NumbersTakeBytes(s, 8);
    }
  }

  lemma EntriesTakeBytes(acc: seq<Entry>, s: seq<byte>)
    requires ReadEntries(acc, s).Done?
    ensures |ReadEntries(acc, s).rest| < |s|
  {
    hide ReadTag, ReadName, Insert;
  }

  lemma NumbersTakeBytes(s: seq<byte>, width: nat)
    requires ReadNumbers(s, width).Done?
    ensures |ReadNumbers(s, width).rest| < |s|
  {
    hide ReadField, ReadFields;
  }

  /** The reader's list loop on End items: it takes nothing and never fails. */
  lemma {:induction false} EndItems(n: nat, s: seq<byte>)
    ensures ReadItems(0, n, s).Done? && |ReadItems(0, n, s).value| == n && ReadItems(0, n, s).rest == s
    decreases n
  {
    if n > 0 {
      EndItems(n - 1, s);
    }
  }

  lemma {:induction false} ItemsTakeBytes(elemType: byte, n: int, s: seq<byte>)
    requires elemType != 0 && ReadItems(elemType, n, s).Done?
    ensures |ReadItems(elemType, n, s).value| <= |s| - |ReadItems(elemType, n, s).rest|
    decreases n
  {
    hide ReadTag;
    if n > 0 {
      TagTakesBytes(elemType, s);
      ItemsTakeBytes(elemType, n - 1, ReadTag(elemType, s).rest);
    }
  }

  /** A list that was read has no more items than the bytes they took, exactly unless it is a list of End
      with a positive count. */
  lemma ItemsWithinBytesExactly(elemType: byte, n: int, s: seq<byte>)
    ensures var r := ReadItems(elemType, n, s);
            r.Done? ==> (|r.value| <= |s| - |r.rest| <==> elemType != 0 || n <= 0)
  {
    if ReadItems(elemType, n, s).Done? {
      if elemType != 0 {
        ItemsTakeBytes(elemType, n, s);
      } else if n > 0 {
        EndItems(n, s);
      }
    }
  }

  /** Twelve bytes, none of them 0x80 or more: a compound with one unnamed list of End. */
  const HUGE_LIST: seq<byte> := [0x0A, 0x00, 0x00, 0x09, 0x00, 0x00, 0x00, 0x7F, 0x7F, 0x7F, 0x7F, 0x00]

  lemma HugeListLayout(list: seq<byte>, body: seq<byte>)
    requires list == [0x00, 0x7F, 0x7F, 0x7F, 0x7F] + [0x00] && body == [0x09] + ([0x00, 0x00] + list)
    ensures HUGE_LIST != [] && HUGE_LIST[0] == 10 && HUGE_LIST[1..] == [0x00, 0x00] + body
    ensures body != [] && body[0] == 9 && body[1..] == [0x00, 0x00] + list
  {
    assert HUGE_LIST == [0x0A] + ([0x00, 0x00] + body);
  }

  /** The count is the big-endian number in its four bytes. */
  lemma CountField()
    ensures FromSignedField([0x7F, 0x7F, 0x7F, 0x7F]) == 0x7F7F_7F7F
  {
    var s: seq<byte> := [0x7F, 0x7F, 0x7F, 0x7F];
    assert s[..3] == [0x7F, 0x7F, 0x7F] && s[..3][..2] == [0x7F, 0x7F] && s[..3][..2][..1] == [0x7F];
    assert FromBigEndian([0x7F]) == 0x7F by { assert [0x7F][..0] == []; }
    assert FromBigEndian([0x7F, 0x7F]) == 0x7F7F;
    assert FromBigEndian([0x7F, 0x7F, 0x7F]) == 0x7F_7F7F;
    assert Pow256(4) == 0x1_0000_0000 by { assert Pow256(2) == 0x1_0000; }
  }

  lemma EmptyName(rest: seq<byte>)
    ensures ReadName([0x00, 0x00] + rest) == Done([], rest)
  {
    var s := [0x00, 0x00] + rest;
    assert s[..2] == [0x00, 0x00] && s[2..] == rest;
    ZeroField();
  }

  lemma ZeroField()
    ensures FromSignedField([0x00, 0x00]) == 0
  {
    var z: seq<byte> := [0x00, 0x00];
    assert z[..1] == [0x00] && [0x00][..0] == [];
    assert FromBigEndian([0x00]) == 0 && FromBigEndian(z) == 0;
  }

  lemma HugeListTag(rest: seq<byte>)
    ensures var r := ReadTag(9, [0x00, 0x7F, 0x7F, 0x7F, 0x7F] + rest);
            r.Done? && r.rest == rest && r.value.List? && |r.value.items| == 0x7F7F_7F7F
  {
    hide FromSignedField, ReadItems;
    var s := [0x00, 0x7F, 0x7F, 0x7F, 0x7F] + rest;
    assert s[0] == 0 && s[1..][..4] == [0x7F, 0x7F, 0x7F, 0x7F] && s[1..][4..] == rest;
    CountField();
    EndItems(0x7F7F_7F7F, rest);
  }

  /** A compound of one unnamed list. */
  lemma OneEntry(s: seq<byte>, list: seq<byte>, tag: Tag)
    requires s != [] && s[0] == 9 && ReadName(s[1..]) == Done([], list) && ReadTag(9, list) == Done(tag, [0x00])
    ensures ReadEntries([], s) == Done([Entry([], tag)], [])
  {
    hide ReadName, ReadTag;
    assert Insert([], [], tag) == [Entry([], tag)];
    assert ReadEntries([Entry([], tag)], [0x00]) == Done([Entry([], tag)], []) by {
      assert [0x00][1..] == [];
    }
  }

  lemma RootOf(s: seq<byte>, body: seq<byte>, entries: seq<Entry>)
    requires s != [] && s[0] == 10 && ReadName(s[1..]) == Done([], body) && ReadEntries([], body) == Done(entries, [])
    ensures ReadRoot(s) == Done(entries, [])
  {
    hide ReadName, ReadEntries;
  }

  /** They make the reader build a list of more than two thousand million items. */
  lemma TwelveBytesMakeAHugeList()
    ensures forall i :: 0 <= i < |HUGE_LIST| ==> HUGE_LIST[i] < 0x80
    ensures var r := ReadRoot(HUGE_LIST);
            && r.Done? && r.rest == [] && |r.value| == 1 && r.value[0].tag.List?
            && |r.value[0].tag.items| == 0x7F7F_7F7F
  {
    hide ReadName, ReadTag, ReadEntries, ReadRoot;
    var list := [0x00, 0x7F, 0x7F, 0x7F, 0x7F] + [0x00];
    var body := [0x09] + ([0x00, 0x00] + list);
    HugeListLayout(list, body);
    EmptyName(body);
    EmptyName(list);
    HugeListTag([0x00]);
    var tag := ReadTag(9, list).value;
    OneEntry(body, list, tag);
    RootOf(HUGE_LIST, body, [Entry([], tag)]);
  }

  // ---- everything else is bounded by the input ----

  /** The tags in a value, End items apart. */
  function TagCount(t: Tag): nat
    decreases t, 0
  {
    match t
    case End => 0
    case List(_, items) => 1 + ItemCount(items)
    case Compound(entries) => 1 + EntryCount(entries)
    case _ => 1
  }

  function ItemCount(items: seq<Tag>): nat {
    if items == [] then 0 else TagCount(items[0]) + ItemCount(items[1..])
  }

  function EntryCount(entries: seq<Entry>): nat {
    if entries == [] then 0 else TagCount(entries[0].tag) + EntryCount(entries[1..])
  }

  lemma {:induction false} InsertCounts(entries: seq<Entry>, name: Name, tag: Tag)
    ensures EntryCount(Insert(entries, name, tag)) <= EntryCount(entries) + TagCount(tag)
    decreases entries
  {
    hide TagCount;
    if entries == [] {
      assert Insert(entries, name, tag)[1..] == [];
    } else if entries[0].name == name {
      assert Insert(entries, name, tag)[1..] == entries[1..];
    } else {
      InsertCounts(entries[1..], name, tag);
      assert Insert(entries, name, tag)[1..] == Insert(entries[1..], name, tag);
    }
  }

  /** Whatever the input, the reader returns at most one tag for each byte it took, End items apart. */
  lemma {:induction false} OneTagPerByte(id: byte, s: seq<byte>)
    requires ReadTag(id, s).Done?
    ensures TagCount(ReadTag(id, s).value) <= |s| - |ReadTag(id, s).rest|
    decreases |s|, 1, 0
  {
    TagTakesBytes(id, s);
    hide ReadField, ReadBits, ReadName, ReadNumbers, ReadSlice, ReadItems, ReadEntries, ItemCount, EntryCount;
    if id == 9 {
      var s0 := ReadId(s).rest;
      OneItemPerByte(s[0], ReadField(s0, 4).value, ReadField(s0, 4).rest);
    } else if id == 10 {
      OneEntryPerByte([], s);
      NoEntries();
    }
  }

  lemma NoEntries()
    ensures EntryCount([]) == 0
  {
  }

  lemma {:induction false} OneItemPerByte(elemType: byte, n: int, s: seq<byte>)
    requires ReadItems(elemType, n, s).Done?
    ensures ItemCount(ReadItems(elemType, n, s).value) <= |s| - |ReadItems(elemType, n, s).rest|
    decreases |s|, 2, n
  {
    hide ReadTag, TagCount;
    if n > 0 {
      var item := ReadTag(elemType, s);
      OneTagPerByte(elemType, s);
      OneItemPerByte(elemType, n - 1, item.rest);
      var items := ReadItems(elemType, n, s).value;
      assert items[0] == item.value && items[1..] == ReadItems(elemType, n - 1, item.rest).value;
    }
  }

  lemma {:induction false} OneEntryPerByte(acc: seq<Entry>, s: seq<byte>)
    requires ReadEntries(acc, s).Done?
    ensures EntryCount(ReadEntries(acc, s).value) + 1 <= EntryCount(acc) + |s| - |ReadEntries(acc, s).rest|
    decreases |s|, 0, 0
  {
    hide ReadTag, ReadName, TagCount, EntryCount, Insert;
    if s[0] != 0 {
      var name := ReadName(s[1..]);
      var tag := ReadTag(s[0], name.rest);
      OneTagPerByte(s[0], name.rest);
      InsertCounts(acc, name.value, tag.value);
      OneEntryPerByte(Insert(acc, name.value, tag.value), tag.rest);
    }
  }

  lemma RootWithinBytes(s: seq<byte>)
    ensures var r := ReadRoot(s); r.Done? ==> EntryCount(r.value) <= |s| - |r.rest|
  {
    hide ReadTag, ReadName, EntryCount;
    if ReadRoot(s).Done? {
      var name := ReadName(s[1..]);
      OneTagPerByte(s[0], name.rest);
    }
  }
}
