/** mc/dimension.go: the lobby dimension, a clone of the most suitable dimension in the caller's
    codec with the lobby's properties written over it. */
module Dimension {
  import opened Bytes
  import opened Nbt
  import opened Compounds

  const DIMENSION_TYPE: Name := Ascii("minecraft:dimension_type")
  const VALUE: Name := Ascii("value")
  const NAME: Name := Ascii("name")
  const ELEMENT: Name := Ascii("element")
  const PREFERRED: seq<seq<byte>> :=
    [Ascii("minecraft:the_end"), Ascii("minecraft:the_nether"), Ascii("minecraft:the_overworld")]

  const OVERRIDES: seq<Entry> := [
    Entry(Ascii("piglin_safe"), Byte(1)),
    Entry(Ascii("ambient_light"), Float(0)),
    Entry(Ascii("respawn_anchor_works"), Byte(0)),
    Entry(Ascii("has_skylight"), Byte(0)),
    Entry(Ascii("bed_works"), Byte(0)),
    Entry(Ascii("effects"), Str(Ascii("minecraft:the_end"))),
    Entry(Ascii("fixed_time"), Long(0)),
    Entry(Ascii("has_raids"), Byte(0)),
    Entry(Ascii("min_y"), Int(0)),
    Entry(Ascii("height"), Int(16)),
    Entry(Ascii("logical_height"), Int(16)),
    Entry(Ascii("coordinate_scale"), Double(0x3FF0_0000_0000_0000)),
    Entry(Ascii("ultrawarm"), Byte(0)),
    Entry(Ascii("has_ceiling"), Byte(0))
  ]

  function Lookup(entries: seq<Entry>, name: Name): Option<Tag> {
    if entries == [] then None
    else if entries[0].name == name then Some(entries[0].tag)
    else Lookup(entries[1..], name)
  }

  function Names(entries: seq<Entry>): (r: seq<Name>)
    ensures |r| == |entries|
  {
    seq(|entries|, i requires 0 <= i < |entries| => entries[i].name)
  }

  function ApplyAll(entries: seq<Entry>, overrides: seq<Entry>): seq<Entry>
    decreases overrides
  {
    if overrides == [] then entries
    else ApplyAll(Nbt.Insert(entries, overrides[0].name, overrides[0].tag), overrides[1..])
  }

  // ---- choosing the base ----

  function ElementOf(d: Tag): Option<seq<Entry>> {
    if !d.Compound? then None
    else match Lookup(d.entries, ELEMENT)
      case Some(Compound(e)) => Some(e)
      case _ => None
  }

  predicate IsNamed(d: Tag, name: seq<byte>) {
    d.Compound? && Lookup(d.entries, NAME) == Some(Str(name))
  }

  function FirstNamed(items: seq<Tag>, name: seq<byte>): Option<seq<Entry>> {
    if items == [] then None
    else if IsNamed(items[0], name) && ElementOf(items[0]).Some? then ElementOf(items[0])
    else FirstNamed(items[1..], name)
  }

  function FirstPreferred(items: seq<Tag>, preferred: seq<seq<byte>>): Option<seq<Entry>>
    decreases preferred
  {
    if preferred == [] then None
    else if FirstNamed(items, preferred[0]).Some? then FirstNamed(items, preferred[0])
    else FirstPreferred(items, preferred[1..])
  }

  function BaseAmong(items: seq<Tag>, fallback: seq<Entry>): seq<Entry> {
    var preferred := FirstPreferred(items, PREFERRED);
    if preferred.Some? then preferred.value
    else if items != [] && ElementOf(items[0]).Some? then ElementOf(items[0]).value
    else fallback
  }

  function BaseDimension(types: seq<Entry>, fallback: seq<Entry>): seq<Entry> {
    match Lookup(types, VALUE)
    case Some(List(_, items)) => BaseAmong(items, fallback)
    case _ => fallback
  }

  function LobbyDimension(codec: seq<Entry>, fallback: seq<Entry>): seq<Entry> {
    match Lookup(codec, DIMENSION_TYPE)
    case Some(Compound(types)) => ApplyAll(BaseDimension(types, fallback), OVERRIDES)
    case _ => fallback
  }

  /** Item `i` is a dimension called `name` with an element to start from. */
  predicate Usable(items: seq<Tag>, i: nat, name: seq<byte>)
    requires i < |items|
  {
    IsNamed(items[i], name) && ElementOf(items[i]).Some?
  }

  /** The search for a name finds the element of the first usable item, if there is one. */
  lemma {:induction false} FirstNamedIsFirst(items: seq<Tag>, name: seq<byte>)
    ensures FirstNamed(items, name).None? <==> forall i :: 0 <= i < |items| ==> !Usable(items, i, name)
    ensures FirstNamed(items, name).Some? ==>
              exists i :: && 0 <= i < |items| && Usable(items, i, name) && FirstNamed(items, name) == ElementOf(items[i])
                          && forall j :: 0 <= j < i ==> !Usable(items, j, name)
    decreases items
  {
    hide IsNamed, ElementOf;
    if items != [] {
      var tail := items[1..];
      FirstNamedIsFirst(tail, name);
      assert forall i :: 0 < i < |items| ==> Usable(items, i, name) == Usable(tail, i - 1, name);
      assert Usable(items, 0, name) == (IsNamed(items[0], name) && ElementOf(items[0]).Some?);
      if !Usable(items, 0, name) {
        if FirstNamed(tail, name).Some? {
          var i :| && 0 <= i < |tail| && Usable(tail, i, name) && FirstNamed(tail, name) == ElementOf(tail[i])
                   && forall j :: 0 <= j < i ==> !Usable(tail, j, name);
          assert Usable(items, i + 1, name);
          assert forall j :: 0 <= j < i + 1 ==> !Usable(items, j, name);
        }
        if forall i :: 0 <= i < |items| ==> !Usable(items, i, name) {
          forall i | 0 <= i < |tail|
            ensures !Usable(tail, i, name)
          {
            assert !Usable(items, i + 1, name);
          }
        }
      }
    }
  }

  /** The base comes from the most preferred name that some usable item carries. */
  lemma {:induction false} MostPreferredWins(items: seq<Tag>, preferred: seq<seq<byte>>, k: nat)
    requires k < |preferred| && FirstNamed(items, preferred[k]).Some?
    requires forall j :: 0 <= j < k ==> FirstNamed(items, preferred[j]).None?
    ensures FirstPreferred(items, preferred) == FirstNamed(items, preferred[k])
    decreases k
  {
    if k > 0 {
      assert preferred[1..][k - 1] == preferred[k];
      assert forall j :: 0 <= j < k - 1 ==> preferred[1..][j] == preferred[j + 1];
      MostPreferredWins(items, preferred[1..], k - 1);
    }
  }

  /** A dimension called `name`. */
  ghost predicate Called(d: Tag, name: seq<byte>) {
    d.Compound? && Lookup(d.entries, Ascii("name")) == Some(Str(name))
  }

  /** A dimension's element, which is what a base can be made of. */
  ghost predicate HasElement(d: Tag, e: seq<Entry>) {
    d.Compound? && Lookup(d.entries, Ascii("element")) == Some(Tag.Compound(e))
  }

  lemma UsableMeans(items: seq<Tag>, i: nat, name: seq<byte>)
    requires i < |items|
    ensures Usable(items, i, name) <==> Called(items[i], name) && exists e :: HasElement(items[i], e)
    ensures ElementOf(items[i]).Some? ==> HasElement(items[i], ElementOf(items[i]).value)
    ensures (exists e :: HasElement(items[i], e)) ==> ElementOf(items[i]).Some?
  {
    hide Lookup, Ascii;
    if ElementOf(items[i]).Some? {
      assert HasElement(items[i], ElementOf(items[i]).value);
    }
  }

  /** In the order of preference: the End, the Nether, the Overworld. */
  function Preference(k: nat): seq<byte> {
    if k == 0 then Ascii("minecraft:the_end")
    else if k == 1 then Ascii("minecraft:the_nether")
    else Ascii("minecraft:the_overworld")
  }

  /** Some dimension of the k-th preference has an element. */
  ghost predicate Offers(items: seq<Tag>, k: nat) {
    exists i :: 0 <= i < |items| && Usable(items, i, Preference(k))
  }

  /** Exactly which base is chosen from a list of dimensions: the element of the first usable dimension of the
      most preferred name there is; without any, that of the first dimension; without that, the default. */
  lemma BaseExactly(items: seq<Tag>, fallback: seq<Entry>)
    ensures var base := BaseAmong(items, fallback);
            && (forall k :: 0 <= k < 3 && Offers(items, k) && (forall j :: 0 <= j < k ==> !Offers(items, j)) ==>
                  exists i :: && 0 <= i < |items| && Usable(items, i, Preference(k)) && ElementOf(items[i]) == Some(base)
                              && forall j :: 0 <= j < i ==> !Usable(items, j, Preference(k)))
            && ((forall k :: 0 <= k < 3 ==> !Offers(items, k)) ==>
                  base == if items != [] && ElementOf(items[0]).Some? then ElementOf(items[0]).value else fallback)
  {
    hide Usable, ElementOf, FirstNamed, Ascii;
    forall k | 0 <= k < 3
      ensures PREFERRED[k] == Preference(k)
      ensures Offers(items, k) <==> FirstNamed(items, PREFERRED[k]).Some?
    {
      FirstNamedIsFirst(items, PREFERRED[k]);
    }
    forall k | 0 <= k < 3 && Offers(items, k) && forall j :: 0 <= j < k ==> !Offers(items, j)
      ensures exists i :: && 0 <= i < |items| && Usable(items, i, Preference(k)) && ElementOf(items[i]) == Some(BaseAmong(items, fallback))
                          && forall j :: 0 <= j < i ==> !Usable(items, j, Preference(k))
    {
      FirstNamedIsFirst(items, PREFERRED[k]);
      MostPreferredWins(items, PREFERRED, k);
    }
    if forall k :: 0 <= k < 3 ==> !Offers(items, k) {
      assert !Offers(items, 0) && !Offers(items, 1) && !Offers(items, 2);
      NoneWins(items, PREFERRED);
    }
  }

  lemma {:induction false} NoneWins(items: seq<Tag>, preferred: seq<seq<byte>>)
    requires forall k :: 0 <= k < |preferred| ==> FirstNamed(items, preferred[k]).None?
    ensures FirstPreferred(items, preferred).None?
    decreases preferred
  {
    if preferred != [] {
      NoneWins(items, preferred[1..]);
    }
  }

  /** Where the list of dimensions is found, and that the default serves without one. */
  lemma SourceExactly(codec: seq<Entry>, fallback: seq<Entry>)
    ensures var types := Lookup(codec, Ascii("minecraft:dimension_type"));
            var found := types.Some? && types.value.Compound?;
            && (!found ==> LobbyDimension(codec, fallback) == fallback)
            && (found ==>
                  var value := Lookup(types.value.entries, Ascii("value"));
                  BaseDimension(types.value.entries, fallback) ==
                    if value.Some? && value.value.List? then BaseAmong(value.value.items, fallback) else fallback)
  {
    hide Lookup, Ascii, ApplyAll;
  }

  // ---- what writing over a dimension does ----

  lemma {:induction false} InsertLookup(entries: seq<Entry>, name: Name, tag: Tag, other: Name)
    ensures Lookup(Nbt.Insert(entries, name, tag), other) == if other == name then Some(tag) else Lookup(entries, other)
    decreases entries
  {
    if entries != [] {
      if entries[0].name == name {
        assert ([Entry(name, tag)] + entries[1..])[1..] == entries[1..];
      } else {
        InsertLookup(entries[1..], name, tag, other);
        assert ([entries[0]] + Nbt.Insert(entries[1..], name, tag))[1..] == Nbt.Insert(entries[1..], name, tag);
      }
    }
  }

  lemma NamesCons(e: Entry, entries: seq<Entry>)
    ensures Names([e] + entries) == [e.name] + Names(entries)
  {
  }

  lemma {:induction false} InsertNames(entries: seq<Entry>, name: Name, tag: Tag)
    ensures Names(Nbt.Insert(entries, name, tag)) == if name in Names(entries) then Names(entries) else Names(entries) + [name]
    decreases entries
  {
    if entries == [] {
      NamesCons(Entry(name, tag), []);
    } else {
      hide Names;
      var tail := entries[1..];
      assert entries == [entries[0]] + tail;
      NamesCons(entries[0], tail);
      NamesCons(Entry(name, tag), tail);
      NamesCons(entries[0], Nbt.Insert(tail, name, tag));
      InsertNames(tail, name, tag);
      assert [entries[0].name] + (Names(tail) + [name]) == [entries[0].name] + Names(tail) + [name];
    }
  }

  /** Overrides with distinct names all take effect, no other entry changes, and the existing names
      keep their order at the front. */
  lemma {:induction false} OverridesTakeEffect(entries: seq<Entry>, overrides: seq<Entry>, name: Name)
    requires DistinctNames(overrides)
    ensures var r := ApplyAll(entries, overrides);
            && Names(entries) <= Names(r)
            && (forall i :: 0 <= i < |overrides| && overrides[i].name == name ==> Lookup(r, name) == Some(overrides[i].tag))
            && (name !in Names(overrides) ==> Lookup(r, name) == Lookup(entries, name))
    decreases overrides
  {
    if overrides != [] {
      var o := overrides[0];
      InsertLookup(entries, o.name, o.tag, name);
      InsertNames(entries, o.name, o.tag);
      NamesCons(o, overrides[1..]);
      assert overrides == [o] + overrides[1..];
      OverridesTakeEffect(Nbt.Insert(entries, o.name, o.tag), overrides[1..], name);
      if name == o.name {
        assert name !in Names(overrides[1..]);
      }
    }
  }

  lemma OverrideNamesDistinct()
    ensures DistinctNames(OVERRIDES)
  {
    assert OVERRIDES[0].name[0] == 'p' as int && OVERRIDES[13].name[0] == 'h' as int;
    assert OVERRIDES[4].name[0] == 'b' as int && OVERRIDES[7].name[0] == 'h' as int && OVERRIDES[12].name[0] == 'u' as int;
  }

  /** The lobby dimension of any codec that has dimension types carries every lobby property, keeps
      the order of the base it was cloned from, and agrees with that base everywhere else. */
  lemma LobbyDimensionShape(codec: seq<Entry>, fallback: seq<Entry>, types: seq<Entry>, name: Name)
    requires Lookup(codec, DIMENSION_TYPE) == Some(Tag.Compound(types))
    ensures var base := BaseDimension(types, fallback);
            var r := LobbyDimension(codec, fallback);
            && Names(base) <= Names(r)
            && (forall i :: 0 <= i < |OVERRIDES| && OVERRIDES[i].name == name ==> Lookup(r, name) == Some(OVERRIDES[i].tag))
            && (name !in Names(OVERRIDES) ==> Lookup(r, name) == Lookup(base, name))
  {
    OverrideNamesDistinct();
    OverridesTakeEffect(BaseDimension(types, fallback), OVERRIDES, name);
  }

  /** The lobby's properties, one by one. */
  lemma LobbyProperties(codec: seq<Entry>, fallback: seq<Entry>, types: seq<Entry>)
    requires Lookup(codec, DIMENSION_TYPE) == Some(Tag.Compound(types))
    ensures var r := LobbyDimension(codec, fallback);
            && Lookup(r, Ascii("piglin_safe")) == Some(Byte(1)) && Lookup(r, Ascii("ambient_light")) == Some(Float(0))
            && Lookup(r, Ascii("respawn_anchor_works")) == Some(Byte(0)) && Lookup(r, Ascii("has_skylight")) == Some(Byte(0))
            && Lookup(r, Ascii("bed_works")) == Some(Byte(0))
            && Lookup(r, Ascii("effects")) == Some(Str(Ascii("minecraft:the_end")))
            && Lookup(r, Ascii("fixed_time")) == Some(Long(0)) && Lookup(r, Ascii("has_raids")) == Some(Byte(0))
            && Lookup(r, Ascii("min_y")) == Some(Int(0)) && Lookup(r, Ascii("height")) == Some(Int(16))
            && Lookup(r, Ascii("logical_height")) == Some(Int(16))
            && Lookup(r, Ascii("coordinate_scale")) == Some(Double(0x3FF0_0000_0000_0000))
            && Lookup(r, Ascii("ultrawarm")) == Some(Byte(0)) && Lookup(r, Ascii("has_ceiling")) == Some(Byte(0))
  {
    hide Lookup, LobbyDimension, Names, BaseDimension, Ascii;
    var r := LobbyDimension(codec, fallback);
    forall i | 0 <= i < |OVERRIDES|
      ensures Lookup(r, OVERRIDES[i].name) == Some(OVERRIDES[i].tag)
    {
      LobbyDimensionShape(codec, fallback, types, OVERRIDES[i].name);
    }
    assert OVERRIDES[0] == Entry(Ascii("piglin_safe"), Byte(1)) && OVERRIDES[1] == Entry(Ascii("ambient_light"), Float(0));
    assert OVERRIDES[2] == Entry(Ascii("respawn_anchor_works"), Byte(0)) && OVERRIDES[3] == Entry(Ascii("has_skylight"), Byte(0));
    assert OVERRIDES[4] == Entry(Ascii("bed_works"), Byte(0)) && OVERRIDES[5] == Entry(Ascii("effects"), Str(Ascii("minecraft:the_end")));
    assert OVERRIDES[6] == Entry(Ascii("fixed_time"), Long(0)) && OVERRIDES[7] == Entry(Ascii("has_raids"), Byte(0));
    assert OVERRIDES[8] == Entry(Ascii("min_y"), Int(0)) && OVERRIDES[9] == Entry(Ascii("height"), Int(16));
    assert OVERRIDES[10] == Entry(Ascii("logical_height"), Int(16));
    assert OVERRIDES[11] == Entry(Ascii("coordinate_scale"), Double(0x3FF0_0000_0000_0000));
    assert OVERRIDES[12] == Entry(Ascii("ultrawarm"), Byte(0)) && OVERRIDES[13] == Entry(Ascii("has_ceiling"), Byte(0));
  }

  // ---- the same on the object graph ----

  lemma {:induction false} LookupListing(names: seq<Name>, vals: map<Name, Tag>, name: Name)
    requires forall i :: 0 <= i < |names| ==> names[i] in vals
    ensures Lookup(Listing(names, vals), name) == if name in names then Some(vals[name]) else None
    decreases names
  {
    if names != [] {
      LookupListing(names[1..], vals, name);
      assert Listing(names, vals)[1..] == Listing(names[1..], vals);
    }
  }

  lemma GetIsLookup(c: Compound, name: Name)
    requires c.Valid()
    ensures name in c.tags <==> Lookup(c.Value(), name).Some?
    ensures name in c.tags ==>
      NodeValid(c.tags[name], c.Repr - {c}) && Lookup(c.Value(), name) == Some(NodeValue(c.tags[name], c.Repr - {c}))
  {
    hide NodeValid, NodeValue, Lookup, Listing;
    LookupListing(c.names, c.Vals(), name);
  }

  /** GetCompound: nil stands for its error. */
  method GetCompound(c: Compound, name: Name) returns (r: Compound?)
    requires c.Valid()
    ensures r == null ==> forall e :: Lookup(c.Value(), name) != Some(Tag.Compound(e))
    ensures r != null ==> r.Repr <= c.Repr - {c} && r.Valid() && Lookup(c.Value(), name) == Some(Tag.Compound(r.Value()))
  {
    GetIsLookup(c, name);
    hide Lookup;
    var node := c.Get(name);
    if node.Some? && node.value.Ref? {
      return node.value.compound;
    }
    return null;
  }

  method ElementIn(d: Node, ghost within: set<object>) returns (e: Compound?)
    requires NodeValid(d, within)
    ensures e == null ==> ElementOf(NodeValue(d, within)).None?
    ensures e != null ==> e.Repr <= within && e.Valid() && ElementOf(NodeValue(d, within)) == Some(e.Value())
  {
    hide Lookup;
    e := null;
    if d.Ref? {
      e := GetCompound(d.compound, ELEMENT);
    }
  }

  method HasName(d: Node, name: seq<byte>, ghost within: set<object>) returns (yes: bool)
    requires NodeValid(d, within)
    ensures yes == IsNamed(NodeValue(d, within), name)
  {
    if !d.Ref? {
      return false;
    }
    GetIsLookup(d.compound, NAME);
    hide Lookup;
    var node := d.compound.Get(NAME);
    return node.Some? && node.value == Leaf(Str(name));
  }

  ghost function NodeValues(items: seq<Node>, within: set<object>): (r: seq<Tag>)
    requires forall i :: 0 <= i < |items| ==> NodeValid(items[i], within)
    reads within
    ensures |r| == |items|
  {
    seq(|items|, i requires 0 <= i < |items| && NodeValid(items[i], within) reads within => NodeValue(items[i], within))
  }

  method FindNamed(items: seq<Node>, name: seq<byte>, ghost within: set<object>) returns (e: Compound?)
    requires forall i :: 0 <= i < |items| ==> NodeValid(items[i], within)
    ensures e == null ==> FirstNamed(NodeValues(items, within), name).None?
    ensures e != null ==> e.Repr <= within && e.Valid() && FirstNamed(NodeValues(items, within), name) == Some(e.Value())
  {
    hide NodeValid, NodeValue, IsNamed, ElementOf;
    ghost var tags := NodeValues(items, within);
    for i := 0 to |items|
      invariant FirstNamed(tags[i..], name) == FirstNamed(tags, name)
    {
      assert tags[i..][0] == NodeValue(items[i], within) && tags[i..][1..] == tags[i + 1..];
      var yes := HasName(items[i], name, within);
      if yes {
        e := ElementIn(items[i], within);
        if e != null {
          return;
        }
      }
    }
    return null;
  }

  method FindPreferred(items: seq<Node>, ghost within: set<object>) returns (e: Compound?)
    requires forall i :: 0 <= i < |items| ==> NodeValid(items[i], within)
    ensures e == null ==> FirstPreferred(NodeValues(items, within), PREFERRED).None?
    ensures e != null ==> e.Repr <= within && e.Valid() && FirstPreferred(NodeValues(items, within), PREFERRED) == Some(e.Value())
  {
    hide NodeValid, NodeValue, FirstNamed;
    ghost var tags := NodeValues(items, within);
    for k := 0 to |PREFERRED|
      invariant FirstPreferred(tags, PREFERRED[k..]) == FirstPreferred(tags, PREFERRED)
    {
      assert PREFERRED[k..][0] == PREFERRED[k] && PREFERRED[k..][1..] == PREFERRED[k + 1..];
      e := FindNamed(items, PREFERRED[k], within);
      if e != null {
        return;
      }
    }
    return null;
  }

  lemma BaseOnGraph(types: Compound, fallback: seq<Entry>)
    requires types.Valid()
    ensures var node := types.Get(VALUE);
            var within := types.Repr - {types};
            if node.Some? && node.value.Items? then
              && (forall i :: 0 <= i < |node.value.items| ==> NodeValid(node.value.items[i], within))
              && BaseDimension(types.Value(), fallback) == BaseAmong(NodeValues(node.value.items, within), fallback)
            else BaseDimension(types.Value(), fallback) == fallback
  {
    hide Lookup, BaseAmong, Compounds.Compound.Value;
    GetIsLookup(types, VALUE);
  }

  /** lobbyBaseDimension; `fallback` is the freshly parsed default dimension. */
  method ChooseBase(types: Compound, fallback: Compound) returns (base: Compound)
    requires types.Valid() && fallback.Valid()
    ensures base.Valid() && (fresh(base.Repr) || base == fallback)
    ensures base.Value() == BaseDimension(types.Value(), fallback.Value())
  {
    hide NodeValid, NodeValue, BaseDimension, ElementOf, FirstPreferred, Compounds.Compound.Value;
    BaseOnGraph(types, fallback.Value());
    var node := types.Get(VALUE);
    if node.None? || !node.value.Items? {
      return fallback;
    }
    var items := node.value.items;
    var e := FindPreferred(items, types.Repr - {types});
    if e == null && |items| > 0 {
      e := ElementIn(items[0], types.Repr - {types});
    }
    if e == null {
      return fallback;
    }
    base := e.Clone();
  }

  method Override(base: Compound, overrides: seq<Entry>)
    requires base.Valid()
    requires forall i :: 0 <= i < |overrides| ==> IsScalar(overrides[i].tag)
    modifies base
    ensures base.Valid() && base.Repr == old(base.Repr)
    ensures base.Value() == ApplyAll(old(base.Value()), overrides)
  {
    hide Nbt.Insert, Compounds.Compound.Value;
    for i := 0 to |overrides|
      invariant base.Valid() && base.Repr == old(base.Repr)
      invariant ApplyAll(base.Value(), overrides[i..]) == ApplyAll(old(base.Value()), overrides)
    {
      assert overrides[i..][0] == overrides[i] && overrides[i..][1..] == overrides[i + 1..];
      base.Insert(overrides[i].name, Leaf(overrides[i].tag), {});
    }
  }

  lemma OverridesAreScalar()
    ensures forall i :: 0 <= i < |OVERRIDES| ==> IsScalar(OVERRIDES[i].tag)
  {
    hide Ascii;
  }

  /** LobbyDimension on the object graph: the caller's codec is the same at every depth afterwards,
      because every write goes to new objects or to the fallback parsed for this call. */
  method BuildLobbyDimension(codec: Compound, fallback: Compound) returns (base: Compound)
    requires codec.Valid() && fallback.Valid() && codec.Repr !! fallback.Repr
    modifies fallback
    ensures codec.Valid() && codec.Value() == old(codec.Value()) && codec.Repr == old(codec.Repr)
    ensures base.Valid() && (fresh(base.Repr) || base == fallback)
    ensures base.Value() == LobbyDimension(old(codec.Value()), old(fallback.Value()))
  {
    hide Lookup, BaseDimension, ApplyAll, Listing, Keyed, NodeValid, NodeValue, IsScalar, Ascii, Compounds.Compound.Value;
    OverridesAreScalar();
    var types := GetCompound(codec, DIMENSION_TYPE);
    if types == null {
      return fallback;
    }
    base := ChooseBase(types, fallback);
    Override(base, OVERRIDES);
  }
}
