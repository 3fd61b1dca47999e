/** nbt/nbt.go: compounds as the mutable objects they are, and deep cloning. */
module Compounds {
  import opened Bytes
  import opened Nbt

  /** A tag in the object graph: nested compounds and arrays are references, everything else is a value. */
  datatype Node =
    | Leaf(tag: Tag)
    | ByteSlice(bytes: array<byte>)
    | IntSlice(ints: array<int>)
    | LongSlice(longs: array<int>)
    | Items(elemType: byte, items: seq<Node>)
    | Ref(compound: Compound)

  /** A tag without children or elements of its own. */
  predicate IsScalar(tag: Tag) {
    !tag.Compound? && !tag.List? && !tag.ByteArray? && !tag.IntArray? && !tag.LongArray?
  }

  ghost predicate NodeValid(node: Node, within: set<object>)
    reads within
    decreases within, 1, node
  {
    match node
    case Leaf(tag) => IsScalar(tag)
    case ByteSlice(bytes) => bytes in within
    case IntSlice(ints) => ints in within
    case LongSlice(longs) => longs in within
    case Items(_, items) => forall i :: 0 <= i < |items| ==> NodeValid(items[i], within)
    case Ref(c) => c in within && c.Repr <= within && c.Valid()
  }

  ghost function NodeValue(node: Node, within: set<object>): Tag
    requires NodeValid(node, within)
    reads within
    decreases within, 2, node
  {
    match node
    case Leaf(tag) => tag
    case ByteSlice(bytes) => ByteArray(bytes[..])
    case IntSlice(ints) => IntArray(ints[..])
    case LongSlice(longs) => LongArray(longs[..])
    case Items(elemType, items) =>
      List(elemType, seq(|items|, i requires 0 <= i < |items| && NodeValid(items[i], within) reads within =>
        NodeValue(items[i], within)))
    case Ref(c) => Tag.Compound(c.Value())
  }

  /** Validity and value do not depend on how large a surrounding set one names. */
  lemma {:induction false} NodeWithinMore(node: Node, within: set<object>, more: set<object>)
    requires NodeValid(node, within) && within <= more
    ensures NodeValid(node, more) && NodeValue(node, more) == NodeValue(node, within)
    decreases node
  {
    if node.Items? {
      forall i | 0 <= i < |node.items|
        ensures NodeValid(node.items[i], more) && NodeValue(node.items[i], more) == NodeValue(node.items[i], within)
      {
        NodeWithinMore(node.items[i], within, more);
      }
    }
  }

  /** Names paired with their values, in order. */
  ghost function Listing(names: seq<Name>, vals: map<Name, Tag>): (v: seq<Entry>)
    ensures |v| == |names|
  {
    seq(|names|, i requires 0 <= i < |names| =>
      Entry(names[i], if names[i] in vals then vals[names[i]] else End))
  }

  /** The names are distinct and are exactly the given keys. */
  ghost predicate Keyed(names: seq<Name>, keys: set<Name>) {
    && (forall i, j :: 0 <= i < j < |names| ==> names[i] != names[j])
    && (forall n :: n in names <==> n in keys)
  }

  lemma ListingNone(vals: map<Name, Tag>)
    ensures Listing([], vals) == []
  {
  }

  /** Writing to the map and, for a new name, appending to the names is inserting an entry. */
  lemma ListingInsert(names: seq<Name>, vals: map<Name, Tag>, name: Name, tag: Tag)
    requires Keyed(names, vals.Keys)
    ensures var after := if name in vals then names else names + [name];
            && Keyed(after, vals.Keys + {name})
            && Listing(after, vals[name := tag]) == Nbt.Insert(Listing(names, vals), name, tag)
  {
    var v := Listing(names, vals);
    if name in vals {
      var k :| 0 <= k < |names| && names[k] == name;
      InsertExisting(v, k, name, tag);
      assert Listing(names, vals[name := tag]) == v[k := Entry(name, tag)];
    } else {
      InsertNew(v, name, tag);
      assert Listing(names + [name], vals[name := tag]) == v + [Entry(name, tag)];
    }
  }

  lemma KeysAreNames(names: seq<Name>, keys: set<Name>, name: Name)
    requires Keyed(names, keys)
    ensures name in keys <==> name in names
  {
  }

  /** Copying names one by one extends the listing one by one. */
  lemma ListingNext(names: seq<Name>, vals: map<Name, Tag>, i: nat)
    requires i < |names| && Keyed(names, vals.Keys)
    ensures names[i] in vals && names[i] !in names[..i]
    ensures names[..i] + [names[i]] == names[..i + 1]
    ensures Nbt.Insert(Listing(names[..i], vals), names[i], vals[names[i]]) == Listing(names[..i + 1], vals)
  {
    InsertNew(Listing(names[..i], vals), names[i], vals[names[i]]);
  }

  class Compound {
    var names: seq<Name>
    var tags: map<Name, Node>
    ghost var Repr: set<object>

    /** Names are distinct and exactly the map's keys; nested compounds form a finite graph. */
    ghost predicate Valid()
      reads this, Repr
      decreases Repr, 0
    {
      && this in Repr
      && Keyed(names, tags.Keys)
      && (forall n :: n in tags ==> NodeValid(tags[n], Repr - {this}))
    }

    constructor ()
      ensures Valid() && Repr == {this}
      ensures names == [] && tags == map[] && Value() == []
    {
      names, tags, Repr := [], map[], {this};
    }

    ghost function Vals(): map<Name, Tag>
      requires Valid()
      reads this, Repr
      decreases Repr, 0
    {
      map n | n in tags :: NodeValue(tags[n], Repr - {this})
    }

    /** The entries in insertion order. */
    ghost function Value(): seq<Entry>
      requires Valid()
      reads this, Repr
      decreases Repr, 1
    {
      Listing(names, Vals())
    }

    /** Insert: an existing key keeps its position. `parts` are the compounds the new tag brings. */
    method Insert(name: Name, node: Node, ghost parts: set<object>)
      requires Valid() && this !in parts && NodeValid(node, parts)
      modifies this
      ensures Valid() && Repr == old(Repr) + parts
      ensures Value() == Nbt.Insert(old(Value()), name, old(NodeValue(node, parts)))
      ensures names == if name in old(tags) then old(names) else old(names) + [name]
    {
      hide NodeValid, NodeValue, Nbt.Insert, Listing, Keyed;
      ghost var vals, nodes, inner, tag := Vals(), tags, Repr - {this}, NodeValue(node, parts);
      assert vals.Keys == tags.Keys;
      ListingInsert(names, vals, name, tag);
      if name !in tags {
        names := names + [name];
      }
      tags := tags[name := node];
      Repr := Repr + parts;
      assert forall n :: n in nodes ==> NodeValid(nodes[n], inner) && NodeValue(nodes[n], inner) == vals[n];
      Rebuilt(nodes, vals, inner, name, node, parts, tag);
    }

    lemma Rebuilt(nodes: map<Name, Node>, vals: map<Name, Tag>, inner: set<object>, name: Name, node: Node, parts: set<object>, tag: Tag)
      requires this in Repr && Repr - {this} == inner + parts
      requires tags == nodes[name := node] && vals.Keys == nodes.Keys
      requires Keyed(names, vals.Keys + {name})
      requires NodeValid(node, parts) && NodeValue(node, parts) == tag
      requires forall n :: n in nodes ==> NodeValid(nodes[n], inner) && NodeValue(nodes[n], inner) == vals[n]
      ensures Valid() && Vals() == vals[name := tag]
    {
      hide NodeValid, NodeValue, Keyed;
      assert tags.Keys == vals.Keys + {name};
      var now := Repr - {this};
      NodeWithinMore(node, parts, now);
      forall n | n in nodes
        ensures NodeValid(nodes[n], now) && NodeValue(nodes[n], now) == vals[n]
      {
        NodeWithinMore(nodes[n], inner, now);
      }
    }

    /** Clone: an equal compound made of new objects only. */
    method Clone() returns (out: Compound)
      requires Valid()
      ensures out.Valid() && fresh(out.Repr)
      ensures out.Value() == Value() && out.names == names
      decreases Repr, 1
    {
      hide NodeValid, NodeValue, Nbt.Insert, Listing, Keyed;
      out := new Compound();
      ghost var vals := Vals();
      assert vals.Keys == tags.Keys;
      ListingNone(vals);
      for i := 0 to |names|
        invariant out.Valid() && fresh(out.Repr)
        invariant out.names == names[..i]
        invariant out.Value() == Listing(names[..i], vals)
      {
        ListingNext(names, vals, i);
        var copy, parts := CloneNode(tags[names[i]], Repr - {this});
        KeysAreNames(out.names, out.tags.Keys, names[i]);
        out.Insert(names[i], copy, parts);
      }
      assert names[..|names|] == names;
    }

    function Get(name: Name): Option<Node>
      reads this
    {
      if name in tags then Some(tags[name]) else None
    }
  }

  method CopyNumbers(numbers: array<int>) returns (copy: array<int>)
    ensures fresh(copy) && copy[..] == numbers[..]
  {
    copy := new int[numbers.Length](i requires 0 <= i < numbers.Length reads numbers => numbers[i]);
  }

  /** cloneTag: the same value, made of new compounds and new arrays only. */
  method CloneNode(node: Node, ghost within: set<object>) returns (copy: Node, ghost parts: set<object>)
    requires NodeValid(node, within)
    ensures fresh(parts) && NodeValid(copy, parts)
    ensures NodeValue(copy, parts) == NodeValue(node, within)
    decreases within, 2, node
  {
    match node {
      case Leaf(tag) => copy, parts := node, {};
      case ByteSlice(bytes) =>
        var c := new byte[bytes.Length](i requires 0 <= i < bytes.Length reads bytes => bytes[i]);
        assert c[..] == bytes[..];
        copy, parts := ByteSlice(c), {c};
      case IntSlice(ints) =>
        var c := CopyNumbers(ints);
        copy, parts := IntSlice(c), {c};
      case LongSlice(longs) =>
        var c := CopyNumbers(longs);
        copy, parts := LongSlice(c), {c};
      case Ref(c) =>
        var d := c.Clone();
        copy, parts := Ref(d), d.Repr;
      case Items(elemType, items) =>
        var copies: seq<Node> := [];
        parts := {};
        for i := 0 to |items|
          invariant |copies| == i && fresh(parts)
          invariant forall k :: 0 <= k < i ==> NodeValid(copies[k], parts) && NodeValue(copies[k], parts) == NodeValue(items[k], within)
        {
          var one, more := CloneNode(items[i], within);
          ghost var all := parts + more;
          NodeWithinMore(one, more, all);
          forall k | 0 <= k < i
            ensures NodeValid(copies[k], all) && NodeValue(copies[k], all) == NodeValue(items[k], within)
          {
            NodeWithinMore(copies[k], parts, all);
          }
          copies, parts := copies + [one], all;
        }
        copy := Items(elemType, copies);
    }
  }
}
