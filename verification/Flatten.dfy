/** `flatten_dict`: a tree of dictionaries as one dictionary of joined keys. */
module Flatten {
  import opened Text

  /** A dictionary with its entries in order, each a leaf or a dictionary. */
  datatype Tree<V> = Leaf(value: V) | Node(entries: Entries<V>)
  datatype Entries<V> = Nil | Entry(key: string, tree: Tree<V>, rest: Entries<V>)

  /** `key.replace("_", "-")` */
  function Dashed(key: string): string {
    seq(|key|, i requires 0 <= i < |key| => if key[i] == '_' then '-' else key[i])
  }

  /** `flatten_dict(data, prefix)`; a later entry replaces an earlier one with the same key. */
  function FlattenDict<V>(data: Entries<V>, prefix: string): map<string, V>
    decreases data
  {
    match data
    case Nil => map[]
    case Entry(key, tree, rest) => FlattenTree(key, tree, prefix) + FlattenDict(rest, prefix)
  }

  function FlattenTree<V>(key: string, tree: Tree<V>, prefix: string): map<string, V>
    decreases tree
  {
    match tree
    case Leaf(v) => map[prefix + Dashed(key) := v]
    case Node(entries) => FlattenDict(entries, prefix + Dashed(key) + "-")
  }

  lemma FlattenOneMore<V>(before: map<string, V>, left: Entries<V>, prefix: string)
    requires left.Entry?
    ensures before + FlattenDict(left, prefix)
         == (before + FlattenTree(left.key, left.tree, prefix)) + FlattenDict(left.rest, prefix)
  {
    MapConcat(before, FlattenTree(left.key, left.tree, prefix), FlattenDict(left.rest, prefix));
  }

  lemma MapConcat<K, V>(a: map<K, V>, b: map<K, V>, c: map<K, V>)
    ensures a + (b + c) == (a + b) + c
  {
  }

  /** The loop that fills `output`. */
  method Fill<V>(data: Entries<V>, prefix: string) returns (output: map<string, V>)
    ensures output == FlattenDict(data, prefix)
    decreases data
  {
    output := map[];
    var left := data;
    while left.Entry?
      invariant FlattenDict(data, prefix) == output + FlattenDict(left, prefix)
      invariant left == data || left < data
      decreases left
    {
      var prefixedKey := prefix + Dashed(left.key);
      ghost var before, entry := output, FlattenTree(left.key, left.tree, prefix);
      FlattenOneMore(output, left, prefix);
      if left.tree.Node? {
        var inner := Fill(left.tree.entries, prefixedKey + "-");
        assert inner == entry;
        output := output + inner;
      } else {
        assert entry == map[prefixedKey := left.tree.value];
        output := output[prefixedKey := left.tree.value];
      }
      assert output == before + entry;
      left := left.rest;
    }
  }

  // --- Leaves ---

  /** A leaf and the keys on the way to it. */
  datatype LeafAt<V> = LeafAt(path: seq<string>, value: V)

  function Under<V>(key: string, leaves: seq<LeafAt<V>>): seq<LeafAt<V>> {
    if leaves == [] then []
    else [LeafAt([key] + leaves[0].path, leaves[0].value)] + Under(key, leaves[1..])
  }

  function Leaves<V>(data: Entries<V>): seq<LeafAt<V>> {
    match data
    case Nil => []
    case Entry(key, tree, rest) =>
      (match tree
       case Leaf(v) => [LeafAt([key], v)]
       case Node(entries) => Under(key, Leaves(entries)))
      + Leaves(rest)
  }

  /** The keys on the way, dashed and joined by dashes. */
  function JoinedKey(path: seq<string>): string {
    if path == [] then ""
    else if |path| == 1 then Dashed(path[0])
    else Dashed(path[0]) + "-" + JoinedKey(path[1..])
  }

  /** The dictionary of some leaves, the last of several with the same key winning. */
  function FromLeaves<V>(leaves: seq<LeafAt<V>>, prefix: string): map<string, V> {
    if leaves == [] then map[]
    else map[prefix + JoinedKey(leaves[0].path) := leaves[0].value] + FromLeaves(leaves[1..], prefix)
  }

  lemma {:induction false} FromLeavesConcat<V>(a: seq<LeafAt<V>>, b: seq<LeafAt<V>>, prefix: string)
    ensures FromLeaves(a + b, prefix) == FromLeaves(a, prefix) + FromLeaves(b, prefix)
  {
    if a == [] {
      assert a + b == b;
    } else {
      assert (a + b)[1..] == a[1..] + b;
      FromLeavesConcat(a[1..], b, prefix);
      MapConcat(map[prefix + JoinedKey(a[0].path) := a[0].value], FromLeaves(a[1..], prefix), FromLeaves(b, prefix));
    }
  }

  lemma {:induction false} FromLeavesUnder<V>(key: string, leaves: seq<LeafAt<V>>, prefix: string)
    requires forall i | 0 <= i < |leaves| :: leaves[i].path != []
    ensures FromLeaves(Under(key, leaves), prefix) == FromLeaves(leaves, prefix + Dashed(key) + "-")
  {
    if leaves != [] {
      var path := leaves[0].path;
      assert ([key] + path)[1..] == path;
      assert prefix + (Dashed(key) + "-" + JoinedKey(path)) == prefix + Dashed(key) + "-" + JoinedKey(path);
      FromLeavesUnder(key, leaves[1..], prefix);
    }
  }

  lemma {:induction false} UnderPaths<V>(key: string, leaves: seq<LeafAt<V>>)
    ensures forall i | 0 <= i < |Under(key, leaves)| :: Under(key, leaves)[i].path != []
  {
    if leaves != [] { UnderPaths(key, leaves[1..]); }
  }

  lemma {:induction false} LeavesPaths<V>(data: Entries<V>)
    ensures forall i | 0 <= i < |Leaves(data)| :: Leaves(data)[i].path != []
  {
    if data.Entry? {
      LeavesPaths(data.rest);
      if data.tree.Node? { UnderPaths(data.key, Leaves(data.tree.entries)); }
    }
  }

  /** Flattening gives each leaf, at any depth, under its joined key; where joined keys collide
      the last leaf wins. */
  lemma {:induction false} FlattenGivesLeaves<V>(data: Entries<V>, prefix: string)
    ensures FlattenDict(data, prefix) == FromLeaves(Leaves(data), prefix)
  {
    if data.Entry? {
      FlattenGivesLeaves(data.rest, prefix);
      match data.tree
      case Leaf(v) =>
        FromLeavesConcat([LeafAt([data.key], v)], Leaves(data.rest), prefix);
        assert [LeafAt([data.key], v)][1..] == [];
      case Node(entries) =>
        FlattenGivesLeaves(entries, prefix + Dashed(data.key) + "-");
        LeavesPaths(entries);
        FromLeavesUnder(data.key, Leaves(entries), prefix);
        FromLeavesConcat(Under(data.key, Leaves(entries)), Leaves(data.rest), prefix);
    }
  }

  /** No two leaves have the same joined key. */
  predicate DistinctKeys<V>(leaves: seq<LeafAt<V>>) {
    leaves == [] || (JoinedKey(leaves[0].path) !in JoinedKeys(leaves[1..]) && DistinctKeys(leaves[1..]))
  }

  function JoinedKeys<V>(leaves: seq<LeafAt<V>>): set<string> {
    if leaves == [] then {} else {JoinedKey(leaves[0].path)} + JoinedKeys(leaves[1..])
  }

  lemma {:induction false} FromLeavesKeys<V>(leaves: seq<LeafAt<V>>, prefix: string, key: string)
    ensures prefix + key in FromLeaves(leaves, prefix) <==> key in JoinedKeys(leaves)
  {
    if leaves != [] {
      FromLeavesKeys(leaves[1..], prefix, key);
      SamePrefix(prefix, key, JoinedKey(leaves[0].path));
    }
  }

  lemma SamePrefix(prefix: string, a: string, b: string)
    ensures prefix + a == prefix + b <==> a == b
  {
    assert (prefix + a)[|prefix|..] == a && (prefix + b)[|prefix|..] == b;
  }

  /** There are as many entries as leaves exactly when no two leaves have the same joined key. */
  lemma {:induction false} AsManyEntriesExactly<V>(leaves: seq<LeafAt<V>>, prefix: string)
    ensures |FromLeaves(leaves, prefix)| <= |leaves|
    ensures |FromLeaves(leaves, prefix)| == |leaves| <==> DistinctKeys(leaves)
  {
    if leaves != [] {
      var key, rest := JoinedKey(leaves[0].path), FromLeaves(leaves[1..], prefix);
      AsManyEntriesExactly(leaves[1..], prefix);
      FromLeavesKeys(leaves[1..], prefix, key);
      var all := FromLeaves(leaves, prefix);
      assert all.Keys == rest.Keys + {prefix + key};
      assert |all| == |all.Keys| && |rest| == |rest.Keys|;
    }
  }

  lemma {:induction false} JoinedKeyIn<V>(leaves: seq<LeafAt<V>>, i: nat)
    requires i < |leaves|
    ensures JoinedKey(leaves[i].path) in JoinedKeys(leaves)
  {
    if i > 0 { JoinedKeyIn(leaves[1..], i - 1); }
  }

  /** Without collision every leaf keeps its value. */
  lemma {:induction false} LeafIsKept<V>(leaves: seq<LeafAt<V>>, prefix: string, i: nat)
    requires DistinctKeys(leaves) && i < |leaves|
    ensures var k := prefix + JoinedKey(leaves[i].path);
            k in FromLeaves(leaves, prefix) && FromLeaves(leaves, prefix)[k] == leaves[i].value
  {
    if i > 0 {
      LeafIsKept(leaves[1..], prefix, i - 1);
    } else {
      FromLeavesKeys(leaves[1..], prefix, JoinedKey(leaves[0].path));
    }
  }

  /** The entries of a flattened dictionary are in bijection with its leaves, each value kept,
      exactly when no two leaves have the same joined key. */
  lemma FlattenIsBijective<V>(data: Entries<V>, prefix: string)
    ensures |FlattenDict(data, prefix)| == |Leaves(data)| <==> DistinctKeys(Leaves(data))
    ensures DistinctKeys(Leaves(data)) ==>
      forall i | 0 <= i < |Leaves(data)| ::
        var k := prefix + JoinedKey(Leaves(data)[i].path);
        k in FlattenDict(data, prefix) && FlattenDict(data, prefix)[k] == Leaves(data)[i].value
  {
    var leaves := Leaves(data);
    FlattenGivesLeaves(data, prefix);
    AsManyEntriesExactly(leaves, prefix);
    if DistinctKeys(leaves) {
      forall i | 0 <= i < |leaves|
        ensures var k := prefix + JoinedKey(leaves[i].path);
                k in FlattenDict(data, prefix) && FlattenDict(data, prefix)[k] == leaves[i].value
      {
        LeafIsKept(leaves, prefix, i);
      }
    }
  }

  /** A prefix only goes in front of every key. */
  lemma PrefixGoesInFront<V>(data: Entries<V>, prefix: string, key: string)
    ensures prefix + key in FlattenDict(data, prefix) <==> key in FlattenDict(data, "")
    ensures key in FlattenDict(data, "") ==> FlattenDict(data, prefix)[prefix + key] == FlattenDict(data, "")[key]
    ensures forall k | k in FlattenDict(data, prefix) :: prefix <= k
  {
    FlattenGivesLeaves(data, prefix);
    FlattenGivesLeaves(data, "");
    PrefixOfLeaves(Leaves(data), prefix, key);
  }

  lemma {:induction false} PrefixOfLeaves<V>(leaves: seq<LeafAt<V>>, prefix: string, key: string)
    ensures prefix + key in FromLeaves(leaves, prefix) <==> key in FromLeaves(leaves, "")
    ensures key in FromLeaves(leaves, "") ==> FromLeaves(leaves, prefix)[prefix + key] == FromLeaves(leaves, "")[key]
    ensures forall k | k in FromLeaves(leaves, prefix) :: prefix <= k
  {
    if leaves != [] {
      PrefixOfLeaves(leaves[1..], prefix, key);
      SamePrefix(prefix, key, JoinedKey(leaves[0].path));
      assert "" + JoinedKey(leaves[0].path) == JoinedKey(leaves[0].path);
    }
  }

  // --- The text of a joined key ---

  /** The keys of a path joined by dashes, as they are. */
  function RawKey(path: seq<string>): string { Join(path, "-") }

  /** A joined key is the path joined by dashes with a dash for each underscore. */
  lemma {:induction false} JoinedKeyExactly(path: seq<string>, i: nat)
    requires i < |RawKey(path)|
    ensures |JoinedKey(path)| == |RawKey(path)|
    ensures JoinedKey(path)[i] == if RawKey(path)[i] == '_' then '-' else RawKey(path)[i]
    decreases |path|
  {
    if |path| > 1 {
      var rest := path[1..];
      JoinedLength(rest);
      if i > |path[0]| { JoinedKeyExactly(rest, i - |path[0]| - 1); }
    }
  }

  lemma {:induction false} JoinedLength(path: seq<string>)
    ensures |JoinedKey(path)| == |RawKey(path)|
    decreases |path|
  {
    if |path| > 1 { JoinedLength(path[1..]); }
  }
}
