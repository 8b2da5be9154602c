/** The signatures that the Theia export writes, and which files they cover. */
module TheiaExport {
  import opened Common
  import opened TheiaWalk

  /** The entries of the directory at a path, none if there is no such directory. */
  function DirAt<N(==), C>(es: Entries<N, C>, path: Path<N>): Entries<N, C>
    decreases |path|
  {
    if path == [] then es
    else match Child(es, path[0])
      case Some(Dir(sub)) => DirAt(sub, path[1..])
      case _ => Nil
  }

  function Prefixed<N, C>(at: Path<N>, items: seq<Item<N, C>>): seq<Item<N, C>> {
    if items == [] then [] else [Item(at + items[0].path, items[0].content)] + Prefixed(at, items[1..])
  }

  /** The files that the signature of one partition lists. */
  function PartitionWalk<N(==), C>(es: Entries<N, C>, instance: Path<N>, d: N): seq<Item<N, C>> {
    Walk(DirAt(es, instance + [d]), [])
  }

  /** The files that the signatures of the partitions list, with their place in the backup. */
  function PartitionFiles<N(==), C>(es: Entries<N, C>, instance: Path<N>, partitions: seq<N>): seq<Item<N, C>> {
    if partitions == [] then []
    else
      Prefixed(instance + [partitions[0]], PartitionWalk(es, instance, partitions[0]))
      + PartitionFiles(es, instance, partitions[1..])
  }

  /** Each partition that is signed has a partition's name. */
  predicate ArePartitions<N(==)>(isPartition: N -> bool, partitions: seq<N>) {
    NoDuplicates(partitions) && forall i | 0 <= i < |partitions| :: isPartition(partitions[i])
  }

  /** No other directory of the backup with a partition's name holds a file, such as one that an
      earlier export has left. */
  ghost predicate NoneStale<N(!new), C>(es: Entries<N, C>, instance: Path<N>, isPartition: N -> bool,
                                        partitions: seq<N>) {
    forall d | isPartition(d) && d !in partitions :: PartitionWalk(es, instance, d) == []
  }

  lemma {:induction false} PrefixedConcat<N, C>(at: Path<N>, a: seq<Item<N, C>>, b: seq<Item<N, C>>)
    ensures Prefixed(at, a + b) == Prefixed(at, a) + Prefixed(at, b)
  {
    if a == [] {
      assert a + b == b;
    } else {
      assert (a + b)[1..] == a[1..] + b;
      PrefixedConcat(at, a[1..], b);
    }
  }

  lemma {:induction false} FilesOfFrom<N, C>(es: Entries<N, C>, at: Path<N>, up: Path<N>)
    ensures Prefixed(up, FilesOf(es, at)) == FilesOf(es, up + at)
  {
    if es.Entry? {
      var head := if es.node.File? then [Item(at + [es.name], es.node.content)] else [];
      FilesOfFrom(es.rest, at, up);
      PrefixedConcat(up, head, FilesOf(es.rest, at));
      assert up + at + [es.name] == up + (at + [es.name]);
      if es.node.File? { assert head[1..] == []; }
    }
  }

  /** A walk from a sub-directory lists the same files with shorter paths. */
  lemma {:induction false} WalkFrom<N, C>(es: Entries<N, C>, at: Path<N>, up: Path<N>)
    ensures Prefixed(up, Walk(es, at)) == Walk(es, up + at)
    ensures Prefixed(up, WalkDirs(es, at)) == WalkDirs(es, up + at)
    decreases es
  {
    FilesOfFrom(es, at, up);
    if es.Entry? {
      var head := if es.node.Dir? then Walk(es.node.entries, at + [es.name]) else [];
      if es.node.Dir? {
        WalkFrom(es.node.entries, at + [es.name], up);
        assert up + at + [es.name] == up + (at + [es.name]);
      }
      WalkFrom(es.rest, at, up);
      PrefixedConcat(up, head, WalkDirs(es.rest, at));
    }
    PrefixedConcat(up, FilesOf(es, at), WalkDirs(es, at));
  }

  lemma {:induction false} DirAtIsWellFormed<N, C>(es: Entries<N, C>, path: Path<N>)
    requires WellFormed(es)
    ensures WellFormed(DirAt(es, path))
    decreases |path|
  {
    if path != [] {
      ChildIsWellFormed(es, path[0]);
      match Child(es, path[0])
      case Some(Dir(sub)) => DirAtIsWellFormed(sub, path[1..]);
      case _ =>
    }
  }

  lemma {:induction false} ChildIsWellFormed<N, C>(es: Entries<N, C>, n: N)
    requires WellFormed(es)
    ensures match Child(es, n) case Some(Dir(sub)) => WellFormed(sub) case _ => true
  {
    if es.Entry? && es.name != n { ChildIsWellFormed(es.rest, n); }
  }

  /** Looking up a longer path goes through the directory. */
  lemma {:induction false} FindThrough<N, C>(es: Entries<N, C>, path: Path<N>, tail: Path<N>)
    requires tail != []
    ensures Find(DirAt(es, path), tail) == Find(es, path + tail)
    decreases |path|
  {
    if path == [] {
      assert path + tail == tail;
    } else {
      assert (path + tail)[0] == path[0] && (path + tail)[1..] == path[1..] + tail;
      match Child(es, path[0])
      case Some(Dir(sub)) => FindThrough(sub, path[1..], tail);
      case _ =>
    }
  }

  lemma {:induction false} DirAtNext<N, C>(es: Entries<N, C>, path: Path<N>, n: N)
    ensures DirAt(es, path + [n]) == match Child(DirAt(es, path), n) case Some(Dir(sub)) => sub case _ => Nil
    decreases |path|
  {
    if path == [] {
      assert path + [n] == [n] && [n][1..] == [];
    } else {
      assert (path + [n])[0] == path[0] && (path + [n])[1..] == path[1..] + [n];
      match Child(es, path[0])
      case Some(Dir(sub)) => DirAtNext(sub, path[1..], n);
      case _ =>
    }
  }

  /** `x` is a file of the tree that lies in the partition `d`. */
  predicate FileOf<N(==), C(==)>(x: Item<N, C>, es: Entries<N, C>, instance: Path<N>, d: N) {
    |instance| + 2 <= |x.path| && instance == x.path[..|instance|] && x.path[|instance|] == d
    && Find(es, x.path) == Some(x.content)
  }

  lemma PartitionLists<N(!new), C(!new)>(es: Entries<N, C>, instance: Path<N>, d: N)
    requires WellFormed(es)
    ensures var items := Prefixed(instance + [d], PartitionWalk(es, instance, d));
      NoDuplicates(items) && forall x :: x in items <==> FileOf(x, es, instance, d)
  {
    var at := instance + [d];
    var sub := DirAt(es, at);
    WalkFrom(sub, [], at);
    assert at + [] == at;
    DirAtIsWellFormed(es, at);
    WalkLists(sub, at);
    forall x: Item<N, C> ensures Below(x, sub, at) <==> FileOf(x, es, instance, d) {
      if |at| < |x.path| {
        FindThrough(es, at, x.path[|at|..]);
        assert at[..|instance|] == instance && x.path[..|at|][..|instance|] == x.path[..|instance|];
        if at == x.path[..|at|] {
          assert x.path == at + x.path[|at|..];
        }
        assert instance == x.path[..|instance|] && x.path[|instance|] == d ==> x.path[..|at|] == at;
      }
    }
  }

  lemma {:induction false} PartitionFilesList<N(!new), C(!new)>(es: Entries<N, C>, instance: Path<N>,
      partitions: seq<N>)
    requires WellFormed(es) && NoDuplicates(partitions)
    ensures var items := PartitionFiles(es, instance, partitions);
      && NoDuplicates(items)
      && forall x :: x in items <==> |instance| < |x.path| && x.path[|instance|] in partitions
                                     && FileOf(x, es, instance, x.path[|instance|])
    decreases |partitions|
  {
    if partitions != [] {
      var d, rest := partitions[0], partitions[1..];
      PartitionLists(es, instance, d);
      PartitionFilesList(es, instance, rest);
      forall i | 0 <= i < |rest| ensures rest[i] != d { assert rest[i] == partitions[i + 1]; }
      NoDuplicatesConcat(Prefixed(instance + [d], PartitionWalk(es, instance, d)), PartitionFiles(es, instance, rest));
      assert forall n :: n in partitions <==> n == d || n in rest;
    }
  }

  /** What the root signature lists, whether or not partitions are excluded. */
  function RootWalk<N(==), C>(es: Entries<N, C>, instance: Path<N>, isPartition: N -> bool,
                              excluded: bool): seq<Item<N, C>> {
    if excluded then WalkExcept(es, [], instance, isPartition) else Walk(es, [])
  }

  /** `x` is a file of the backup, and not of a partition that is left out everywhere. */
  predicate IsSigned<N(==), C(==)>(x: Item<N, C>, es: Entries<N, C>, instance: Path<N>, isPartition: N -> bool,
                                   partitions: seq<N>, excluded: bool)
  {
    Find(es, x.path) == Some(x.content)
    && (excluded && InPartition(x.path, instance, isPartition) ==> x.path[|instance|] in partitions)
  }

  lemma PartsList<N(!new), C(!new)>(es: Entries<N, C>, instance: Path<N>, isPartition: N -> bool, partitions: seq<N>)
    requires WellFormed(es) && ArePartitions(isPartition, partitions)
    ensures var parts := PartitionFiles(es, instance, partitions);
      NoDuplicates(parts)
      && forall x :: x in parts <==> Find(es, x.path) == Some(x.content) && InPartition(x.path, instance, isPartition)
                                     && x.path[|instance|] in partitions
  {
    PartitionFilesList(es, instance, partitions);
  }

  lemma RootLists<N(!new), C(!new)>(es: Entries<N, C>, instance: Path<N>, isPartition: N -> bool, excluded: bool)
    requires WellFormed(es)
    ensures var root := RootWalk(es, instance, isPartition, excluded);
      NoDuplicates(root)
      && forall x :: x in root
          <==> Find(es, x.path) == Some(x.content) && !(excluded && InPartition(x.path, instance, isPartition))
  {
    WalkExceptLists(es, [], instance, isPartition);
    WalkLists(es, []);
    forall x: Item<N, C> ensures x.path[0..] == x.path {}
  }

  /** The root signature and those of the partitions together list every file of the backup, except
      those of partitions that are left out of the root's walk and have no signature. */
  lemma SignaturesList<N(!new), C(!new)>(es: Entries<N, C>, instance: Path<N>, isPartition: N -> bool,
                                         partitions: seq<N>, excluded: bool)
    requires WellFormed(es) && ArePartitions(isPartition, partitions)
    ensures var all := RootWalk(es, instance, isPartition, excluded) + PartitionFiles(es, instance, partitions);
            forall x :: x in all <==> IsSigned(x, es, instance, isPartition, partitions, excluded)
  {
    RootLists(es, instance, isPartition, excluded);
    PartsList(es, instance, isPartition, partitions);
  }

  /** They list every file exactly when partitions are not excluded or no such partition holds a
      file. */
  lemma CoveredExactly<N(!new), C(!new)>(es: Entries<N, C>, instance: Path<N>, isPartition: N -> bool,
                                         partitions: seq<N>, excluded: bool)
    requires WellFormed(es) && ArePartitions(isPartition, partitions)
    ensures var all := RootWalk(es, instance, isPartition, excluded) + PartitionFiles(es, instance, partitions);
      (forall x: Item<N, C> | Find(es, x.path) == Some(x.content) :: x in all)
          <==> !excluded || NoneStale(es, instance, isPartition, partitions)
  {
    SignaturesList(es, instance, isPartition, partitions, excluded);
    if excluded && NoneStale(es, instance, isPartition, partitions) {
      forall x: Item<N, C> | Find(es, x.path) == Some(x.content)
        ensures IsSigned(x, es, instance, isPartition, partitions, excluded)
      {
        if InPartition(x.path, instance, isPartition) {
          PartitionLists(es, instance, x.path[|instance|]);
          assert FileOf(x, es, instance, x.path[|instance|]);
          assert x in Prefixed(instance + [x.path[|instance|]], PartitionWalk(es, instance, x.path[|instance|]));
        }
      }
    } else if excluded {
      var d :| isPartition(d) && d !in partitions && PartitionWalk(es, instance, d) != [];
      var items := Prefixed(instance + [d], PartitionWalk(es, instance, d));
      PartitionLists(es, instance, d);
      assert items[0] in items && FileOf(items[0], es, instance, d);
    }
  }

  /** Where the walk of the root does not exclude the partitions, their files are listed twice;
      so no file is listed twice exactly when partitions are excluded or hold no file. */
  lemma OnceExactly<N(!new), C(!new)>(es: Entries<N, C>, instance: Path<N>, isPartition: N -> bool, partitions: seq<N>,
                                      excluded: bool)
    requires WellFormed(es) && ArePartitions(isPartition, partitions)
    ensures var root := RootWalk(es, instance, isPartition, excluded);
            var parts := PartitionFiles(es, instance, partitions);
            NoDuplicates(root + parts) <==> excluded || parts == []
  {
    var root, parts := RootWalk(es, instance, isPartition, excluded), PartitionFiles(es, instance, partitions);
    RootLists(es, instance, isPartition, excluded);
    PartsList(es, instance, isPartition, partitions);
    if excluded || parts == [] {
      NoDuplicatesConcat(root, parts);
    } else {
      assert parts[0] in parts && parts[0] in root;
      var i :| 0 <= i < |root| && root[i] == parts[0];
      assert (root + parts)[i] == (root + parts)[|root|];
    }
  }

  // --- Writing the signatures into the tree they sign ---

  function Remove<N(==), C>(es: Entries<N, C>, n: N): Entries<N, C> {
    match es
    case Nil => Nil
    case Entry(name, node, rest) => if name == n then rest else Entry(name, node, Remove(rest, n))
  }

  lemma {:induction false} ChildOfRemove<N, C>(es: Entries<N, C>, n: N, m: N)
    requires WellFormed(es)
    ensures Child(Remove(es, n), m) == if m == n then None else Child(es, m)
  {
    if es.Entry? && es.name != n { ChildOfRemove(es.rest, n, m); }
  }

  lemma {:induction false} RemoveIsWellFormed<N(!new), C>(es: Entries<N, C>, n: N)
    requires WellFormed(es)
    ensures WellFormed(Remove(es, n))
  {
    if es.Entry? && es.name != n {
      RemoveIsWellFormed(es.rest, n);
      ChildOfRemove(es.rest, n, es.name);
    }
  }

  /** What `glob` finds for a pattern. */
  function Matching<N(==, !new), C>(es: Entries<N, C>, matches: N -> bool): (names: seq<N>)
    ensures forall m :: m in names <==> matches(m) && Child(es, m).Some?
  {
    match es
    case Nil => []
    case Entry(name, node, rest) => (if matches(name) then [name] else []) + Matching(rest, matches)
  }

  /** `now` is `before` without the entries of these names that are no directories. */
  ghost predicate Unlinked<N(!new), C>(before: Entries<N, C>, now: Entries<N, C>, names: seq<N>) {
    forall m ::
      Child(now, m) == if m in names && Child(before, m).Some?
          && !Child(before, m).value.Dir? then None else Child(before, m)
  }

  lemma UnlinkedOneMore<N(!new), C>(before: Entries<N, C>, now: Entries<N, C>, names: seq<N>, n: N, next: Entries<N, C>)
    requires Unlinked(before, now, names) && WellFormed(now)
    requires next == if Child(now, n).Some? && !Child(now, n).value.Dir? then Remove(now, n) else now
    ensures Unlinked(before, next, names + [n]) && WellFormed(next)
  {
    RemoveIsWellFormed(now, n);
    forall m
      ensures Child(next, m) == if m in names + [n] && Child(before, m).Some? && !Child(before, m).value.Dir? then None
                                else Child(before, m)
    {
      ChildOfRemove(now, n, m);
    }
  }

  function Add<N, C>(es: Entries<N, C>, n: N, content: C): Entries<N, C> {
    match es
    case Nil => Entry(n, File(content), Nil)
    case Entry(name, node, rest) => Entry(name, node, Add(rest, n, content))
  }

  lemma {:induction false} ChildOfAdd<N, C>(es: Entries<N, C>, n: N, content: C, m: N)
    ensures Child(Add(es, n, content), m)
         == if Child(es, m).None? && m == n then Some(File(content)) else Child(es, m)
  {
    if es.Entry? { ChildOfAdd(es.rest, n, content, m); }
  }

  lemma {:induction false} RemoveAbsent<N, C>(es: Entries<N, C>, n: N)
    requires Child(es, n).None?
    ensures Remove(es, n) == es
  {
    if es.Entry? { RemoveAbsent(es.rest, n); }
  }

  /** `now` is `before` with more files in its top directory, all called one of `names`. */
  ghost predicate OnlyFilesAdded<N(!new), C>(before: Entries<N, C>, now: Entries<N, C>, names: seq<N>) {
    forall m ::
      if Child(before, m).Some? then Child(now, m) == Child(before, m)
      else Child(now, m).Some? ==> Child(now, m).value.File? && m in names
  }

  lemma SameDirectories<N(!new), C>(before: Entries<N, C>, now: Entries<N, C>, names: seq<N>, path: Path<N>)
    requires OnlyFilesAdded(before, now, names) && path != []
    ensures DirAt(now, path) == DirAt(before, path)
  {
    assert Child(before, path[0]).Some? ==> Child(now, path[0]) == Child(before, path[0]);
  }

  lemma OneMoreFile<N(!new), C>(before: Entries<N, C>, now: Entries<N, C>, names: seq<N>, n: N, content: C)
    requires OnlyFilesAdded(before, now, names) && Child(before, n).None? && n !in names
    ensures Remove(now, n) == now && OnlyFilesAdded(before, Add(now, n, content), names + [n])
  {
    assert Child(now, n).None?;
    RemoveAbsent(now, n);
    forall m ensures if Child(before, m).Some? then Child(Add(now, n, content), m) == Child(before, m)
                     else Child(Add(now, n, content), m).Some? ==>
                            Child(Add(now, n, content), m).value.File? && m in names + [n]
    {
      ChildOfAdd(now, n, content, m);
      assert Child(before, m).Some? ==> Child(now, m) == Child(before, m);
    }
  }

  lemma NotYetThere<N(!new), C>(before: Entries<N, C>, now: Entries<N, C>, names: seq<N>, n: N)
    requires OnlyFilesAdded(before, now, names) && Child(before, n).None? && n !in names
    ensures Child(now, n).None? && Remove(now, n) == now
  {
    RemoveAbsent(now, n);
  }

  /** The first k partition signatures. */
  ghost predicate AreWalks<N, C>(parts: seq<seq<Item<N, C>>>, es: Entries<N, C>, instance: Path<N>, partitions: seq<N>,
                                 k: nat) {
    |parts| == k <= |partitions| && forall i | 0 <= i < k :: parts[i] == PartitionWalk(es, instance, partitions[i])
  }

  lemma OneMoreWalk<N, C>(parts: seq<seq<Item<N, C>>>, es: Entries<N, C>, instance: Path<N>, partitions: seq<N>,
                          k: nat, signed: seq<Item<N, C>>)
    requires AreWalks(parts, es, instance, partitions, k) && k < |partitions|
             && signed == PartitionWalk(es, instance, partitions[k])
    ensures AreWalks(parts + [signed], es, instance, partitions, k + 1)
  {
    var more := parts + [signed];
    forall i | 0 <= i < k + 1 ensures more[i] == PartitionWalk(es, instance, partitions[i]) {
      if i < k { assert more[i] == parts[i]; }
    }
  }

  /** The names of the signature files of the root and of the first k partitions. */
  function SignatureNames<N>(rootName: N, nameOf: N -> N, partitions: seq<N>, k: nat): seq<N>
    requires k <= |partitions|
  {
    if k == 0 then [rootName] else SignatureNames(rootName, nameOf, partitions, k - 1) + [nameOf(partitions[k - 1])]
  }

  /** Every signature file has a name that neither a file nor an earlier signature has. */
  ghost predicate NewNames<N, C>(start: Entries<N, C>, rootName: N, nameOf: N -> N, partitions: seq<N>) {
    Child(start, rootName).None?
    && forall i | 0 <= i < |partitions| ::
         Child(start, nameOf(partitions[i])).None?
         && nameOf(partitions[i]) !in SignatureNames(rootName, nameOf, partitions, i)
  }

  /** The next signature file has a new name. */
  lemma NextNameIsNew<N(!new), C>(start: Entries<N, C>, rootName: N, nameOf: N -> N, partitions: seq<N>, i: nat)
    requires NewNames(start, rootName, nameOf, partitions) && i < |partitions|
    ensures var names := SignatureNames(rootName, nameOf, partitions, i);
      && Child(start, nameOf(partitions[i])).None? && nameOf(partitions[i]) !in names
      && SignatureNames(rootName, nameOf, partitions, i + 1) == names + [nameOf(partitions[i])]
  {
  }

  /** The first i partitions are signed, and nothing else has changed. */
  ghost predicate SignedTo<N(!new), C>(start: Entries<N, C>, now: Entries<N, C>, instance: Path<N>, partitions: seq<N>,
                                       i: nat,
                                       names: seq<N>, parts: seq<seq<Item<N, C>>>)
  {
    AreWalks(parts, start, instance, partitions, i) && OnlyFilesAdded(start, now, names)
  }

  /** The files of these names have these contents. */
  ghost predicate Holds<N(!new), C>(now: Entries<N, C>, names: seq<N>, contents: seq<C>) {
    |names| == |contents| && forall k | 0 <= k < |names| :: Child(now, names[k]) == Some(File(contents[k]))
  }

  /** The contents of the signature files, that of the root first. */
  function Contents<N, C>(contentOf: seq<Item<N, C>> -> C, root: seq<Item<N, C>>, parts: seq<seq<Item<N, C>>>): seq<C> {
    if parts == [] then [contentOf(root)]
    else Contents(contentOf, root, parts[..|parts| - 1]) + [contentOf(parts[|parts| - 1])]
  }

  lemma ContentsOneMore<N, C>(contentOf: seq<Item<N, C>> -> C, root: seq<Item<N, C>>, parts: seq<seq<Item<N, C>>>,
                              more: seq<Item<N, C>>)
    ensures Contents(contentOf, root, parts + [more]) == Contents(contentOf, root, parts) + [contentOf(more)]
  {
    assert (parts + [more])[..|parts|] == parts;
  }

  lemma {:induction false} NamesAreListed<N>(rootName: N, nameOf: N -> N, partitions: seq<N>, k: nat)
    requires k <= |partitions|
    ensures SignatureNames(rootName, nameOf, partitions, k)
         == [rootName] + seq(k, i requires 0 <= i < k => nameOf(partitions[i]))
  {
    if k > 0 { NamesAreListed(rootName, nameOf, partitions, k - 1); }
  }

  lemma {:induction false} ContentsAreListed<N, C>(contentOf: seq<Item<N, C>> -> C, root: seq<Item<N, C>>,
                                                   parts: seq<seq<Item<N, C>>>)
    ensures Contents(contentOf, root, parts)
         == [contentOf(root)] + seq(|parts|, i requires 0 <= i < |parts| => contentOf(parts[i]))
    decreases |parts|
  {
    if parts != [] { ContentsAreListed(contentOf, root, parts[..|parts| - 1]); }
  }

  lemma HoldsOneMore<N(!new), C>(now: Entries<N, C>, names: seq<N>, contents: seq<C>, n: N, content: C)
    requires Holds(now, names, contents) && n !in names && Child(now, n).None?
    ensures Holds(Add(now, n, content), names + [n], contents + [content])
  {
    var next := Add(now, n, content);
    forall k | 0 <= k < |names| + 1 ensures Child(next, (names + [n])[k]) == Some(File((contents + [content])[k])) {
      ChildOfAdd(now, n, content, (names + [n])[k]);
    }
  }

  /** ... and the signature files of these names have these contents. */
  ghost predicate Written<N(!new), C>(start: Entries<N, C>, now: Entries<N, C>, instance: Path<N>, partitions: seq<N>,
                                      i: nat, names: seq<N>, contents: seq<C>, parts: seq<seq<Item<N, C>>>)
  {
    SignedTo(start, now, instance, partitions, i, names, parts) && Holds(now, names, contents)
  }

  lemma NoneWritten<N(!new), C>(start: Entries<N, C>, now: Entries<N, C>, instance: Path<N>, partitions: seq<N>,
                                nameOf: N -> N, rootName: N,
                                contentOf: seq<Item<N, C>> -> C, root: seq<Item<N, C>>)
    requires OnlyFilesAdded(start, now, [rootName]) && Child(now, rootName) == Some(File(contentOf(root)))
    ensures Written(start, now, instance, partitions, 0, SignatureNames(rootName, nameOf, partitions, 0),
                    Contents(contentOf, root, []), [])
  {
  }

  lemma AllWritten<N(!new), C>(start: Entries<N, C>, now: Entries<N, C>, instance: Path<N>, partitions: seq<N>,
                               names: seq<N>, contents: seq<C>, parts: seq<seq<Item<N, C>>>)
    requires Written(start, now, instance, partitions, |partitions|, names, contents, parts)
    ensures |parts| == |partitions|
    ensures forall i | 0 <= i < |parts| :: parts[i] == PartitionWalk(start, instance, partitions[i])
    ensures OnlyFilesAdded(start, now, names) && Holds(now, names, contents)
  {
  }

  /** The backup directory while it is signed. `rootName` is backup.signature, and `nameOf`
      gives the name of the signature file of a partition. */
  class Backup<N(==, !new), C(!new)> {
    var tree: Entries<N, C>
    const rootName: N
    const nameOf: N -> N
    const contentOf: seq<Item<N, C>> -> C

    constructor (tree: Entries<N, C>, rootName: N, nameOf: N -> N, contentOf: seq<Item<N, C>> -> C)
      ensures this.tree == tree && this.rootName == rootName && this.nameOf == nameOf && this.contentOf == contentOf
    {
      this.tree, this.rootName, this.nameOf, this.contentOf := tree, rootName, nameOf, contentOf;
    }

    /** `sign_root`: the old file goes first, and the new one comes when the walk is over.
        `inside` is the answer of `hashwalk` whether `instance` is below the backup. */
    method SignRoot(instance: Path<N>, isPartition: N -> bool, inside: bool) returns (signed: seq<Item<N, C>>)
      modifies this
      ensures signed == RootWalk(Remove(old(tree), rootName), instance, isPartition, inside)
      ensures tree == Add(Remove(old(tree), rootName), rootName, contentOf(signed))
    {
      tree := Remove(tree, rootName);
      if inside {
        signed := WalkExcept(tree, [], instance, isPartition);
      } else {
        signed := Walk(tree, []);
      }
      tree := Add(tree, rootName, contentOf(signed));
    }

    /** `sign_partition` without a custom script; paths are relative to the partition. `start`
        is the tree before it received signature files called `names`. */
    method SignPartition(instance: Path<N>, d: N, ghost start: Entries<N, C>, ghost names: seq<N>)
      returns (signed: seq<Item<N, C>>)
      requires OnlyFilesAdded(start, tree, names) && Child(start, nameOf(d)).None? && nameOf(d) !in names
      modifies this
      ensures signed == PartitionWalk(start, instance, d)
      ensures tree == Add(Remove(old(tree), nameOf(d)), nameOf(d), contentOf(signed))
      ensures OnlyFilesAdded(start, tree, names + [nameOf(d)])
    {
      OneMoreFile(start, tree, names, nameOf(d), contentOf([]));
      SameDirectories(start, tree, names, instance + [d]);
      ghost var before := tree;
      tree := Remove(tree, nameOf(d));
      signed := Walk(DirAt(tree, instance + [d]), []);
      tree := Add(tree, nameOf(d), contentOf(signed));
      OneMoreFile(start, before, names, nameOf(d), contentOf(signed));
    }

    /** One pass of the loop over partitions. */
    method SignNext(instance: Path<N>, partitions: seq<N>, ghost start: Entries<N, C>, i: nat,
                    parts: seq<seq<Item<N, C>>>, ghost root: seq<Item<N, C>>)
      returns (more: seq<seq<Item<N, C>>>)
      requires i < |partitions| && NewNames(start, rootName, nameOf, partitions)
      requires Written(start, tree, instance, partitions, i, SignatureNames(rootName, nameOf, partitions, i),
                       Contents(contentOf, root, parts), parts)
      modifies this
      ensures Written(start, tree, instance, partitions, i + 1, SignatureNames(rootName, nameOf, partitions, i + 1),
                      Contents(contentOf, root, more), more)
    {
      NextNameIsNew(start, rootName, nameOf, partitions, i);
      ghost var before, names := tree, SignatureNames(rootName, nameOf, partitions, i);
      NotYetThere(start, tree, names, nameOf(partitions[i]));
      var signed := SignPartition(instance, partitions[i], start, SignatureNames(rootName, nameOf, partitions, i));
      OneMoreWalk(parts, start, instance, partitions, i, signed);
      ContentsOneMore(contentOf, root, parts, signed);
      HoldsOneMore(before, names, Contents(contentOf, root, parts), nameOf(partitions[i]), contentOf(signed));
      more := parts + [signed];
    }

    /** The loop over partitions, after the root. */
    method SignPartitions(instance: Path<N>, partitions: seq<N>, ghost start: Entries<N, C>,
                          ghost root: seq<Item<N, C>>) returns (parts: seq<seq<Item<N, C>>>)
      requires OnlyFilesAdded(start, tree, [rootName]) && NewNames(start, rootName, nameOf, partitions)
      requires Child(tree, rootName) == Some(File(contentOf(root)))
      modifies this
      ensures |parts| == |partitions|
      ensures forall i | 0 <= i < |parts| :: parts[i] == PartitionWalk(start, instance, partitions[i])
      ensures OnlyFilesAdded(start, tree, SignatureNames(rootName, nameOf, partitions, |partitions|))
      ensures Holds(tree, SignatureNames(rootName, nameOf, partitions, |partitions|), Contents(contentOf, root, parts))
    {
      parts := [];
      NoneWritten(start, tree, instance, partitions, nameOf, rootName, contentOf, root);
      for i := 0 to |partitions|
        invariant Written(start, tree, instance, partitions, i, SignatureNames(rootName, nameOf, partitions, i),
                          Contents(contentOf, root, parts), parts)
      {
        parts := SignNext(instance, partitions, start, i, parts, root);
      }
      AllWritten(start, tree, instance, partitions, SignatureNames(rootName, nameOf, partitions, |partitions|),
                 Contents(contentOf, root, parts), parts);
    }

    /** `remove_signatures`: what `os.remove` refuses, a directory, stays. */
    method RemoveSignatures(isSignature: N -> bool)
      requires WellFormed(tree)
      modifies this`tree
      ensures WellFormed(tree)
      ensures forall m :: Child(tree, m) == if isSignature(m) && Child(old(tree), m).Some?
              && !Child(old(tree), m).value.Dir?
                                            then None else Child(old(tree), m)
    {
      var names := Matching(tree, isSignature);
      for i := 0 to |names|
        invariant WellFormed(tree) && Unlinked(old(tree), tree, names[..i])
      {
        ghost var before := tree;
        if Child(tree, names[i]).Some? && !Child(tree, names[i]).value.Dir? {
          tree := Remove(tree, names[i]);
        }
        UnlinkedOneMore(old(tree), before, names[..i], names[i], tree);
        assert names[..i + 1] == names[..i] + [names[i]];
      }
      assert names[..|names|] == names;
    }

    /** The signing part of `export`. When no entry has the name of a signature, the signatures list
        the files the backup had and no signature among them: all of them if partitions are not
        excluded from the walk of the root or none with a file is left without a signature, and
        none twice if they are excluded or hold no file. Each signature file has what was signed, and
        nothing but signature files is added. */
    method SignAll(instance: Path<N>, isPartition: N -> bool, partitions: seq<N>, inside: bool)
      returns (root: seq<Item<N, C>>, parts: seq<seq<Item<N, C>>>)
      requires WellFormed(tree) && ArePartitions(isPartition, partitions)
      requires NewNames(tree, rootName, nameOf, partitions)
      modifies this
      ensures |parts| == |partitions|
      ensures forall i | 0 <= i < |parts| :: parts[i] == PartitionWalk(old(tree), instance, partitions[i])
      ensures var all := root + PartitionFiles(old(tree), instance, partitions);
        && (forall x :: x in all <==> IsSigned(x, old(tree), instance, isPartition, partitions, inside))
        && (NoDuplicates(all) <==> inside || PartitionFiles(old(tree), instance, partitions) == [])
      ensures OnlyFilesAdded(old(tree), tree, SignatureNames(rootName, nameOf, partitions, |partitions|))
      ensures Holds(tree, [rootName] + seq(|partitions|, i requires 0 <= i < |partitions| => nameOf(partitions[i])),
                    [contentOf(root)] + seq(|parts|, i requires 0 <= i < |parts| => contentOf(parts[i])))
    {
      ghost var start := tree;
      SignaturesList(start, instance, isPartition, partitions, inside);
      OnceExactly(start, instance, isPartition, partitions, inside);
      OneMoreFile(start, start, [], rootName, contentOf([]));
      root := SignRoot(instance, isPartition, inside);
      OneMoreFile(start, start, [], rootName, contentOf(root));
      assert [] + [rootName] == [rootName];
      ChildOfAdd(start, rootName, contentOf(root), rootName);
      parts := SignPartitions(instance, partitions, start, root);
      NamesAreListed(rootName, nameOf, partitions, |partitions|);
      ContentsAreListed(contentOf, root, parts);
      assert partitions[..|partitions|] == partitions;
    }
  }
}
