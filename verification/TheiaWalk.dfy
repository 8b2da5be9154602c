/**
 The directory walks behind the Theia backup signatures. N stands for entry names and C for
 file contents; a path is relative to the directory that is walked.
 */
module TheiaWalk {
  import opened Common

  /** What a directory entry is. `Other` is whatever a walk lists no file for: a socket, a
      broken link, a link to a directory. */
  datatype Node<N, C> = File(content: C) | Dir(entries: Entries<N, C>) | Other
  datatype Entries<N, C> = Nil | Entry(name: N, node: Node<N, C>, rest: Entries<N, C>)

  type Path<N> = seq<N>

  /** A file listed by a walk. */
  datatype Item<N, C> = Item(path: Path<N>, content: C)

  // --- os.walk ---

  /** The regular files of one directory. */
  function FilesOf<N, C>(es: Entries<N, C>, at: Path<N>): seq<Item<N, C>> {
    match es
    case Nil => []
    case Entry(name, node, rest) =>
      (if node.File? then [Item(at + [name], node.content)] else []) + FilesOf(rest, at)
  }

  /** `fast_hashwalk`: the files of the directory, then its sub-directories one by one. */
  function Walk<N, C>(es: Entries<N, C>, at: Path<N>): seq<Item<N, C>>
    decreases es, 1
  {
    FilesOf(es, at) + WalkDirs(es, at)
  }

  function WalkDirs<N, C>(es: Entries<N, C>, at: Path<N>): seq<Item<N, C>>
    decreases es, 0
  {
    match es
    case Nil => []
    case Entry(name, node, rest) =>
      (if node.Dir? then Walk(node.entries, at + [name]) else []) + WalkDirs(rest, at)
  }

  /** `exclude_hashwalk`: at `instance`, the sub-directories with a partition's name are taken
      out before the walk goes on. */
  function WalkExcept<N(==), C>(es: Entries<N, C>, at: Path<N>, instance: Path<N>, isPartition: N -> bool)
    : seq<Item<N, C>>
    decreases es, 1
  {
    FilesOf(es, at) + WalkDirsExcept(es, at, instance, isPartition)
  }

  function WalkDirsExcept<N(==), C>(es: Entries<N, C>, at: Path<N>, instance: Path<N>, isPartition: N -> bool)
    : seq<Item<N, C>>
    decreases es, 0
  {
    match es
    case Nil => []
    case Entry(name, node, rest) =>
      (if node.Dir? && !(at == instance && isPartition(name)) then
         WalkExcept(node.entries, at + [name], instance, isPartition)
       else [])
      + WalkDirsExcept(rest, at, instance, isPartition)
  }

  // --- What a walk must list ---

  /** The entry called `n`. */
  function Child<N(==), C>(es: Entries<N, C>, n: N): Option<Node<N, C>> {
    match es
    case Nil => None
    case Entry(name, node, rest) => if name == n then Some(node) else Child(rest, n)
  }

  /** The content of the regular file at a path, if there is one. */
  function Find<N(==), C>(es: Entries<N, C>, path: Path<N>): Option<C>
    decreases |path|
  {
    if path == [] then None
    else match Child(es, path[0])
      case Some(File(c)) => if |path| == 1 then Some(c) else None
      case Some(Dir(sub)) => Find(sub, path[1..])
      case _ => None
  }

  /** Names are distinct in every directory. */
  predicate WellFormed<N(==), C>(es: Entries<N, C>) {
    es.Nil? || (Child(es.rest, es.name).None? && WellFormed(es.rest)
                && (es.node.Dir? ==> WellFormed(es.node.entries)))
  }

  /** `x` is a file of the directory that is walked from `at`. */
  predicate Below<N(==), C(==)>(x: Item<N, C>, es: Entries<N, C>, at: Path<N>) {
    |at| < |x.path| && at == x.path[..|at|] && Find(es, x.path[|at|..]) == Some(x.content)
  }

  /** The path goes through a directory with a partition's name in `instance`. */
  predicate InPartition<N(==)>(path: Path<N>, instance: Path<N>, isPartition: N -> bool) {
    |instance| + 2 <= |path| && instance == path[..|instance|] && isPartition(path[|instance|])
  }

  lemma NoDuplicatesConcat<T(!new)>(a: seq<T>, b: seq<T>)
    requires NoDuplicates(a) && NoDuplicates(b) && forall x :: !(x in a && x in b)
    ensures NoDuplicates(a + b)
  {
    forall i, j | 0 <= i < j < |a + b| ensures (a + b)[i] != (a + b)[j] {
      if i < |a| <= j {
        assert a[i] in a && b[j - |a|] in b;
      }
    }
  }

  lemma FindOne<N, C>(es: Entries<N, C>, n: N)
    ensures Find(es, [n]) == match Child(es, n) case Some(File(c)) => Some(c) case _ => None
  {
    assert [n][1..] == [];
  }

  // --- What the walks list ---

  lemma {:induction false} FilesOfLists<N(!new), C(!new)>(es: Entries<N, C>, at: Path<N>)
    requires WellFormed(es)
    ensures forall x :: x in FilesOf(es, at) <==> |x.path| == |at| + 1 && Below(x, es, at)
    ensures NoDuplicates(FilesOf(es, at))
  {
    if es.Entry? {
      FilesOfLists(es.rest, at);
      var head := if es.node.File? then [Item(at + [es.name], es.node.content)] else [];
      forall x
        ensures x in FilesOf(es, at) <==> |x.path| == |at| + 1 && Below(x, es, at)
        ensures x in head ==> x !in FilesOf(es.rest, at)
      {
        var own := at + [es.name];
        assert own[..|at|] == at && own[|at|..] == [es.name];
        if |x.path| == |at| + 1 && at == x.path[..|at|] {
          var n := x.path[|at|];
          assert x.path == at + [n] && x.path[|at|..] == [n];
          FindOne(es, n);
          FindOne(es.rest, n);
        }
      }
      NoDuplicatesConcat(head, FilesOf(es.rest, at));
    }
  }

  /** Being below a sub-directory. */
  lemma BelowDir<N, C>(x: Item<N, C>, es: Entries<N, C>, at: Path<N>, n: N, sub: Entries<N, C>)
    requires Child(es, n) == Some(Dir(sub))
    ensures Below(x, sub, at + [n])
       <==> |at| + 2 <= |x.path| && x.path[|at|] == n && Below(x, es, at)
  {
    if |at| + 1 < |x.path| {
      var tail := x.path[|at|..];
      assert x.path[..|at| + 1] == x.path[..|at|] + [x.path[|at|]];
      assert tail[1..] == x.path[|at + [n]|..] && tail[0] == x.path[|at|];
      assert (at + [n])[..|at|] == at && (at + [n])[|at|] == n;
      assert x.path[..|at| + 1][..|at|] == x.path[..|at|];
    }
  }

  /** Being below the other entries of a directory. */
  lemma BelowRest<N, C>(x: Item<N, C>, es: Entries<N, C>, at: Path<N>)
    requires WellFormed(es) && es.Entry?
    ensures Below(x, es.rest, at)
       <==> |at| < |x.path| && x.path[|at|] != es.name && Below(x, es, at)
  {
    if |at| < |x.path| { assert x.path[|at|..][0] == x.path[|at|]; }
  }

  predicate Through<N(==)>(at: Path<N>, instance: Path<N>, isPartition: N -> bool) {
    |instance| < |at| && instance == at[..|instance|] && isPartition(at[|instance|])
  }

  lemma {:induction false} WalkDirsExceptLists<N(!new), C(!new)>(es: Entries<N, C>, at: Path<N>, instance: Path<N>,
      isPartition: N -> bool)
    requires WellFormed(es) && !Through(at, instance, isPartition)
    ensures var items := WalkDirsExcept(es, at, instance, isPartition);
      && NoDuplicates(items)
      && forall x :: x in items <==>
           |at| + 2 <= |x.path| && Below(x, es, at) && !InPartition(x.path, instance, isPartition)
    decreases es, 0
  {
    if es.Entry? {
      var taken := es.node.Dir? && !(at == instance && isPartition(es.name));
      var head := if taken then WalkExcept(es.node.entries, at + [es.name], instance, isPartition) else [];
      var tail := WalkDirsExcept(es.rest, at, instance, isPartition);
      WalkDirsExceptLists(es.rest, at, instance, isPartition);
      if taken {
        NotThroughChild(at, es.name, instance, isPartition);
        WalkExceptLists(es.node.entries, at + [es.name], instance, isPartition);
      }
      forall x
        ensures x in head ==> x !in tail
        ensures x in head || x in tail <==>
          |at| + 2 <= |x.path| && Below(x, es, at) && !InPartition(x.path, instance, isPartition)
      {
        BelowRest(x, es, at);
        if es.node.Dir? {
          BelowDir(x, es, at, es.name, es.node.entries);
        } else {
          NotBelowFile(x, es, at);
        }
      }
      NoDuplicatesConcat(head, tail);
    }
  }

  lemma NotThroughChild<N>(at: Path<N>, n: N, instance: Path<N>, isPartition: N -> bool)
    requires !Through(at, instance, isPartition) && !(at == instance && isPartition(n))
    ensures !Through(at + [n], instance, isPartition)
  {
    if |instance| <= |at| { assert (at + [n])[..|instance|] == at[..|instance|]; }
  }

  lemma NotBelowFile<N, C>(x: Item<N, C>, es: Entries<N, C>, at: Path<N>)
    requires es.Entry? && !es.node.Dir?
    ensures |at| + 2 <= |x.path| && x.path[|at|] == es.name ==> !Below(x, es, at)
  {
    if |at| < |x.path| { assert x.path[|at|..][0] == x.path[|at|]; }
  }

  lemma {:induction false} WalkExceptLists<N(!new), C(!new)>(es: Entries<N, C>, at: Path<N>, instance: Path<N>,
      isPartition: N -> bool)
    requires WellFormed(es) && !Through(at, instance, isPartition)
    ensures var items := WalkExcept(es, at, instance, isPartition);
      && NoDuplicates(items)
      && forall x :: x in items <==> Below(x, es, at) && !InPartition(x.path, instance, isPartition)
    decreases es, 1
  {
    FilesOfLists(es, at);
    WalkDirsExceptLists(es, at, instance, isPartition);
    forall x: Item<N, C> | |x.path| == |at| + 1 && Below(x, es, at)
      ensures !InPartition(x.path, instance, isPartition)
    {
      if |instance| < |at| { assert at[..|instance|] == x.path[..|instance|]; }
    }
    NoDuplicatesConcat(FilesOf(es, at), WalkDirsExcept(es, at, instance, isPartition));
  }

  lemma {:induction false} WalkIsWalkExcept<N, C>(es: Entries<N, C>, at: Path<N>, instance: Path<N>,
                                                  isPartition: N -> bool)
    requires forall n :: !isPartition(n)
    ensures Walk(es, at) == WalkExcept(es, at, instance, isPartition)
    ensures WalkDirs(es, at) == WalkDirsExcept(es, at, instance, isPartition)
    decreases es
  {
    if es.Entry? {
      if es.node.Dir? { WalkIsWalkExcept(es.node.entries, at + [es.name], instance, isPartition); }
      WalkIsWalkExcept(es.rest, at, instance, isPartition);
    }
  }

  /** `fast_hashwalk` lists every regular file below the directory, each once. */
  lemma WalkLists<N(!new), C(!new)>(es: Entries<N, C>, at: Path<N>)
    requires WellFormed(es)
    ensures NoDuplicates(Walk(es, at)) && forall x :: x in Walk(es, at) <==> Below(x, es, at)
  {
    var nothing: N -> bool := _ => false;
    WalkIsWalkExcept(es, at, at, nothing);
    WalkExceptLists(es, at, at, nothing);
  }

  // --- In which order ---

  ghost predicate AtLeast<N(!new), C(!new)>(items: seq<Item<N, C>>, n: nat) {
    forall x | x in items :: |x.path| >= n
  }

  lemma {:induction false} FilesAreHere<N(!new), C(!new)>(es: Entries<N, C>, at: Path<N>)
    ensures forall x | x in FilesOf(es, at) :: |x.path| == |at| + 1
  {
    if es.Entry? { FilesAreHere(es.rest, at); }
  }

  lemma {:induction false} DirsAreDeeper<N(!new), C(!new)>(es: Entries<N, C>, at: Path<N>, instance: Path<N>,
                                                           isPartition: N -> bool)
    ensures AtLeast(WalkDirsExcept(es, at, instance, isPartition), |at| + 2)
  {
    if es.Entry? {
      DirsAreDeeper(es.rest, at, instance, isPartition);
      if es.node.Dir? {
        FilesAreHere(es.node.entries, at + [es.name]);
        DirsAreDeeper(es.node.entries, at + [es.name], instance, isPartition);
      }
    }
  }

  /** Each directory is walked from the top: its own files are listed before what is below its
      sub-directories. */
  lemma FilesComeFirst<N(!new), C(!new)>(es: Entries<N, C>, at: Path<N>, instance: Path<N>, isPartition: N -> bool,
                                         i: nat, j: nat)
    requires i < j < |WalkExcept(es, at, instance, isPartition)|
    ensures var items := WalkExcept(es, at, instance, isPartition);
            |items[j].path| == |at| + 1 ==> |items[i].path| == |at| + 1
  {
    var files, dirs := FilesOf(es, at), WalkDirsExcept(es, at, instance, isPartition);
    FilesAreHere(es, at);
    DirsAreDeeper(es, at, instance, isPartition);
    if j >= |files| {
      assert dirs[j - |files|] in dirs;
    } else {
      assert files[i] in files;
    }
  }
}
