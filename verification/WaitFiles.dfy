/**
 `_wait_files_creation`: a cache of which awaited files exist, kept up to date from directory
 events. D and N stand for directory and file names; each directory has its own watch.
 */
module WaitFiles {
  import opened Common

  datatype Kind = Created | MovedTo | Deleted | MovedFrom

  datatype Event<D, N> = Event(dir: D, name: N, kind: Kind)

  type Cache<!D(==), !N(==)> = map<D, map<N, bool>>

  predicate Appears(kind: Kind) { kind == Created || kind == MovedTo }

  /** The files after one event, and after a list of them. */
  function Apply<D(==), N(==)>(fs: set<(D, N)>, e: Event<D, N>): set<(D, N)> {
    if Appears(e.kind) then fs + {(e.dir, e.name)} else fs - {(e.dir, e.name)}
  }

  function ApplyAll<D(==), N(==)>(fs: set<(D, N)>, events: seq<Event<D, N>>): set<(D, N)> {
    if events == [] then fs
    else Apply(ApplyAll(fs, events[..|events| - 1]), events[|events| - 1])
  }

  predicate AllExist<D(==), N(==)>(files: seq<(D, N)>, fs: set<(D, N)>) {
    forall f | f in files :: f in fs
  }

  /** The cache has exactly the awaited files, each with its state in `fs`. */
  ghost predicate Agrees<D(!new), N(!new)>(cache: Cache<D, N>, files: seq<(D, N)>, fs: set<(D, N)>) {
    && (forall d, n | (d, n) in files :: d in cache && n in cache[d])
    && (forall d, n | d in cache && n in cache[d] :: (d, n) in files && (cache[d][n] <==> (d, n) in fs))
  }

  function Put<D(==), N(==)>(cache: Cache<D, N>, d: D, n: N, exists_: bool): Cache<D, N> {
    cache[d := (if d in cache then cache[d] else map[])[n := exists_]]
  }

  /** `check_if_files_exists` */
  method CheckIfFilesExist<D(==, !new), N(==, !new)>(files: seq<(D, N)>, fs: set<(D, N)>)
    returns (cache: Cache<D, N>)
    ensures Agrees(cache, files, fs)
  {
    cache := map[];
    for i := 0 to |files|
      invariant Agrees(cache, files[..i], fs)
    {
      var (d, n) := files[i];
      assert files[..i + 1] == files[..i] + [files[i]];
      cache := Put(cache, d, n, files[i] in fs);
    }
    assert files[..|files|] == files;
  }

  /** `all_files_exists` */
  predicate AllCached<D(==), N(==)>(cache: Cache<D, N>) {
    forall d | d in cache :: forall n | n in cache[d] :: cache[d][n]
  }

  lemma AllCachedMeansAllExist<D(!new), N(!new)>(cache: Cache<D, N>, files: seq<(D, N)>, fs: set<(D, N)>)
    requires Agrees(cache, files, fs)
    ensures AllCached(cache) <==> AllExist(files, fs)
  {
    if AllCached(cache) {
      forall f | f in files ensures f in fs {
        assert (f.0, f.1) in files;
        assert cache[f.0][f.1];
      }
    }
  }

  /** What the loop does with one event. */
  function Update<D(==), N(==)>(cache: Cache<D, N>, e: Event<D, N>): Cache<D, N> {
    if e.dir in cache && e.name in cache[e.dir] then Put(cache, e.dir, e.name, Appears(e.kind)) else cache
  }

  lemma UpdateAgrees<D(!new), N(!new)>(cache: Cache<D, N>, files: seq<(D, N)>, fs: set<(D, N)>, e: Event<D, N>)
    requires Agrees(cache, files, fs)
    ensures Agrees(Update(cache, e), files, Apply(fs, e))
  {
  }

  /** `for event in inotify.read()` */
  method ProcessBatch<D(==, !new), N(==, !new)>(cache0: Cache<D, N>, batch: seq<Event<D, N>>,
                                               ghost files: seq<(D, N)>, ghost fs: set<(D, N)>)
    returns (cache: Cache<D, N>)
    requires Agrees(cache0, files, fs)
    ensures Agrees(cache, files, ApplyAll(fs, batch))
  {
    cache := cache0;
    for i := 0 to |batch|
      invariant Agrees(cache, files, ApplyAll(fs, batch[..i]))
    {
      assert batch[..i + 1][..i] == batch[..i];
      UpdateAgrees(cache, files, ApplyAll(fs, batch[..i]), batch[i]);
      cache := Update(cache, batch[i]);
    }
    assert batch[..|batch|] == batch;
  }

  /** The files when k batches have been read. */
  function FilesAfter<D(==), N(==)>(fs: set<(D, N)>, batches: seq<seq<Event<D, N>>>, k: nat): set<(D, N)>
    requires k <= |batches|
  {
    if k == 0 then fs else ApplyAll(FilesAfter(fs, batches, k - 1), batches[k - 1])
  }

  /** The cache follows the files that the batches read so far have left, and not before did all
      awaited files exist. */
  ghost predicate Waited<D(!new), N(!new)>(files: seq<(D, N)>, fs: set<(D, N)>, batches: seq<seq<Event<D, N>>>,
                                           read: nat, cache: Cache<D, N>) {
    && read <= |batches| && Agrees(cache, files, FilesAfter(fs, batches, read))
    && forall k | 0 <= k < read :: !AllExist(files, FilesAfter(fs, batches, k))
  }

  /** What the caller is told when the loop ends. */
  ghost predicate WaitResult<D(!new), N(!new)>(files: seq<(D, N)>, fs: set<(D, N)>, batches: seq<seq<Event<D, N>>>,
                                               returned: bool, read: nat)
  {
    && read <= |batches| && (returned <==> forall f | f in files :: f in FilesAfter(fs, batches, read))
    && forall k | 0 <= k < read :: exists f :: f in files && f !in FilesAfter(fs, batches, k)
  }

  lemma WaitedMeans<D(!new), N(!new)>(files: seq<(D, N)>, fs: set<(D, N)>, batches: seq<seq<Event<D, N>>>, read: nat,
                                      cache: Cache<D, N>)
    requires Waited(files, fs, batches, read, cache)
    ensures WaitResult(files, fs, batches, AllCached(cache), read)
  {
    AllCachedMeansAllExist(cache, files, FilesAfter(fs, batches, read));
    forall k | 0 <= k < read ensures exists f :: f in files && f !in FilesAfter(fs, batches, k) {
      assert !AllExist(files, FilesAfter(fs, batches, k));
    }
  }

  lemma WaitedOneMore<D(!new), N(!new)>(files: seq<(D, N)>, fs: set<(D, N)>, batches: seq<seq<Event<D, N>>>, read: nat,
                                        cache: Cache<D, N>, next: Cache<D, N>)
    requires Waited(files, fs, batches, read, cache) && !AllCached(cache) && read < |batches|
    requires Agrees(next, files, ApplyAll(FilesAfter(fs, batches, read), batches[read]))
    ensures Waited(files, fs, batches, read + 1, next)
  {
    AllCachedMeansAllExist(cache, files, FilesAfter(fs, batches, read));
    forall k | 0 <= k < read + 1 ensures !AllExist(files, FilesAfter(fs, batches, k)) {
      assert k < read || k == read;
    }
  }

  /** One turn of the loop. */
  method ReadBatch<D(==, !new), N(==, !new)>(files: seq<(D, N)>, ghost fs: set<(D, N)>, batches: seq<seq<Event<D, N>>>,
                                             read: nat,
                                            cache: Cache<D, N>) returns (next: Cache<D, N>)
    requires Waited(files, fs, batches, read, cache) && !AllCached(cache) && read < |batches|
    ensures Waited(files, fs, batches, read + 1, next)
  {
    next := ProcessBatch(cache, batches[read], files, FilesAfter(fs, batches, read));
    WaitedOneMore(files, fs, batches, read, cache, next);
  }

  /** The inotify branch on the batches that `inotify.read()` will return, when no awaited file
      changes between the first check and the watch. It returns at the first batch after which
      all awaited files exist together, and not before; if there is none it keeps waiting. */
  method WaitFilesCreation<D(==, !new), N(==, !new)>(files: seq<(D, N)>, fs: set<(D, N)>,
                                                     batches: seq<seq<Event<D, N>>>)
    returns (returned: bool, read: nat)
    ensures (!returned ==> read == |batches|) && WaitResult(files, fs, batches, returned, read)
  {
    var cache := CheckIfFilesExist(files, fs);
    read := 0;
    while !AllCached(cache) && read < |batches|
      invariant Waited(files, fs, batches, read, cache)
    {
      cache := ReadBatch(files, fs, batches, read, cache);
      read := read + 1;
    }
    WaitedMeans(files, fs, batches, read, cache);
    returned := AllCached(cache);
  }

  /** The cache is what the last check saw, and no check before it saw all awaited files. */
  ghost predicate Polled<D(!new), N(!new)>(files: seq<(D, N)>, checks: seq<set<(D, N)>>, last: nat,
                                           cache: Cache<D, N>) {
    last < |checks| && Agrees(cache, files, checks[last]) && forall k | 0 <= k < last :: !AllExist(files, checks[k])
  }

  lemma PolledMeans<D(!new), N(!new)>(files: seq<(D, N)>, checks: seq<set<(D, N)>>, last: nat, cache: Cache<D, N>)
    requires Polled(files, checks, last, cache)
    ensures AllCached(cache) <==> AllExist(files, checks[last])
    ensures forall k | 0 <= k < last :: !AllExist(files, checks[k])
  {
    AllCachedMeansAllExist(cache, files, checks[last]);
  }

  lemma PolledOneMore<D(!new), N(!new)>(files: seq<(D, N)>, checks: seq<set<(D, N)>>, last: nat, cache: Cache<D, N>,
                                        next: Cache<D, N>)
    requires Polled(files, checks, last, cache) && !AllCached(cache) && last + 1 < |checks|
             && Agrees(next, files, checks[last + 1])
    ensures Polled(files, checks, last + 1, next)
  {
    PolledMeans(files, checks, last, cache);
    forall k | 0 <= k < last + 1 ensures !AllExist(files, checks[k]) {
      assert k < last || k == last;
    }
  }

  /** One turn of the loop without watches. The entries of a check replace all others. */
  method CheckAgain<D(==, !new), N(==, !new)>(files: seq<(D, N)>, checks: seq<set<(D, N)>>, last: nat,
                                              ghost cache: Cache<D, N>)
    returns (next: Cache<D, N>)
    requires Polled(files, checks, last, cache) && !AllCached(cache) && last + 1 < |checks|
    ensures Polled(files, checks, last + 1, next)
  {
    next := CheckIfFilesExist(files, checks[last + 1]);
    PolledOneMore(files, checks, last, cache, next);
  }

  /** The fallback without watches, on what the checks, one after the other, will see: it returns
      at the first check that sees all awaited files. */
  method PollFilesCreation<D(==, !new), N(==, !new)>(files: seq<(D, N)>, checks: seq<set<(D, N)>>)
    returns (returned: bool, last: nat)
    requires checks != []
    ensures last < |checks| && (!returned ==> last == |checks| - 1)
    ensures returned <==> forall f | f in files :: f in checks[last]
    ensures forall k | 0 <= k < last :: exists f :: f in files && f !in checks[k]
  {
    var cache := CheckIfFilesExist(files, checks[0]);
    last := 0;
    while !AllCached(cache) && last < |checks| - 1
      invariant Polled(files, checks, last, cache)
    {
      cache := CheckAgain(files, checks, last, cache);
      last := last + 1;
    }
    PolledMeans(files, checks, last, cache);
    returned := AllCached(cache);
  }

  function UpdateAll<D(==), N(==)>(cache: Cache<D, N>, events: seq<Event<D, N>>): Cache<D, N> {
    if events == [] then cache
    else Update(UpdateAll(cache, events[..|events| - 1]), events[|events| - 1])
  }

  lemma {:induction false} UpdateAllAgrees<D(!new), N(!new)>(cache: Cache<D, N>, files: seq<(D, N)>, fs: set<(D, N)>,
      events: seq<Event<D, N>>)
    requires Agrees(cache, files, fs)
    ensures Agrees(UpdateAll(cache, events), files, ApplyAll(fs, events))
    decreases |events|
  {
    if events != [] {
      UpdateAllAgrees(cache, files, fs, events[..|events| - 1]);
      UpdateAgrees(UpdateAll(cache, events[..|events| - 1]), files, ApplyAll(fs, events[..|events| - 1]),
          events[|events| - 1]);
    }
  }

  /** With files `checked` at the first check and `watched` when the watches were added, the
      cache follows the file system through every later list of events if and only if no
      awaited file changed in between. */
  lemma GapMustBeQuiet<D(!new), N(!new)>(cache: Cache<D, N>, files: seq<(D, N)>, checked: set<(D, N)>,
                                         watched: set<(D, N)>)
    requires Agrees(cache, files, checked)
    ensures (forall events: seq<Event<D, N>> :: Agrees(UpdateAll(cache, events), files, ApplyAll(watched, events)))
       <==> (forall f | f in files :: f in checked <==> f in watched)
  {
    if forall f | f in files :: f in checked <==> f in watched {
      assert Agrees(cache, files, watched);
      forall events: seq<Event<D, N>> ensures Agrees(UpdateAll(cache, events), files, ApplyAll(watched, events)) {
        UpdateAllAgrees(cache, files, watched, events);
      }
    } else {
      var f :| f in files && !(f in checked <==> f in watched);
      assert f == (f.0, f.1) && f.0 in cache && f.1 in cache[f.0];
      NoEvents(cache, files, watched);
    }
  }

  lemma NoEvents<D(!new), N(!new)>(cache: Cache<D, N>, files: seq<(D, N)>, watched: set<(D, N)>)
    requires !Agrees(cache, files, watched)
    ensures exists events: seq<Event<D, N>> :: !Agrees(UpdateAll(cache, events), files, ApplyAll(watched, events))
  {
    var none: seq<Event<D, N>> := [];
    assert UpdateAll(cache, none) == cache && ApplyAll(watched, none) == watched;
    assert !Agrees(UpdateAll(cache, none), files, ApplyAll(watched, none));
  }

  lemma {:induction false} UntouchedEntry<D, N>(cache: Cache<D, N>, events: seq<Event<D, N>>, d: D, n: N)
    requires d in cache && n in cache[d] && forall i | 0 <= i < |events| :: events[i].dir != d || events[i].name != n
    ensures var c := UpdateAll(cache, events); d in c && n in c[d] && c[d][n] == cache[d][n]
    decreases |events|
  {
    if events != [] {
      UntouchedEntry(cache, events[..|events| - 1], d, n);
    }
  }

  /** A file created in the gap and left alone since is waited for without end. */
  lemma CreatedInGapIsMissed<D(!new), N(!new)>(cache: Cache<D, N>, files: seq<(D, N)>, checked: set<(D, N)>,
                                               watched: set<(D, N)>, events: seq<Event<D, N>>, d: D, n: N)
    requires Agrees(cache, files, checked)
    requires (d, n) in files && (d, n) !in checked && (d, n) in watched
    requires forall i | 0 <= i < |events| :: events[i].dir != d || events[i].name != n
    ensures (d, n) in ApplyAll(watched, events) && !AllCached(UpdateAll(cache, events))
    decreases |events|
  {
    UntouchedEntry(cache, events, d, n);
    if events != [] {
      CreatedInGapIsMissed(cache, files, checked, watched, events[..|events| - 1], d, n);
    }
  }

  // --- What events say about the file system ---

  /** What happens to entries of directories. */
  datatype Op<D, N> =
    | Create(dir: D, name: N)
    | Delete(dir: D, name: N)
    | Rename(dir: D, name: N, toDir: D, toName: N)

  /** A rename moves an entry that exists to another place, whether or not there is an entry. */
  predicate CanDo<D(==), N(==)>(fs: set<(D, N)>, op: Op<D, N>) {
    op.Rename? ==> (op.dir, op.name) in fs && (op.dir, op.name) != (op.toDir, op.toName)
  }

  function Do<D(==), N(==)>(fs: set<(D, N)>, op: Op<D, N>): set<(D, N)> {
    match op
    case Create(d, n) => fs + {(d, n)}
    case Delete(d, n) => fs - {(d, n)}
    case Rename(d, n, toD, toN) => fs - {(d, n)} + {(toD, toN)}
  }

  /** The events that the kernel queues, for the directories that are watched. */
  function Emits<D(==), N>(op: Op<D, N>, watched: set<D>): seq<Event<D, N>> {
    match op
    case Create(d, n) => if d in watched then [Event(d, n, Created)] else []
    case Delete(d, n) => if d in watched then [Event(d, n, Deleted)] else []
    case Rename(d, n, toD, toN) =>
      (if d in watched then [Event(d, n, MovedFrom)] else [])
      + if toD in watched then [Event(toD, toN, MovedTo)] else []
  }

  predicate CanDoAll<D(==), N(==)>(fs: set<(D, N)>, ops: seq<Op<D, N>>) {
    ops == [] || (CanDoAll(fs, ops[..|ops| - 1]) && CanDo(DoAll(fs, ops[..|ops| - 1]), ops[|ops| - 1]))
  }

  function DoAll<D(==), N(==)>(fs: set<(D, N)>, ops: seq<Op<D, N>>): set<(D, N)> {
    if ops == [] then fs else Do(DoAll(fs, ops[..|ops| - 1]), ops[|ops| - 1])
  }

  function EmitsAll<D(==), N>(ops: seq<Op<D, N>>, watched: set<D>): seq<Event<D, N>> {
    if ops == [] then [] else EmitsAll(ops[..|ops| - 1], watched) + Emits(ops[|ops| - 1], watched)
  }

  lemma {:induction false} ApplyConcat<D(!new), N(!new)>(fs: set<(D, N)>, a: seq<Event<D, N>>, b: seq<Event<D, N>>)
    ensures ApplyAll(fs, a + b) == ApplyAll(ApplyAll(fs, a), b)
    decreases |b|
  {
    if b == [] {
      assert a + b == a;
    } else {
      assert (a + b)[..|a + b| - 1] == a + b[..|b| - 1];
      ApplyConcat(fs, a, b[..|b| - 1]);
    }
  }

  ghost predicate SameWatched<D(!new), N(!new)>(fs: set<(D, N)>, other: set<(D, N)>, watched: set<D>) {
    forall d, n | d in watched :: (d, n) in fs <==> (d, n) in other
  }

  lemma ApplyOne<D, N>(fs: set<(D, N)>, e: Event<D, N>)
    ensures ApplyAll(fs, [e]) == Apply(fs, e)
  {
    assert [e][..0] == [];
  }

  lemma ApplyTwo<D, N>(fs: set<(D, N)>, e: Event<D, N>, f: Event<D, N>)
    ensures ApplyAll(fs, [e] + [f]) == Apply(Apply(fs, e), f)
  {
    assert ([e] + [f])[..1] == [e];
    ApplyOne(fs, e);
  }

  lemma OpIsSeen<D(!new), N(!new)>(fs: set<(D, N)>, seen: set<(D, N)>, op: Op<D, N>, watched: set<D>)
    requires CanDo(fs, op) && SameWatched(fs, seen, watched)
    ensures SameWatched(Do(fs, op), ApplyAll(seen, Emits(op, watched)), watched)
  {
    match op
    case Create(d, n) => ApplyOne(seen, Event(d, n, Created));
    case Delete(d, n) => ApplyOne(seen, Event(d, n, Deleted));
    case Rename(d, n, toD, toN) =>
      var e, f := Event(d, n, MovedFrom), Event(toD, toN, MovedTo);
      ApplyOne(seen, e);
      ApplyOne(seen, f);
      ApplyTwo(seen, e, f);
      assert [] + [f] == [f] && [e] + [] == [e];
  }

  /** Whatever happens to the file system, events tell which files of watched directories exist. */
  lemma {:induction false} EventsTell<D(!new), N(!new)>(fs: set<(D, N)>, ops: seq<Op<D, N>>, watched: set<D>)
    requires CanDoAll(fs, ops)
    ensures SameWatched(DoAll(fs, ops), ApplyAll(fs, EmitsAll(ops, watched)), watched)
    decreases |ops|
  {
    if ops != [] {
      var front, last := ops[..|ops| - 1], ops[|ops| - 1];
      EventsTell(fs, front, watched);
      ApplyConcat(fs, EmitsAll(front, watched), Emits(last, watched));
      OpIsSeen(DoAll(fs, front), ApplyAll(fs, EmitsAll(front, watched)), last, watched);
    }
  }

  /** The kind of the last event of a file. */
  function LastKind<D(==), N(==)>(events: seq<Event<D, N>>, d: D, n: N): Option<Kind> {
    if events == [] then None
    else
      var last := events[|events| - 1];
      if last.dir == d && last.name == n then Some(last.kind) else LastKind(events[..|events| - 1], d, n)
  }

  /** A file exists after some events exactly when the last one of it is its creation or its move to
      this place, or there is none and it existed before. */
  lemma {:induction false} ExistsExactly<D(!new), N(!new)>(fs: set<(D, N)>, events: seq<Event<D, N>>, d: D, n: N)
    ensures (d, n) in ApplyAll(fs, events) <==>
      match LastKind(events, d, n)
      case None => (d, n) in fs
      case Some(kind) => kind == Created || kind == MovedTo
    decreases |events|
  {
    if events != [] { ExistsExactly(fs, events[..|events| - 1], d, n); }
  }

  /** ... also when they are read in batches, one for each list of operations. */
  lemma {:induction false} BatchesTell<D(!new), N(!new)>(fs: set<(D, N)>, work: seq<seq<Op<D, N>>>,
                                                         batches: seq<seq<Event<D, N>>>, watched: set<D>, k: nat)
    requires k <= |work| == |batches| && forall i | 0 <= i < |work| :: batches[i] == EmitsAll(work[i], watched)
    requires forall i | 0 <= i < |work| :: CanDoAll(WorkDone(fs, work, i), work[i])
    ensures SameWatched(WorkDone(fs, work, k), FilesAfter(fs, batches, k), watched)
    decreases k
  {
    if k > 0 {
      BatchesTell(fs, work, batches, watched, k - 1);
      var before, seen := WorkDone(fs, work, k - 1), FilesAfter(fs, batches, k - 1);
      EventsTell(before, work[k - 1], watched);
      SameStart(before, seen, EmitsAll(work[k - 1], watched), watched);
    }
  }

  /** The file system when k lists of operations have been done. */
  function WorkDone<D(==), N(==)>(fs: set<(D, N)>, work: seq<seq<Op<D, N>>>, k: nat): set<(D, N)>
    requires k <= |work|
  {
    if k == 0 then fs else DoAll(WorkDone(fs, work, k - 1), work[k - 1])
  }

  lemma {:induction false} SameStart<D(!new), N(!new)>(fs: set<(D, N)>, other: set<(D, N)>, events: seq<Event<D, N>>,
                                                       watched: set<D>)
    requires SameWatched(fs, other, watched)
    ensures SameWatched(ApplyAll(fs, events), ApplyAll(other, events), watched)
    decreases |events|
  {
    if events != [] { SameStart(fs, other, events[..|events| - 1], watched); }
  }

  /** So a wait for files of watched directories ends with the operations after which all of them
      exist in the file system. */
  lemma WaitSeesFiles<D(!new), N(!new)>(files: seq<(D, N)>, fs: set<(D, N)>, work: seq<seq<Op<D, N>>>,
                                        batches: seq<seq<Event<D, N>>>, watched: set<D>, k: nat)
    requires k <= |work| == |batches| && forall i | 0 <= i < |work| :: batches[i] == EmitsAll(work[i], watched)
    requires forall i | 0 <= i < |work| :: CanDoAll(WorkDone(fs, work, i), work[i])
    requires forall f | f in files :: f.0 in watched
    ensures AllExist(files, FilesAfter(fs, batches, k)) <==> forall f | f in files :: f in WorkDone(fs, work, k)
  {
    BatchesTell(fs, work, batches, watched, k);
    forall f | f in files ensures f in FilesAfter(fs, batches, k) <==> f in WorkDone(fs, work, k) {
      assert f == (f.0, f.1);
    }
  }

  /** A file that is renamed into place, from a watched directory or not, ends the wait for it. */
  lemma RenamedIntoPlace<D(!new), N(!new)>(fs: set<(D, N)>, from: (D, N), to: (D, N), watched: set<D>)
    requires from in fs && from != to && to.0 in watched
    ensures AllExist([to], FilesAfter(fs, [EmitsAll([Rename(from.0, from.1, to.0, to.1)], watched)], 1))
  {
    var ops := [Rename(from.0, from.1, to.0, to.1)];
    assert ops[..0] == [] && DoAll(fs, ops) == Do(fs, ops[0]);
    assert from == (from.0, from.1) && to == (to.0, to.1);
    EventsTell(fs, ops, watched);
    assert (to.0, to.1) in ApplyAll(fs, EmitsAll(ops, watched));
  }
}
