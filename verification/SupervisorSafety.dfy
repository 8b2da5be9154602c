/** Invariants of every run of the log-redirecting loop. */
module SupervisorSafety {
  import opened Common
  import opened Supervisor

  function Flatten(segments: seq<Segment>): Bytes {
    if segments == [] then []
    else Flatten(segments[..|segments| - 1]) + segments[|segments| - 1].data
  }

  /** All bytes appended to a path, through every opening. */
  function Appended<P(!new)>(st: State<P>, path: P): Bytes { Flatten(Segments(st, path)) }

  /** `rfds` starts with the trigger pipe and continues with the pipe of each log, and the
      logs have distinct paths. */
  ghost predicate Feeds<P(!new)>(st: State<P>) {
    && |st.rfds| == |st.logs| + 1
    && st.rfds[0] in st.open && st.open[st.rfds[0]] == TriggerRead
    && (forall k | 1 <= k < |st.rfds| ::
          st.rfds[k] in st.open && st.open[st.rfds[k]] == PipeRead(st.logs[k - 1].path))
    && (forall i, j | 0 <= i < j < |st.logs| :: st.logs[i].path != st.logs[j].path)
  }

  /** The log is between its close and its open. */
  predicate IsClosed<P>(st: State<P>, j: nat) { st.pc.Reopening? && st.pc.closed && st.pc.k == j }

  ghost predicate OwnsOne<P(!new)>(st: State<P>, j: nat)
    requires j < |st.logs|
  {
    && st.logs[j].fd in st.open
    && (st.open[st.logs[j].fd].PipeWrite? || st.open[st.logs[j].fd].LogFile?)
    && st.open[st.logs[j].fd].path == st.logs[j].path
  }

  /** The descriptor of a log is a way to write to its own path, unless it is being reopened. */
  ghost predicate Owns<P(!new)>(st: State<P>) {
    forall j | 0 <= j < |st.logs| :: if IsClosed(st, j) then st.logs[j].fd !in st.open else OwnsOne(st, j)
  }

  /** The j-th log is open on the last opening of its path. */
  ghost predicate Opened<P(!new)>(st: State<P>, j: nat)
    requires j < |st.logs|
  {
    var path := st.logs[j].path;
    && path in st.disk && st.disk[path] != []
    && st.logs[j].fd in st.open
    && st.open[st.logs[j].fd] == LogFile(path, |st.disk[path]| - 1)
  }

  /** ... and that opening is later than every rotation signal. */
  ghost predicate UpToDate<P(!new)>(st: State<P>, j: nat)
    requires j < |st.logs| && Opened(st, j)
  {
    var segments := st.disk[st.logs[j].path];
    segments[|segments| - 1].openedAt == st.signals
  }

  lemma FlattenAppend(segments: seq<Segment>, d: Bytes)
    requires segments != []
    ensures Flatten(Append(segments, |segments| - 1, d)) == Flatten(segments) + d
  {
    var k := |segments| - 1;
    assert Append(segments, k, d)[..k] == segments[..k];
  }

  lemma FlattenOpen(segments: seq<Segment>, n: nat)
    ensures Flatten(segments + [Segment(n, [])]) == Flatten(segments)
  {
    assert (segments + [Segment(n, [])])[..|segments|] == segments;
  }

  // --- reopen ---

  /** What `reopen` leaves unchanged. */
  ghost predicate SameStreams<P(!new)>(st: State<P>, st': State<P>) {
    && st'.rfds == st.rfds && st'.received == st.received && st'.ended == st.ended
    && st'.trigger == st.trigger && st'.signals == st.signals
    && |st'.logs| == |st.logs| && (forall j | 0 <= j < |st.logs| :: st'.logs[j].path == st.logs[j].path)
    && (forall path :: Appended(st', path) == Appended(st, path))
  }

  ghost predicate StillOpened<P(!new)>(st: State<P>, st': State<P>, j: nat)
    requires j < |st.logs| == |st'.logs|
  {
    Opened(st, j) ==> Opened(st', j) && (UpToDate(st, j) ==> UpToDate(st', j))
  }

  lemma CloseOneKeeps<P(!new)>(st: State<P>)
    requires Feeds(st) && Owns(st) && Enabled(st, Close)
    ensures var st' := Next(st, Close);
      && Feeds(st') && Owns(st') && SameStreams(st, st')
      && (forall j | 0 <= j < |st.logs| && j != st.pc.k :: StillOpened(st, st', j))
  {
    var st', i := Next(st, Close), st.pc.k;
    assert OwnsOne(st, i);
    forall j | 0 <= j < |st.logs| && j != i ensures OwnsOne(st', j) && StillOpened(st, st', j) {
      assert OwnsOne(st, j) && st.logs[j].path != st.logs[i].path;
    }
    forall path ensures Appended(st', path) == Appended(st, path) {
      assert Segments(st', path) == Segments(st, path);
    }
  }

  lemma OpenOneOwns<P(!new)>(st: State<P>)
    requires Feeds(st) && Owns(st) && Enabled(st, Event.Open)
    ensures Feeds(Next(st, Event.Open)) && Owns(Next(st, Event.Open))
  {
    var st', i := Next(st, Event.Open), st.pc.k;
    forall j | 0 <= j < |st.logs| ensures OwnsOne(st', j) {
      if j != i { assert OwnsOne(st, j); }
    }
  }

  /** After its open the log is open on a new opening of its path, later than every signal. */
  lemma OpenOneKeeps<P(!new)>(st: State<P>)
    requires Feeds(st) && Owns(st) && Enabled(st, Event.Open)
    ensures var st', i := Next(st, Event.Open), st.pc.k;
      && SameStreams(st, st') && Opened(st', i) && UpToDate(st', i)
      && (forall j | 0 <= j < |st.logs| && j != i :: StillOpened(st, st', j))
  {
    var st', i := Next(st, Event.Open), st.pc.k;
    var path := st.logs[i].path;
    forall j | 0 <= j < |st.logs| && j != i ensures StillOpened(st, st', j) {
      assert OwnsOne(st, j) && st.logs[j].path != path;
    }
    OpenOneAppends(st);
  }

  lemma OpenOneAppends<P(!new)>(st: State<P>)
    requires Enabled(st, Event.Open)
    ensures forall p :: Appended(Next(st, Event.Open), p) == Appended(st, p)
  {
    var st', path := Next(st, Event.Open), st.logs[st.pc.k].path;
    FlattenOpen(Segments(st, path), st.signals);
    forall p ensures Appended(st', p) == Appended(st, p) {
      assert p != path ==> Segments(st', p) == Segments(st, p);
    }
  }

  // --- Invariants ---

  function Paths<P>(st: State<P>): (r: seq<P>)
    ensures |r| == |st.logs| && forall j | 0 <= j < |r| :: r[j] == st.logs[j].path
  {
    seq(|st.logs|, j requires 0 <= j < |st.logs| => st.logs[j].path)
  }

  /** How many of the logs, from the first, have been through the current or the last `reopen`. */
  function Renewed<P>(st: State<P>): nat {
    match st.pc
    case Starting => 0
    case Reopening(k, _, _) => k
    case _ => |st.logs|
  }

  /** The lists and descriptors agree; logs that have been through `reopen` are open on a file. */
  ghost predicate Lists<P(!new)>(st: State<P>) {
    Feeds(st) && Owns(st) && Renewed(st) <= |st.logs| && forall j | 0 <= j < Renewed(st) :: Opened(st, j)
  }

  /** The data that has been read from the stream and not yet written to its log. */
  function Pending<P(==)>(st: State<P>, path: P): Bytes {
    if st.pc.Got? && st.pc.fd in st.open && st.open[st.pc.fd] == PipeRead(path) then st.pc.data else []
  }

  /** The end of the stream has just been read and its log not yet dropped. */
  predicate Ending<P(==)>(st: State<P>, path: P) {
    st.pc.Got? && st.pc.data == [] && st.pc.fd in st.open && st.open[st.pc.fd] == PipeRead(path)
  }

  ghost predicate Accounts<P(!new)>(st: State<P>) {
    && (forall path | path in Paths(st) :: path in st.received)
    && (forall path | path in st.received :: path in Paths(st) || path in st.ended)
    && (forall path | path in Paths(st) :: path in st.ended <==> Ending(st, path))
    && (forall path | path in st.received :: st.received[path] == Appended(st, path) + Pending(st, path))
  }

  predicate AllIn<T(==)>(s: seq<T>, t: seq<T>) { forall i | 0 <= i < |s| :: s[i] in t }

  ghost predicate Position<P(!new)>(st: State<P>) {
    match st.pc
    case Serving(todo) => todo != [] && NoDuplicates(todo) && AllIn(todo, st.rfds)
    case Got(fd, data, todo) => fd in st.rfds && fd !in todo && NoDuplicates(todo) && AllIn(todo, st.rfds)
    case Reopening(k, _, todo) => k < |st.logs| && NoDuplicates(todo) && AllIn(todo, st.rfds)
    case Returned => st.logs == []
    case _ => true
  }

  predicate AboutToReopen<P(==)>(st: State<P>) {
    st.pc == Starting || (st.pc.Got? && st.pc.fd in st.open && st.open[st.pc.fd] == TriggerRead)
  }

  /** A rotation signal is never forgotten: the trigger pipe holds a byte, or the program is
      about to reopen, or every log was opened after the last signal; within `reopen`, every log
      that it has opened so far. */
  ghost predicate Rotates<P(!new)>(st: State<P>)
    requires Lists(st)
  {
    st.trigger > 0 || AboutToReopen(st) || forall j | 0 <= j < Renewed(st) :: UpToDate(st, j)
  }

  ghost predicate Inv<P(!new)>(st: State<P>) {
    Lists(st) && Accounts(st) && Position(st) && Rotates(st)
  }

  lemma WriteKeeps<P(!new)>(st: State<P>, i: nat, d: Bytes)
    requires Feeds(st) && Owns(st) && i < |st.logs| && forall j | 0 <= j < |st.logs| :: Opened(st, j)
    ensures var st' := Write(st, i, d);
      && st' == st.(disk := st'.disk) && Feeds(st') && Owns(st')
      && (forall j | 0 <= j < |st.logs| :: Opened(st', j) && (UpToDate(st, j) ==> UpToDate(st', j)))
      && (forall path :: Appended(st', path) == Appended(st, path) + if path == st.logs[i].path then d else [])
  {
    var st' := Write(st, i, d);
    assert Opened(st, i);
    FlattenAppend(st.disk[st.logs[i].path], d);
    forall j | 0 <= j < |st.logs| ensures Opened(st', j) && (UpToDate(st, j) ==> UpToDate(st', j)) {
      assert Opened(st, j);
      assert j == i || st.logs[j].path != st.logs[i].path;
    }
  }

  lemma DropKeepsRfds<P(!new)>(st: State<P>, i: nat)
    requires Feeds(st) && i < |st.logs|
    ensures forall fd | fd in st.rfds && fd != st.rfds[i + 1] :: fd in Drop(st, i).rfds
  {
    var st' := Drop(st, i);
    forall fd | fd in st.rfds && fd != st.rfds[i + 1] ensures fd in st'.rfds {
      var k :| 0 <= k < |st.rfds| && st.rfds[k] == fd;
      assert st'.rfds[if k < i + 1 then k else k - 1] == fd;
    }
  }

  lemma DropKeepsFeeds<P(!new)>(st: State<P>, i: nat)
    requires Feeds(st) && Owns(st) && i < |st.logs|
    ensures Feeds(Drop(st, i))
  {
    var st' := Drop(st, i);
    forall k | 0 <= k < |st'.rfds|
      ensures st'.rfds[k] in st'.open && st'.open[st'.rfds[k]] == st.open[st'.rfds[k]]
    {
      assert st'.rfds[k] == st.rfds[if k < i + 1 then k else k + 1];
    }
    forall j | 0 <= j < |st'.logs| ensures st'.logs[j] == st.logs[if j < i then j else j + 1] {}
  }

  lemma DropKeepsOwns<P(!new)>(st: State<P>, i: nat)
    requires Feeds(st) && Owns(st) && i < |st.logs|
    requires !st.pc.Reopening?
    ensures Owns(Drop(st, i))
  {
    var st' := Drop(st, i);
    forall j | 0 <= j < |st'.logs| ensures OwnsOne(st', j) {
      var k := if j < i then j else j + 1;
      assert st'.logs[j] == st.logs[k] && OwnsOne(st, k) && OwnsOne(st, i);
    }
  }

  lemma DropKeepsOpened<P(!new)>(st: State<P>, i: nat)
    requires Feeds(st) && Owns(st) && i < |st.logs| && forall j | 0 <= j < |st.logs| :: Opened(st, j)
    ensures var st' := Drop(st, i);
      && (forall j | 0 <= j < |st'.logs| :: Opened(st', j))
      && ((forall j | 0 <= j < |st.logs| :: UpToDate(st, j)) ==> forall j | 0 <= j < |st'.logs| :: UpToDate(st', j))
  {
    var st' := Drop(st, i);
    forall j | 0 <= j < |st'.logs|
      ensures Opened(st', j) && (UpToDate(st, if j < i then j else j + 1) ==> UpToDate(st', j))
    {
      assert Opened(st, if j < i then j else j + 1);
    }
  }

  lemma WithoutOne<T(!new)>(s: seq<T>, i: nat)
    requires i < |s| && NoDuplicates(s)
    ensures forall x :: x in s[..i] + s[i + 1..] <==> x in s && x != s[i]
  {
    assert s == s[..i] + [s[i]] + s[i + 1..];
  }

  lemma DropKeepsPaths<P(!new)>(st: State<P>, i: nat)
    requires Feeds(st) && i < |st.logs|
    ensures forall path :: path in Paths(Drop(st, i)) <==> path in Paths(st) && path != st.logs[i].path
  {
    assert Paths(Drop(st, i)) == Paths(st)[..i] + Paths(st)[i + 1..];
    assert NoDuplicates(Paths(st));
    WithoutOne(Paths(st), i);
  }

  // --- Every event keeps the invariant ---

  predicate Between(pc: Pc) { pc.Reopening? && pc.closed }

  /** Nothing about lists and files depends on where the program is, outside `reopen`. */
  lemma SameLists<P(!new)>(st: State<P>, st': State<P>)
    requires Lists(st) && Renewed(st') <= Renewed(st) && (st'.pc == st.pc || (!Between(st.pc) && !Between(st'.pc)))
    requires st'.open == st.open && st'.rfds == st.rfds && st'.logs == st.logs && st'.disk == st.disk
    ensures Lists(st') && Paths(st') == Paths(st) && forall path :: Appended(st', path) == Appended(st, path)
    ensures forall j | 0 <= j < |st.logs| && Opened(st, j) ::
      Opened(st', j) && (st'.signals == st.signals ==> UpToDate(st', j) == UpToDate(st, j))
  {
    forall j | 0 <= j < |st.logs| ensures if IsClosed(st', j) then st'.logs[j].fd !in st'.open else OwnsOne(st', j) {
      assert OwnsOne(st, j) ==> OwnsOne(st', j);
    }
    forall j | 0 <= j < |st.logs| && Opened(st, j)
      ensures Opened(st', j) && (st'.signals == st.signals ==> UpToDate(st', j) == UpToDate(st, j))
    {}
  }

  /** Nothing about what was read and written changes while no data is in hand. */
  lemma SameAccounts<P(!new)>(st: State<P>, st': State<P>)
    requires Accounts(st) && st'.received == st.received && st'.ended == st.ended && Paths(st') == Paths(st)
    requires forall path :: Appended(st', path) == Appended(st, path)
    requires forall path :: Pending(st', path) == Pending(st, path) && Ending(st', path) == Ending(st, path)
    ensures Accounts(st')
  {
  }

  lemma SamePending<P(!new)>(st: State<P>, st': State<P>)
    requires st'.open == st.open && (st'.pc == st.pc || (!st.pc.Got? && !st'.pc.Got?))
    ensures forall path :: Pending(st', path) == Pending(st, path) && Ending(st', path) == Ending(st, path)
  {
  }

  lemma StillRotates<P(!new)>(st: State<P>, st': State<P>)
    requires Lists(st) && Lists(st') && Rotates(st) && st'.trigger == st.trigger && st'.signals == st.signals
    requires st'.open == st.open && st'.logs == st.logs && st'.disk == st.disk
    requires AboutToReopen(st) ==> AboutToReopen(st')
    requires Renewed(st') <= Renewed(st)
    ensures Rotates(st')
  {
    if st'.trigger == 0 && !AboutToReopen(st') {
      forall j | 0 <= j < Renewed(st') ensures UpToDate(st', j) { assert UpToDate(st, j); }
    }
  }

  lemma SelectKeepsInv<P(!new)>(st: State<P>, ready: seq<Fd>)
    requires Inv(st) && Enabled(st, Select(ready))
    ensures Inv(Next(st, Select(ready)))
  {
    var st' := st.(pc := Serving(ready));
    SameLists(st, st');
    SamePending(st, st');
    SameAccounts(st, st');
    assert forall i | 0 <= i < |ready| :: ready[i] in ready;
    assert Position(st');
    StillRotates(st, st');
  }

  lemma SignalRecorded<P(!new)>(st: State<P>, st': State<P>)
    requires Lists(st) && Accounts(st) && Position(st)
    requires st' == st.(trigger := st'.trigger, signals := st'.signals) && st'.trigger > 0
    ensures Inv(st')
  {
    SameLists(st, st');
    SamePending(st, st');
    SameAccounts(st, st');
  }

  lemma SignalKeepsInv<P(!new)>(st: State<P>)
    requires Inv(st)
    ensures Inv(Next(st, Signal))
  {
    if !st.pc.Returned? { SignalRecorded(st, Next(st, Signal)); }
  }

  /** `reopen` is entered: every log is to be renewed. */
  lemma EnterKeepsInv<P(!new)>(st: State<P>, todo: seq<Fd>)
    requires Lists(st) && Accounts(st) && AboutToReopen(st)
    requires NoDuplicates(todo) && AllIn(todo, st.rfds)
    ensures Inv(st.(pc := AtLog(0, |st.logs|, todo)))
  {
    var st' := st.(pc := AtLog(0, |st.logs|, todo));
    SameLists(st, st');
    forall path ensures Pending(st', path) == Pending(st, path) == [] && !Ending(st, path) && !Ending(st', path) {}
    SameAccounts(st, st');
    assert Position(st');
  }

  lemma SameStreamsKeepAccounts<P(!new)>(st: State<P>, st': State<P>)
    requires Accounts(st) && SameStreams(st, st') && !st.pc.Got? && !st'.pc.Got?
    ensures Accounts(st')
  {
    assert Paths(st') == Paths(st);
    forall path ensures Pending(st', path) == Pending(st, path) == [] && !Ending(st, path) && !Ending(st', path) {}
    SameAccounts(st, st');
  }

  lemma CloseKeepsInv<P(!new)>(st: State<P>)
    requires Inv(st) && Enabled(st, Close)
    ensures Inv(Next(st, Close))
  {
    var st' := Next(st, Close);
    CloseOneKeeps(st);
    forall j | 0 <= j < st.pc.k ensures Opened(st', j) && (UpToDate(st, j) ==> UpToDate(st', j)) {
      assert StillOpened(st, st', j);
    }
    SameStreamsKeepAccounts(st, st');
    assert Position(st');
  }

  lemma OpenKeepsInv<P(!new)>(st: State<P>)
    requires Inv(st) && Enabled(st, Event.Open)
    ensures Inv(Next(st, Event.Open))
  {
    var st' := Next(st, Event.Open);
    OpenOneRenews(st);
    assert Accounts(st') by {
      OpenOneKeeps(st);
      SameStreamsKeepAccounts(st, st');
    }
    assert Position(st');
  }

  /** One log more has been through `reopen`. */
  lemma OpenOneRenews<P(!new)>(st: State<P>)
    requires Lists(st) && Enabled(st, Event.Open)
    ensures var st' := Next(st, Event.Open);
      && Lists(st') && Renewed(st') == st.pc.k + 1
      && forall j | 0 <= j < st.pc.k + 1 :: j == st.pc.k || UpToDate(st, j) ==> UpToDate(st', j)
  {
    var st' := Next(st, Event.Open);
    OpenOneOwns(st);
    OpenOneKeeps(st);
    assert Renewed(st') == st.pc.k + 1;
    forall j | 0 <= j < st.pc.k + 1
      ensures Opened(st', j) && (j == st.pc.k || UpToDate(st, j) ==> UpToDate(st', j))
    {
      if j < st.pc.k { assert StillOpened(st, st', j); }
    }
  }

  /** The position of a descriptor in `rfds` tells what it is. */
  lemma IndexOfFeed<P(!new)>(st: State<P>, r: Fd)
    requires Feeds(st) && r in st.rfds
    ensures var i := IndexOf(st.rfds, r);
      r in st.open && st.open[r] == (if i == 0 then TriggerRead else PipeRead(st.logs[i - 1].path))
  {
  }

  /** Reading the trigger pipe: whatever number of signals it stood for, a reopen follows. */
  lemma ReadTriggerKeepsInv<P(!new)>(st: State<P>, data: Bytes)
    requires Inv(st) && Enabled(st, Read(data)) && st.pc.todo[0] in st.open
    requires st.open[st.pc.todo[0]] == TriggerRead
    ensures Inv(Next(st, Read(data)))
  {
    var st' := Next(st, Read(data));
    assert st.pc.todo[0] in st.rfds;
    SameLists(st, st');
    forall path ensures Pending(st', path) == Pending(st, path) && Ending(st', path) == Ending(st, path) {
      NothingPending(st, path);
      TriggerIsNoStream(st', path);
    }
    SameAccounts(st, st');
    assert Position(st') && AboutToReopen(st');
  }

  lemma NothingPending<P(!new)>(st: State<P>, path: P)
    requires !st.pc.Got?
    ensures Pending(st, path) == [] && !Ending(st, path)
  {
  }

  lemma TriggerIsNoStream<P(!new)>(st: State<P>, path: P)
    requires st.pc.Got? && st.pc.fd in st.open && st.open[st.pc.fd] == TriggerRead
    ensures Pending(st, path) == [] && !Ending(st, path)
  {
  }

  lemma ReadStreamKeepsInv<P(!new)>(st: State<P>, data: Bytes, i: nat)
    requires Inv(st) && st.pc.Serving? && st.pc.todo != [] && st.pc.todo[0] in st.open
    requires i < |st.logs| && st.open[st.pc.todo[0]] == PipeRead(st.logs[i].path)
    ensures Inv(ReadStream(st.(pc := Got(st.pc.todo[0], data, st.pc.todo[1..])), st.logs[i].path, data))
  {
    var path := st.logs[i].path;
    var st' := ReadStream(st.(pc := Got(st.pc.todo[0], data, st.pc.todo[1..])), path, data);
    assert Paths(st)[i] == path;
    ReadStreamKeeps(st, st', path, data);
  }

  lemma ReadStreamKeeps<P(!new)>(st: State<P>, st': State<P>, path: P, data: Bytes)
    requires Inv(st) && st.pc.Serving? && st.pc.todo != [] && st.pc.todo[0] in st.open
    requires path in Paths(st) && st.open[st.pc.todo[0]] == PipeRead(path)
    requires st' == st.(pc := Got(st.pc.todo[0], data, st.pc.todo[1..]),
                        received := st.received[path := st.received[path] + data],
                        ended := if data == [] then st.ended + {path} else st.ended)
    ensures Inv(st')
  {
    SameLists(st, st');
    ReadStreamKeepsAccounts(st, st', path, data);
    ReadKeepsPosition(st, st', data);
    StillRotates(st, st');
  }

  lemma ReadKeepsPosition<P(!new)>(st: State<P>, st': State<P>, data: Bytes)
    requires Position(st) && st.pc.Serving? && st'.pc == Got(st.pc.todo[0], data, st.pc.todo[1..])
    requires st'.rfds == st.rfds
    ensures Position(st')
  {
    assert st.pc.todo[0] in st.rfds;
  }

  lemma ReadStreamPending<P(!new)>(st: State<P>, st': State<P>, path: P, data: Bytes)
    requires !st.pc.Got?
    requires st'.pc.Got? && st'.pc.data == data && st'.pc.fd in st'.open && st'.open[st'.pc.fd] == PipeRead(path)
    ensures forall p :: Pending(st, p) == [] && Pending(st', p) == if p == path then data else []
    ensures forall p :: !Ending(st, p) && (Ending(st', p) <==> p == path && data == [])
  {
  }

  lemma ReadStreamKeepsAccounts<P(!new)>(st: State<P>, st': State<P>, path: P, data: Bytes)
    requires Accounts(st) && !st.pc.Got? && path in Paths(st)
    requires st'.pc.Got? && st'.pc.data == data && st'.pc.fd in st'.open && st'.open[st'.pc.fd] == PipeRead(path)
    requires Paths(st') == Paths(st)
    requires st'.received == st.received[path := st.received[path] + data]
    requires st'.ended == if data == [] then st.ended + {path} else st.ended
    requires forall p :: Appended(st', p) == Appended(st, p)
    ensures Accounts(st')
  {
    ReadStreamPending(st, st', path, data);
    forall p | p in st'.received ensures st'.received[p] == Appended(st', p) + Pending(st', p) {
      assert st.received[p] == Appended(st, p) + [] == Appended(st, p);
      assert Pending(st', p) == if p == path then data else [];
      assert Appended(st, p) + [] == Appended(st, p);
    }
  }

  lemma ReadKeepsInv<P(!new)>(st: State<P>, data: Bytes)
    requires Inv(st) && Enabled(st, Read(data))
    ensures Inv(Next(st, Read(data)))
  {
    var r := st.pc.todo[0];
    assert r in st.rfds;
    var i := IndexOf(st.rfds, r);
    IndexOfFeed(st, r);
    if i == 0 {
      ReadTriggerKeepsInv(st, data);
    } else {
      ReadStreamKeepsInv(st, data, i - 1);
      ReadFromStream(st, data, st.logs[i - 1].path);
    }
  }

  lemma ReadFromStream<P(!new)>(st: State<P>, data: Bytes, path: P)
    requires Enabled(st, Read(data)) && st.pc.todo[0] in st.open && st.open[st.pc.todo[0]] == PipeRead(path)
    ensures Next(st, Read(data)) == ReadStream(st.(pc := Got(st.pc.todo[0], data, st.pc.todo[1..])), path, data)
  {
  }

  /** The data that was pending is now in the log. */
  lemma WriteKeepsAccounts<P(!new)>(st: State<P>, st': State<P>, path: P)
    requires Accounts(st) && st.pc.Got? && st.pc.fd in st.open && st.open[st.pc.fd] == PipeRead(path)
    requires st.pc.data != [] && !st'.pc.Got?
    requires st'.received == st.received && st'.ended == st.ended && Paths(st') == Paths(st)
    requires forall p :: Appended(st', p) == Appended(st, p) + if p == path then st.pc.data else []
    ensures Accounts(st')
  {
    forall p ensures Pending(st, p) == (if p == path then st.pc.data else []) && Pending(st', p) == [] {}
    forall p ensures !Ending(st, p) && !Ending(st', p) {}
    forall p | p in st'.received ensures st'.received[p] == Appended(st', p) + Pending(st', p) {
      assert Appended(st', p) + [] == Appended(st', p);
    }
  }

  lemma WriteKeepsLists<P(!new)>(st: State<P>, i: nat, d: Bytes, pc: Pc)
    requires Lists(st) && st.pc.Got? && i < |st.logs| && (pc.Waiting? || pc.Serving?)
    ensures var st' := Write(st, i, d).(pc := pc);
      && Lists(st') && Paths(st') == Paths(st) && st' == st.(disk := st'.disk, pc := pc)
      && (forall p :: Appended(st', p) == Appended(st, p) + if p == st.logs[i].path then d else [])
      && (forall j | 0 <= j < |st.logs| :: UpToDate(st, j) ==> UpToDate(st', j))
  {
    var st1 := Write(st, i, d);
    WriteKeeps(st, i, d);
    SameLists(st1, st1.(pc := pc));
    assert forall j | 0 <= j < |st.logs| :: Opened(st1, j);
  }

  lemma WriteKeepsInv<P(!new)>(st: State<P>, i: nat)
    requires Inv(st) && st.pc.Got? && i < |st.logs| && st.pc.fd in st.open
    requires st.open[st.pc.fd] == PipeRead(st.logs[i].path) && st.pc.data != []
    ensures Inv(Write(st, i, st.pc.data).(pc := Resume(st.pc.todo)))
  {
    var st' := Write(st, i, st.pc.data).(pc := Resume(st.pc.todo));
    WriteKeepsLists(st, i, st.pc.data, Resume(st.pc.todo));
    WriteKeepsAccounts(st, st', st.logs[i].path);
    assert Position(st');
    assert !AboutToReopen(st);
  }

  lemma DropKeepsLists<P(!new)>(st: State<P>, i: nat)
    requires Lists(st) && st.pc.Got? && i < |st.logs|
    ensures Lists(Drop(st, i))
    ensures (forall j | 0 <= j < |st.logs| :: UpToDate(st, j))
        ==> forall j | 0 <= j < |Drop(st, i).logs| :: UpToDate(Drop(st, i), j)
  {
    DropKeepsFeeds(st, i);
    DropKeepsOwns(st, i);
    DropKeepsOpened(st, i);
  }

  lemma DropKeepsPosition<P(!new)>(st: State<P>, i: nat)
    requires Position(st) && st.pc.Got? && i < |st.logs| && |st.rfds| == |st.logs| + 1 && st.pc.fd == st.rfds[i + 1]
    requires forall fd | fd in st.rfds && fd != st.rfds[i + 1] :: fd in Drop(st, i).rfds
    ensures var st1 := Drop(st, i);
            Position(st1.(pc := if st1.logs == [] then Returned else Resume(st.pc.todo)))
  {
  }

  lemma ResumeKeepsLists<P(!new)>(st: State<P>, pc: Pc)
    requires Lists(st) && st.pc.Got? && (pc.Returned? || pc.Waiting? || pc.Serving?)
    ensures Lists(st.(pc := pc))
    ensures st.trigger > 0 || (forall j | 0 <= j < |st.logs| :: UpToDate(st, j)) ==> Rotates(st.(pc := pc))
  {
    SameLists(st, st.(pc := pc));
  }

  lemma DropKeepsInv<P(!new)>(st: State<P>, i: nat)
    requires Inv(st) && st.pc.Got? && i < |st.logs| && i + 1 < |st.rfds| && st.pc.fd == st.rfds[i + 1]
    requires st.pc.data == []
    ensures var st1 := Drop(st, i);
            Inv(st1.(pc := if st1.logs == [] then Returned else Resume(st.pc.todo)))
  {
    var st1 := Drop(st, i);
    assert !AboutToReopen(st);
    DropKeepsLists(st, i);
    DropKeepsRfds(st, i);
    DropKeepsPosition(st, i);
    ResumeKeepsLists(st1, if st1.logs == [] then Returned else Resume(st.pc.todo));
    DropKeepsAccounts(st, i);
  }

  lemma DropKeepsAccounts<P(!new)>(st: State<P>, i: nat)
    requires Feeds(st) && Owns(st) && Accounts(st) && st.pc.Got? && i < |st.logs| && st.pc.fd == st.rfds[i + 1]
    requires st.pc.data == []
    ensures var st1 := Drop(st, i);
            Accounts(st1.(pc := if st1.logs == [] then Returned else Resume(st.pc.todo)))
  {
    var st1 := Drop(st, i);
    var st' := st1.(pc := if st1.logs == [] then Returned else Resume(st.pc.todo));
    DropKeepsPaths(st, i);
    assert Paths(st') == Paths(st1);
    assert st.open[st.rfds[i + 1]] == PipeRead(st.logs[i].path);
    assert Paths(st)[i] == st.logs[i].path && Ending(st, st.logs[i].path);
    forall p ensures Appended(st', p) == Appended(st, p) && Pending(st', p) == Pending(st, p) == []
        && !Ending(st', p) {}
  }

  lemma ActOnTriggerKeepsInv<P(!new)>(st: State<P>)
    requires Inv(st) && Enabled(st, Act) && IndexOf(st.rfds, st.pc.fd) == 0
    ensures Inv(Next(st, Act))
  {
    EnterKeepsInv(st, st.pc.todo);
  }

  lemma ActOnStreamKeepsInv<P(!new)>(st: State<P>)
    requires Inv(st) && Enabled(st, Act) && IndexOf(st.rfds, st.pc.fd) > 0
    ensures Inv(Next(st, Act))
  {
    var i := IndexOf(st.rfds, st.pc.fd);
    IndexOfFeed(st, st.pc.fd);
    if st.pc.data != [] { WriteKeepsInv(st, i - 1); } else { DropKeepsInv(st, i - 1); }
  }

  lemma ActKeepsInv<P(!new)>(st: State<P>)
    requires Inv(st) && Enabled(st, Act)
    ensures Inv(Next(st, Act))
  {
    if IndexOf(st.rfds, st.pc.fd) == 0 { ActOnTriggerKeepsInv(st); } else { ActOnStreamKeepsInv(st); }
  }

  lemma StepKeepsInv<P(!new)>(st: State<P>, event: Event)
    requires Inv(st) && Enabled(st, event)
    ensures Inv(Next(st, event))
  {
    match event
    case Enter => EnterKeepsInv(st, []);
    case Signal => SignalKeepsInv(st);
    case Select(ready) => SelectKeepsInv(st, ready);
    case Read(data) => ReadKeepsInv(st, data);
    case Act => ActKeepsInv(st);
    case Close => CloseKeepsInv(st);
    case Open => OpenKeepsInv(st);
  }

  lemma {:induction false} RunKeepsInv<P(!new)>(st: State<P>, events: seq<Event>)
    requires Inv(st) && IsRun(st, events)
    ensures Inv(After(st, events))
    decreases |events|
  {
    if events != [] {
      StepKeepsInv(st, events[0]);
      RunKeepsInv(Next(st, events[0]), events[1..]);
    }
  }

  lemma {:induction false} RunAppend<P(!new)>(st: State<P>, first: seq<Event>, rest: seq<Event>)
    requires IsRun(st, first) && IsRun(After(st, first), rest)
    ensures IsRun(st, first + rest) && After(st, first + rest) == After(After(st, first), rest)
    decreases |first|
  {
    if first == [] {
      assert first + rest == rest;
    } else {
      assert (first + rest)[0] == first[0] && (first + rest)[1..] == first[1..] + rest;
      RunAppend(Next(st, first[0]), first[1..], rest);
    }
  }

  lemma RunOne<P(!new)>(st: State<P>, event: Event)
    requires Enabled(st, event)
    ensures IsRun(st, [event]) && After(st, [event]) == Next(st, event)
  {
    assert [event][1..] == [];
  }

  // --- Runs of reopen ---

  function Signalled<P>(st: State<P>, n: nat): State<P> {
    st.(trigger := st.trigger + n, signals := st.signals + n)
  }

  function SignalEvents(n: nat): seq<Event> { if n == 0 then [] else [Event.Signal] + SignalEvents(n - 1) }

  lemma {:induction false} SignalsRun<P(!new)>(st: State<P>, n: nat)
    requires !st.pc.Returned?
    ensures IsRun(st, SignalEvents(n)) && After(st, SignalEvents(n)) == Signalled(st, n)
    decreases n
  {
    if n > 0 {
      assert SignalEvents(n)[1..] == SignalEvents(n - 1);
      SignalsRun(Next(st, Event.Signal), n - 1);
    }
  }

  /** One log: signals, its close, signals, its open. */
  function LogEvents(a: nat, b: nat): seq<Event> {
    SignalEvents(a) + [Close] + SignalEvents(b) + [Event.Open]
  }

  function Closed<P>(st: State<P>, a: nat, b: nat): State<P>
    requires Enabled(st, Close)
  {
    Signalled(Next(Signalled(st, a), Close), b)
  }

  lemma LogRuns<P(!new)>(st: State<P>, a: nat, b: nat)
    requires Enabled(st, Close)
    ensures IsRun(st, LogEvents(a, b)) && After(st, LogEvents(a, b)) == Next(Closed(st, a, b), Event.Open)
  {
    SignalsRun(st, a);
    RunOne(Signalled(st, a), Close);
    RunAppend(st, SignalEvents(a), [Close]);
    SignalsRun(Next(Signalled(st, a), Close), b);
    RunAppend(st, SignalEvents(a) + [Close], SignalEvents(b));
    RunOne(Closed(st, a, b), Event.Open);
    RunAppend(st, SignalEvents(a) + [Close] + SignalEvents(b), [Event.Open]);
  }

  /** `reopen` with this many signals before the close and the open of each log. */
  function ReopenEvents(arrivals: seq<(nat, nat)>): seq<Event> {
    if arrivals == [] then []
    else
      var (a, b) := arrivals[|arrivals| - 1];
      ReopenEvents(arrivals[..|arrivals| - 1]) + LogEvents(a, b)
  }

  /** `reopen` leads to `st` when it has got through i logs. */
  ghost predicate ReopenedTo<P(!new)>(start: State<P>, arrivals: seq<(nat, nat)>, i: nat, st: State<P>) {
    i <= |arrivals| && IsRun(start, ReopenEvents(arrivals[..i])) && After(start, ReopenEvents(arrivals[..i])) == st
  }

  lemma ReopenOneMore<P(!new)>(start: State<P>, arrivals: seq<(nat, nat)>, i: nat, st: State<P>)
    requires i < |arrivals| && ReopenedTo(start, arrivals, i, st) && Enabled(st, Close)
    ensures ReopenedTo(start, arrivals, i + 1, Next(Closed(st, arrivals[i].0, arrivals[i].1), Event.Open))
  {
    var (a, b) := arrivals[i];
    LogRuns(st, a, b);
    RunAppend(start, ReopenEvents(arrivals[..i]), LogEvents(a, b));
    assert arrivals[..i + 1][..i] == arrivals[..i];
  }

  lemma ReopenDone<P(!new)>(start: State<P>, arrivals: seq<(nat, nat)>, st: State<P>)
    requires ReopenedTo(start, arrivals, |arrivals|, st)
    ensures IsRun(start, ReopenEvents(arrivals)) && After(start, ReopenEvents(arrivals)) == st
  {
    assert arrivals[..|arrivals|] == arrivals;
  }

  // --- Descriptors are neither leaked nor closed for others ---

  function LogFds<P>(st: State<P>): (r: seq<Fd>)
    ensures |r| == |st.logs| && forall j | 0 <= j < |r| :: r[j] == st.logs[j].fd
  {
    seq(|st.logs|, j requires 0 <= j < |st.logs| => st.logs[j].fd)
  }

  /** The process has its own descriptors, the trigger pipe, and those of the lists. */
  ghost predicate Tidy<P(!new)>(st: State<P>, base: set<Fd>) {
    && (forall fd | fd in base :: fd in st.open && st.open[fd].Other?)
    && (forall fd | fd in st.open && st.open[fd].PipeRead? :: fd in st.rfds)
    && (forall fd | fd in st.open && (st.open[fd].LogFile? || st.open[fd].PipeWrite?) :: fd in LogFds(st))
  }

  lemma CloseKeepsTidy<P(!new)>(st: State<P>, base: set<Fd>)
    requires Owns(st) && Tidy(st, base) && Enabled(st, Close)
    ensures Tidy(Next(st, Close), base)
  {
    var st' := Next(st, Close);
    assert OwnsOne(st, st.pc.k);
    assert LogFds(st') == LogFds(st);
  }

  lemma OpenKeepsTidy<P(!new)>(st: State<P>, base: set<Fd>)
    requires Owns(st) && Tidy(st, base) && Enabled(st, Event.Open)
    ensures Tidy(Next(st, Event.Open), base)
  {
    var st', i := Next(st, Event.Open), st.pc.k;
    forall fd | fd in st'.open && (st'.open[fd].LogFile? || st'.open[fd].PipeWrite?) ensures fd in LogFds(st') {
      if fd in st.open {
        var j :| 0 <= j < |st.logs| && LogFds(st)[j] == fd;
        assert j != i && LogFds(st')[j] == fd;
      } else {
        assert LogFds(st')[i] == fd;
      }
    }
  }

  lemma DropKeepsTidy<P(!new)>(st: State<P>, i: nat, base: set<Fd>)
    requires Feeds(st) && Owns(st) && i < |st.logs| && Tidy(st, base)
    requires !st.pc.Reopening?
    ensures Tidy(Drop(st, i), base)
  {
    DropKeepsRfds(st, i);
    DropKeepsLogFds(st, i);
    DroppedAreStreams(st, i);
    DropIsTidy(st, Drop(st, i), st.logs[i].fd, st.rfds[i + 1], base);
  }

  lemma DroppedAreStreams<P(!new)>(st: State<P>, i: nat)
    requires Feeds(st) && Owns(st) && i < |st.logs|
    requires !st.pc.Reopening?
    ensures st.logs[i].fd in st.open && !st.open[st.logs[i].fd].Other?
    ensures st.rfds[i + 1] in st.open && st.open[st.rfds[i + 1]].PipeRead?
  {
  }

  lemma DropIsTidy<P(!new)>(st: State<P>, st': State<P>, w: Fd, r: Fd, base: set<Fd>)
    requires Tidy(st, base) && st'.open == st.open - {w, r}
    requires w in st.open && !st.open[w].Other? && r in st.open && st.open[r].PipeRead?
    requires forall fd | fd in st.rfds && fd != r :: fd in st'.rfds
    requires forall fd | fd in LogFds(st) && fd != w :: fd in LogFds(st')
    ensures Tidy(st', base)
  {
  }

  lemma DropKeepsLogFds<P(!new)>(st: State<P>, i: nat)
    requires i < |st.logs| && i + 1 < |st.rfds|
    ensures forall fd | fd in LogFds(st) && fd != st.logs[i].fd :: fd in LogFds(Drop(st, i))
  {
    var st' := Drop(st, i);
    forall fd | fd in LogFds(st) && fd != st.logs[i].fd ensures fd in LogFds(st') {
      var j :| 0 <= j < |st.logs| && LogFds(st)[j] == fd;
      assert LogFds(st')[if j < i then j else j - 1] == fd;
    }
  }

  lemma SameTidy<P(!new)>(st: State<P>, st': State<P>, base: set<Fd>)
    requires Tidy(st, base) && st'.open == st.open && st'.rfds == st.rfds && st'.logs == st.logs
    ensures Tidy(st', base)
  {
    assert LogFds(st') == LogFds(st);
  }

  lemma DropOneKeepsTidy<P(!new)>(st: State<P>, i: nat, pc: Pc, base: set<Fd>)
    requires Feeds(st) && Owns(st) && i < |st.logs| && Tidy(st, base)
    requires !st.pc.Reopening?
    ensures Tidy(Drop(st, i).(pc := pc), base)
  {
    DropKeepsTidy(st, i, base);
    SameTidy(Drop(st, i), Drop(st, i).(pc := pc), base);
  }

  lemma WriteKeepsTidy<P(!new)>(st: State<P>, i: nat, pc: Pc, base: set<Fd>)
    requires i < |st.logs| && st.pc.Got? && Tidy(st, base)
    ensures Tidy(Write(st, i, st.pc.data).(pc := pc), base)
  {
    SameTidy(st, Write(st, i, st.pc.data).(pc := pc), base);
  }

  lemma ActKeepsTidy<P(!new)>(st: State<P>, base: set<Fd>)
    requires Feeds(st) && Owns(st) && Enabled(st, Act) && Tidy(st, base)
    ensures Tidy(Next(st, Act), base)
  {
    var pc, i := Next(st, Act).pc, IndexOf(st.rfds, st.pc.fd);
    if i == 0 {
      SameTidy(st, st.(pc := pc), base);
    } else if st.pc.data != [] {
      WriteKeepsTidy(st, i - 1, pc, base);
    } else {
      DropOneKeepsTidy(st, i - 1, pc, base);
    }
  }

  lemma ReadKeepsTidy<P(!new)>(st: State<P>, data: Bytes, base: set<Fd>)
    requires Enabled(st, Read(data)) && Tidy(st, base)
    ensures Tidy(Next(st, Read(data)), base)
  {
    SameTidy(st, ReadFrom(st, data), base);
  }

  lemma StepKeepsTidy<P(!new)>(st: State<P>, event: Event, base: set<Fd>)
    requires Feeds(st) && Owns(st) && Enabled(st, event) && Tidy(st, base)
    ensures Tidy(Next(st, event), base)
  {
    match event
    case Enter => SameTidy(st, Next(st, event), base);
    case Signal => SameTidy(st, Next(st, event), base);
    case Select(ready) => SameTidy(st, Next(st, event), base);
    case Read(data) => ReadKeepsTidy(st, data, base);
    case Act => ActKeepsTidy(st, base);
    case Close => CloseKeepsTidy(st, base);
    case Open => OpenKeepsTidy(st, base);
  }

  lemma {:induction false} RunKeepsTidy<P(!new)>(st: State<P>, events: seq<Event>, base: set<Fd>)
    requires Inv(st) && IsRun(st, events) && Tidy(st, base)
    ensures Tidy(After(st, events), base)
    decreases |events|
  {
    if events != [] {
      StepKeepsInv(st, events[0]);
      StepKeepsTidy(st, events[0], base);
      RunKeepsTidy(Next(st, events[0]), events[1..], base);
    }
  }

  // --- The start ---

  ghost predicate Ready<P(!new)>(st: State<P>, base: set<Fd>) {
    && Lists(st) && Accounts(st) && Tidy(st, base)
    && st.pc == Starting && st.disk == map[] && st.ended == {} && st.signals == 0
    && (forall path | path in st.received :: path in Paths(st))
  }

  lemma BeginIsReady<P(!new)>(base: set<Fd>)
    ensures Ready(Begin<P>(base), base) && Paths(Begin<P>(base)) == []
  {
  }

  lemma SetupKeepsLists<P(!new)>(st: State<P>, path: P)
    requires Lists(st) && st.pc == Starting && path !in Paths(st)
    ensures Lists(Setup(st, path)) && Paths(Setup(st, path)) == Paths(st) + [path]
  {
    var st' := Setup(st, path);
    assert Paths(st') == Paths(st) + [path];
    forall i | 0 <= i < |st.logs| ensures st.logs[i].path != path {
      assert Paths(st)[i] in Paths(st);
    }
  }

  lemma SetupKeepsTidy<P(!new)>(st: State<P>, path: P, base: set<Fd>)
    requires Tidy(st, base)
    ensures Tidy(Setup(st, path), base)
  {
    var st' := Setup(st, path);
    assert LogFds(st') == LogFds(st) + [st'.logs[|st.logs|].fd];
  }

  lemma SetupKeepsAccounts<P(!new)>(st: State<P>, st': State<P>, path: P)
    requires Accounts(st) && !st.pc.Got? && !st'.pc.Got?
    requires st.disk == st'.disk == map[] && st.ended == st'.ended == {}
    requires st'.received == st.received[path := []] && Paths(st') == Paths(st) + [path]
    ensures Accounts(st')
  {
    forall p ensures Pending(st', p) == Pending(st, p) == [] && Appended(st', p) == Appended(st, p) == [] {}
    forall p | p in st'.received ensures st'.received[p] == [] {
      assert p == path || st.received[p] == [] + [];
    }
  }

  lemma SetupKeepsReady<P(!new)>(st: State<P>, path: P, base: set<Fd>)
    requires Ready(st, base) && path !in Paths(st)
    ensures Ready(Setup(st, path), base) && Paths(Setup(st, path)) == Paths(st) + [path]
  {
    SetupKeepsLists(st, path);
    SetupKeepsTidy(st, path, base);
    SetupKeepsAccounts(st, Setup(st, path), path);
  }

  lemma ReadyHasInv<P(!new)>(st: State<P>, base: set<Fd>)
    requires Ready(st, base)
    ensures Inv(st)
  {
  }

  lemma WithStdoutIsReady<P(!new)>(base: set<Fd>, stdout: Option<P>)
    ensures Ready(WithStdout(base, stdout), base)
    ensures Paths(WithStdout(base, stdout)) == if stdout.Some? then [stdout.value] else []
  {
    BeginIsReady<P>(base);
    if stdout.Some? { SetupKeepsReady(Begin<P>(base), stdout.value, base); }
  }

  lemma StartIsReady<P(!new)>(base: set<Fd>, stdout: Option<P>, stderr: Option<P>)
    ensures var st := Start(base, stdout, stderr);
      Ready(st, base) && Inv(st)
      && forall path :: path in Paths(st) <==> stdout == Some(path) || stderr == Some(path)
  {
    WithStdoutIsReady(base, stdout);
    if stderr.Some? && stderr != stdout { SetupKeepsReady(WithStdout(base, stdout), stderr.value, base); }
    ReadyHasInv(Start(base, stdout, stderr), base);
  }

  // --- What every run guarantees ---

  lemma InvAligns<P(!new)>(st: State<P>)
    requires Inv(st)
    ensures NoDuplicates(st.rfds) && |st.rfds| == |st.logs| + 1
    ensures forall j | 0 <= j < |st.logs| ::
              st.rfds[j + 1] in st.open && st.open[st.rfds[j + 1]] == PipeRead(st.logs[j].path)
    ensures forall path | path in st.received :: st.received[path] == Appended(st, path) + Pending(st, path)
  {
    forall i, j | 0 <= i < j < |st.rfds| ensures st.rfds[i] != st.rfds[j] {
      assert st.open[st.rfds[j]] == PipeRead(st.logs[j - 1].path);
      if i > 0 { assert st.open[st.rfds[i]] == PipeRead(st.logs[i - 1].path); }
    }
  }

  /** Whatever descriptors are ready, whatever is read and whenever signals arrive: the lists
      `rfds` and `logs` stay aligned and without duplicates, and what was appended to each log,
      over all its openings, is what was read from its stream, in order, up to the data in
      hand. */
  lemma EveryRunIsAligned<P(!new)>(base: set<Fd>, stdout: Option<P>, stderr: Option<P>, events: seq<Event>)
    requires IsRun(Start(base, stdout, stderr), events)
    ensures var st := After(Start(base, stdout, stderr), events);
      && NoDuplicates(st.rfds) && |st.rfds| == |st.logs| + 1
      && (forall j | 0 <= j < |st.logs| ::
            st.rfds[j + 1] in st.open && st.open[st.rfds[j + 1]] == PipeRead(st.logs[j].path))
      && (forall path | path in st.received :: st.received[path] == Appended(st, path) + Pending(st, path))
  {
    StartIsReady(base, stdout, stderr);
    RunKeepsInv(Start(base, stdout, stderr), events);
    InvAligns(After(Start(base, stdout, stderr), events));
  }

  lemma NothingLeft<P(!new)>(st: State<P>, base: set<Fd>)
    requires Lists(st) && Position(st) && Tidy(st, base) && st.pc == Returned
    ensures forall fd | fd in st.open :: st.open[fd] in {Other, TriggerRead, TriggerWrite}
  {
    assert st.rfds == [st.rfds[0]] && LogFds(st) == [];
  }

  /** When the loop returns, every redirected stream has been read to its end, its log holds
      exactly its bytes, and the process is back to its own descriptors and the trigger pipe. */
  lemma ReturnsWhenAllEnded<P(!new)>(base: set<Fd>, stdout: Option<P>, stderr: Option<P>, events: seq<Event>)
    requires IsRun(Start(base, stdout, stderr), events)
    requires After(Start(base, stdout, stderr), events).pc == Returned
    ensures var st := After(Start(base, stdout, stderr), events);
      && (forall path | stdout == Some(path) || stderr == Some(path) ::
            path in st.ended && path in st.received && st.received[path] == Appended(st, path))
      && (forall fd | fd in st.open :: st.open[fd] in {Other, TriggerRead, TriggerWrite})
      && (forall fd | fd in base :: fd in st.open && st.open[fd] == Other)
  {
    var st0, st := Start(base, stdout, stderr), After(Start(base, stdout, stderr), events);
    StartIsReady(base, stdout, stderr);
    RunKeepsInv(st0, events);
    RunKeepsTidy(st0, events, base);
    NothingLeft(st, base);
    forall path | stdout == Some(path) || stderr == Some(path)
      ensures path in st.ended && path in st.received && st.received[path] == Appended(st, path)
    {
      assert path in Paths(st0);
      RunKeepsReceived(st0, events, path);
      EndedIsLogged(st, path);
    }
  }

  lemma EndedIsLogged<P(!new)>(st: State<P>, path: P)
    requires Accounts(st) && Position(st) && st.pc == Returned && path in st.received
    ensures path in st.ended && st.received[path] == Appended(st, path)
  {
    assert Paths(st) == [];
    assert Appended(st, path) + [] == Appended(st, path);
  }

  lemma StepKeepsReceived<P(!new)>(st: State<P>, event: Event, path: P)
    requires Lists(st) && Enabled(st, event) && path in st.received
    ensures path in Next(st, event).received
  {
    match event
    case Read(data) => assert path in ReadFrom(st, data).received;
    case _ =>
  }

  lemma {:induction false} RunKeepsReceived<P(!new)>(st: State<P>, events: seq<Event>, path: P)
    requires Inv(st) && IsRun(st, events) && path in st.received
    ensures path in After(st, events).received
    decreases |events|
  {
    if events != [] {
      StepKeepsInv(st, events[0]);
      StepKeepsReceived(st, events[0], path);
      RunKeepsReceived(Next(st, events[0]), events[1..], path);
    }
  }

  ghost predicate OpenedLast<P(!new)>(st: State<P>, j: nat)
    requires j < |st.logs|
  {
    var segments := Segments(st, st.logs[j].path);
    segments != [] && segments[|segments| - 1].openedAt == st.signals
  }

  lemma RenewedAreLast<P(!new)>(st: State<P>)
    requires Inv(st) && st.trigger == 0 && !AboutToReopen(st)
    ensures Renewed(st) <= |st.logs| && forall j | 0 <= j < Renewed(st) :: OpenedLast(st, j)
  {
    forall j | 0 <= j < Renewed(st) ensures OpenedLast(st, j) {
      assert Opened(st, j) && UpToDate(st, j);
    }
  }

  /** At every moment of every run, for any arrival times of signals, also between the close and
      the open of a log, and any number of them per read: the trigger pipe holds a byte, so that
      the next `select` returns at once and a `reopen` follows; or the byte has just been read and
      `reopen` is next; or every log that the current or the last `reopen` has got to was opened
      after the last signal. In `select` these are all logs. */
  lemma NoRotationIsLost<P(!new)>(base: set<Fd>, stdout: Option<P>, stderr: Option<P>, events: seq<Event>)
    requires IsRun(Start(base, stdout, stderr), events)
    ensures var st := After(Start(base, stdout, stderr), events);
      && Renewed(st) <= |st.logs| && (st.pc == Waiting ==> Renewed(st) == |st.logs| && !AboutToReopen(st))
      && (st.trigger > 0 || AboutToReopen(st) || forall j | 0 <= j < Renewed(st) :: OpenedLast(st, j))
  {
    StartIsReady(base, stdout, stderr);
    RunKeepsInv(Start(base, stdout, stderr), events);
    var st := After(Start(base, stdout, stderr), events);
    if st.trigger == 0 && !AboutToReopen(st) { RenewedAreLast(st); }
  }

  // --- The child ---

  lemma LowestGrows(used: set<Fd>)
    ensures Lowest(used + {Lowest(used)}) > Lowest(used)
  {
    var a, b := Lowest(used), Lowest(used + {Lowest(used)});
    assert b < a ==> b in used;
  }

  /** The write ends of the two pipes are above the standard descriptors, whichever of those
      are closed. */
  lemma WriteEndsAreHigh<P(!new)>(base: set<Fd>, stdout: P)
    ensures PipeFds(Begin<P>(base).open).1 >= 3
    ensures PipeFds(Setup(Begin(base), stdout).open).1 >= 3
  {
    var open := map fd | fd in base :: Target<P>.Other;
    LowestGrows(base);
    var r0 := Lowest(base);
    var t0 := Lowest(base + {r0});
    assert open.Keys == base;
    var open0 := Begin<P>(base).open;
    assert open0.Keys == base + {r0} + {t0};
    LowestGrows(base + {r0});
    LowestGrows(base + {r0} + {t0});
    var r1 := Lowest(open0.Keys);
    var w1 := Lowest(open0.Keys + {r1});
    LowestGrows(open0.Keys);
    LowestGrows(open0.Keys + {r1});
    var open1 := Setup(Begin(base), stdout).open;
    assert open1.Keys == open0.Keys + {r1} + {w1};
    LowestGrows(open1.Keys);
  }

  lemma ReplayOne<P(!new)>(open: map<Fd, Target<P>>, from: Fd, to: Fd, rest: seq<(Fd, Fd)>)
    requires from in open
    ensures Replay(open, [(from, to)] + rest) == Replay(open[to := open[from]], rest)
  {
    assert ([(from, to)] + rest)[1..] == rest;
  }

  /** In the child, each redirected standard stream writes to the pipe of its log. */
  lemma ChildIsWired<P(!new)>(base: set<Fd>, stdout: Option<P>, stderr: Option<P>)
    ensures var open := Replay(Start(base, stdout, stderr).open, Dups(base, stdout, stderr));
      && (stdout.Some? ==> 1 in open && open[1] == PipeWrite(stdout.value))
      && (stderr.Some? ==> 2 in open && open[2] == PipeWrite(stderr.value))
  {
    var dups, open := Dups(base, stdout, stderr), Start(base, stdout, stderr).open;
    var w1 := PipeFds(Begin<P>(base).open).1;
    if stdout.Some? {
      WriteEndsAreHigh(base, stdout.value);
      var w2 := PipeFds(Setup(Begin(base), stdout.value).open).1;
      var open1 := open[1 := PipeWrite(stdout.value)];
      assert w1 in open && open[w1] == PipeWrite(stdout.value);
      if stderr.None? {
        assert dups == [(w1, 1)] + [];
        ReplayOne(open, w1, 1, []);
      } else if stderr == stdout {
        assert dups == [(w1, 1)] + ([(1, 2)] + []);
        ReplayOne(open, w1, 1, [(1, 2)] + []);
        ReplayOne(open1, 1, 2, []);
      } else {
        assert open[w2] == PipeWrite(stderr.value);
        assert dups == [(w1, 1)] + ([(w2, 2)] + []);
        ReplayOne(open, w1, 1, [(w2, 2)] + []);
        ReplayOne(open1, w2, 2, []);
      }
    } else if stderr.Some? {
      WriteEndsAreHigh(base, stderr.value);
      assert open[w1] == PipeWrite(stderr.value);
      assert dups == [(w1, 2)] + [];
      ReplayOne(open, w1, 2, []);
    }
  }
}
