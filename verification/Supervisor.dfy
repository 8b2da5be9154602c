/**
 The log-redirecting loop of `generic_exec`: descriptors, the lists `rfds` and `logs`, the
 trigger pipe written by the signal handler, and the log files. One event is one interaction
 with the system, also within `reopen`, so signals fall between any two of them; only the two
 closes that drop a log are one event.
 */
module Supervisor {
  import opened Common

  type Fd = nat
  type Bytes = seq<bv8>

  /** What a descriptor of the supervising process refers to. Each redirected stream is named
      by the path of its log. `segment` counts the times the path was opened before. */
  datatype Target<P> =
    | Other
    | TriggerRead
    | TriggerWrite
    | PipeRead(path: P)
    | PipeWrite(path: P)
    | LogFile(path: P, segment: nat)

  datatype Log<P> = Log(path: P, fd: Fd)

  /** What was appended to a path through one of its openings, which happened when
      `openedAt` rotation signals had been handled or were pending. */
  datatype Segment = Segment(openedAt: nat, data: Bytes)

  /** Where the program is: before the first `reopen`, in `select`, in the loop over ready
      descriptors, between `os.read` and what is done with the data, in `reopen` before log k is
      closed or between its close and its open, or returned. */
  datatype Pc =
    | Starting
    | Waiting
    | Serving(todo: seq<Fd>)
    | Got(fd: Fd, data: Bytes, todo: seq<Fd>)
    | Reopening(k: nat, closed: bool, todo: seq<Fd>)
    | Returned

  /** `trigger` is the number of bytes in the trigger pipe and `signals` the number of rotation
      signals so far; `received` and `ended` record the bytes read from each stream and the
      streams whose end was read. */
  datatype State<!P(==)> = State(
    pc: Pc,
    open: map<Fd, Target<P>>,
    rfds: seq<Fd>,
    logs: seq<Log<P>>,
    disk: map<P, seq<Segment>>,
    trigger: nat,
    signals: nat,
    received: map<P, Bytes>,
    ended: set<P>)

  // --- Descriptors ---

  function LowestFrom(used: set<Fd>, n: Fd): (fd: Fd)
    ensures fd !in used && n <= fd
    ensures forall m | n <= m < fd :: m in used
    decreases |used|
  {
    if n in used then
      var r := LowestFrom(used - {n}, n + 1);
      assert forall m | n <= m < r :: m in used by {
        forall m | n <= m < r ensures m in used {
          assert m == n || m in used - {n};
        }
      }
      r
    else n
  }

  /** POSIX allocates the lowest descriptor that is not in use. */
  function Lowest(used: set<Fd>): (fd: Fd)
    ensures fd !in used && forall m: nat | m < fd :: m in used
  {
    LowestFrom(used, 0)
  }

  // --- setup ---

  function PipeFds<P>(open: map<Fd, Target<P>>): (Fd, Fd) {
    var r := Lowest(open.Keys);
    (r, Lowest(open.Keys + {r}))
  }

  function Setup<P>(st: State<P>, path: P): State<P> {
    var (r, w) := PipeFds(st.open);
    st.(open := st.open[r := PipeRead(path)][w := PipeWrite(path)],
        logs := st.logs + [Log(path, w)],
        rfds := st.rfds + [r],
        received := st.received[path := []])
  }

  /** The descriptors and lists before `Popen`; None is a stream that is not redirected. `base` are
      the descriptors the process already has. */
  function Begin<P(==)>(base: set<Fd>): State<P> {
    var open := map fd | fd in base :: Other;
    var (r, trigger) := PipeFds(open);
    State(Starting, open[r := TriggerRead][trigger := TriggerWrite], [r], [], map[], 0, 0, map[], {})
  }

  function WithStdout<P>(base: set<Fd>, stdout: Option<P>): State<P> {
    if stdout.Some? then Setup(Begin(base), stdout.value) else Begin(base)
  }

  function Start<P>(base: set<Fd>, stdout: Option<P>, stderr: Option<P>): State<P> {
    var st := WithStdout(base, stdout);
    if stderr.Some? && stderr != stdout then Setup(st, stderr.value) else st
  }

  // --- The child's descriptors ---

  /** What `setup(fd, ...)` appends to `dup2` for the write end `w` of its pipe. */
  function DupOf(w: Fd, fd: Fd): seq<(Fd, Fd)> { if w != fd then [(w, fd)] else [] }

  /** The list `dup2`, which `preexec_fn` replays in the child. */
  function Dups<P(==)>(base: set<Fd>, stdout: Option<P>, stderr: Option<P>): seq<(Fd, Fd)> {
    var open0 := Begin<P>(base).open;
    var (_, w1) := PipeFds(open0);
    var open1 := if stdout.Some? then Setup(Begin(base), stdout.value).open else open0;
    var (_, w2) := PipeFds(open1);
    (if stdout.Some? then DupOf(w1, 1) else [])
    + (if stderr.None? then [] else if stderr == stdout then [(1, 2)] else DupOf(w2, 2))
  }

  function Replay<P>(open: map<Fd, Target<P>>, dups: seq<(Fd, Fd)>): map<Fd, Target<P>>
    decreases |dups|
  {
    if dups == [] then open
    else
      var (from, to) := dups[0];
      Replay(if from in open then open[to := open[from]] else open, dups[1..])
  }

  // --- reopen ---

  function Segments<P>(st: State<P>, path: P): seq<Segment> {
    if path in st.disk then st.disk[path] else []
  }

  /** `os.close(fd)` for the i-th log. */
  function CloseOne<P>(st: State<P>, i: nat): State<P>
    requires i < |st.logs|
  {
    st.(open := st.open - {st.logs[i].fd})
  }

  /** `os.open(path, ...)` for the i-th log. The program puts the new descriptors into `logs` when
      it has them all; nothing reads the list before. */
  function OpenOne<P>(st: State<P>, i: nat): State<P>
    requires i < |st.logs|
  {
    var path, fd := st.logs[i].path, Lowest(st.open.Keys);
    var segments := Segments(st, path);
    st.(open := st.open[fd := LogFile(path, |segments|)],
        logs := st.logs[i := Log(path, fd)],
        disk := st.disk[path := segments + [Segment(st.signals, [])]])
  }

  function Resume(todo: seq<Fd>): Pc { if todo == [] then Waiting else Serving(todo) }

  /** In `reopen`, at log k of n, or past the last one. */
  function AtLog(k: nat, n: nat, todo: seq<Fd>): Pc { if k < n then Reopening(k, false, todo) else Resume(todo) }

  // --- The loop ---

  function IndexOf(s: seq<Fd>, x: Fd): (i: nat)
    requires x in s
    ensures i < |s| && s[i] == x && x !in s[..i]
  {
    if s[0] == x then 0 else 1 + IndexOf(s[1..], x)
  }

  function Append(segments: seq<Segment>, k: nat, d: Bytes): seq<Segment>
    requires k < |segments|
  {
    segments[k := Segment(segments[k].openedAt, segments[k].data + d)]
  }

  /** `os.write(logs[i][1], d)`. */
  function Write<P>(st: State<P>, i: nat, d: Bytes): State<P>
    requires i < |st.logs|
  {
    var fd := st.logs[i].fd;
    if fd in st.open && st.open[fd].LogFile? && st.open[fd].segment < |Segments(st, st.open[fd].path)| then
      var LogFile(path, segment) := st.open[fd];
      st.(disk := st.disk[path := Append(st.disk[path], segment, d)])
    else st
  }

  /** `os.close(logs.pop(i)[1])` and `os.close(rfds.pop(i+1))`. */
  function Drop<P>(st: State<P>, i: nat): State<P>
    requires i < |st.logs| && i + 1 < |st.rfds|
  {
    st.(open := st.open - {st.logs[i].fd, st.rfds[i + 1]},
        logs := st.logs[..i] + st.logs[i + 1..],
        rfds := st.rfds[..i + 1] + st.rfds[i + 2..])
  }

  /** What one pass of the loop over ready descriptors does with the data it has read. */
  function Handle<P>(st: State<P>, r: Fd, d: Bytes, todo: seq<Fd>): State<P>
    requires r in st.rfds && |st.rfds| == |st.logs| + 1
  {
    var i := IndexOf(st.rfds, r);
    if i == 0 then st.(pc := AtLog(0, |st.logs|, todo))
    else if d != [] then Write(st, i - 1, d).(pc := Resume(todo))
    else
      var st' := Drop(st, i - 1);
      st'.(pc := if st'.logs == [] then Returned else Resume(todo))
  }

  /** `Enter`, at the start, and `Act`, on the trigger, are calls of `reopen`. */
  datatype Event = Enter | Signal | Select(ready: seq<Fd>) | Read(data: Bytes) | Act | Close | Open

  /** `select` answers distinct descriptors of `rfds`, the trigger pipe only when it holds a
      byte; a stream is not read past its end. */
  predicate Enabled<P>(st: State<P>, event: Event) {
    match event
    case Enter => st.pc == Starting
    case Signal => true
    case Select(ready) =>
      st.pc == Waiting && ready != [] && NoDuplicates(ready)
      && forall r | r in ready :: r in st.rfds && r in st.open && (st.open[r] == TriggerRead ==> st.trigger > 0)
    case Read(data) =>
      st.pc.Serving? && st.pc.todo != [] && |data| <= 1024
    case Act =>
      st.pc.Got? && st.pc.fd in st.rfds && |st.rfds| == |st.logs| + 1
    case Close => st.pc.Reopening? && !st.pc.closed && st.pc.k < |st.logs|
    case Open => st.pc.Reopening? && st.pc.closed && st.pc.k < |st.logs|
  }

  const CHUNK := 1024

  function ReadTrigger<P>(st: State<P>): State<P> {
    st.(trigger := if st.trigger <= CHUNK then 0 else st.trigger - CHUNK)
  }

  function ReadStream<P>(st: State<P>, path: P, data: Bytes): State<P> {
    st.(received := if path in st.received then st.received[path := st.received[path] + data] else st.received,
        ended := if data == [] then st.ended + {path} else st.ended)
  }

  /** `os.read(r, 1024)` for the next ready descriptor. */
  function ReadFrom<P>(st: State<P>, data: Bytes): State<P>
    requires st.pc.Serving? && st.pc.todo != []
  {
    var r := st.pc.todo[0];
    var st' := st.(pc := Got(r, data, st.pc.todo[1..]));
    if r !in st.open then st'
    else match st.open[r]
      case TriggerRead => ReadTrigger(st')
      case PipeRead(path) => ReadStream(st', path, data)
      case _ => st'
  }

  function Next<P>(st: State<P>, event: Event): State<P>
    requires Enabled(st, event)
  {
    match event
    case Enter => st.(pc := AtLog(0, |st.logs|, []))
    case Signal =>
      if st.pc.Returned? then st else st.(trigger := st.trigger + 1, signals := st.signals + 1)
    case Select(ready) => st.(pc := Serving(ready))
    case Read(data) => ReadFrom(st, data)
    case Act => Handle(st, st.pc.fd, st.pc.data, st.pc.todo)
    case Close => CloseOne(st, st.pc.k).(pc := Reopening(st.pc.k, true, st.pc.todo))
    case Open => OpenOne(st, st.pc.k).(pc := AtLog(st.pc.k + 1, |st.logs|, st.pc.todo))
  }

  ghost predicate IsRun<P>(st: State<P>, events: seq<Event>)
    decreases |events|
  {
    events == [] || (Enabled(st, events[0]) && IsRun(Next(st, events[0]), events[1..]))
  }

  ghost function After<P>(st: State<P>, events: seq<Event>): State<P>
    requires IsRun(st, events)
    decreases |events|
  {
    if events == [] then st else After(Next(st, events[0]), events[1..])
  }
}
