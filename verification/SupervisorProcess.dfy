/** The supervising process of `generic_exec`, with the lists its nested functions update. */
module SupervisorProcess {
  import opened Common
  import opened Supervisor
  import SupervisorSafety

  class Process<P(==,!new)> {
    var rfds: seq<Fd>
    var logs: seq<Log<P>>
    // The system: descriptors, files, bytes in the trigger pipe, rotation signals so far
    var open: map<Fd, Target<P>>
    var disk: map<P, seq<Segment>>
    var trigger: nat
    var signals: nat
    ghost var pc: Pc
    ghost var received: map<P, Bytes>
    ghost var ended: set<P>

    ghost function State(): State<P>
      reads this
    {
      Supervisor.State(pc, open, rfds, logs, disk, trigger, signals, received, ended)
    }

    /** From `os.pipe()` for the trigger to the calls of `setup`. */
    constructor (base: set<Fd>, stdout: Option<P>, stderr: Option<P>)
      ensures State() == Start(base, stdout, stderr)
    {
      var own := map fd | fd in base :: Other;
      var (r, t) := PipeFds<P>(own);
      open := own[r := TriggerRead][t := TriggerWrite];
      rfds, logs, disk, trigger := [r], [], map[], 0;
      pc, signals, received, ended := Starting, 0, map[], {};
      new;
      if stdout.Some? {
        SetUp(stdout.value);
      }
      if stderr.Some? && stderr != stdout {
        SetUp(stderr.value);
      }
    }

    /** `setup` */
    method SetUp(path: P)
      modifies this
      ensures State() == Setup(old(State()), path)
    {
      var (r, w) := PipeFds(open);
      open := open[r := PipeRead(path)][w := PipeWrite(path)];
      logs := logs + [Log(path, w)];
      rfds := rfds + [r];
      received := received[path := []];
    }

    /** `os.close(fd)` */
    method CloseLog(fd: Fd)
      modifies this`open
      ensures open == old(open) - {fd}
    {
      open := open - {fd};
    }

    /** `os.open(path, ...)` */
    method OpenLog(path: P) returns (fd: Fd)
      modifies this`open, this`disk
      ensures var segments := if path in old(disk) then old(disk)[path] else [];
        && fd == Lowest(old(open).Keys)
        && open == old(open)[fd := LogFile(path, |segments|)]
        && disk == old(disk)[path := segments + [Segment(signals, [])]]
    {
      fd := Lowest(open.Keys);
      var segments := if path in disk then disk[path] else [];
      open := open[fd := LogFile(path, |segments|)];
      disk := disk[path := segments + [Segment(signals, [])]];
    }

    /** `sighandler` */
    method Signal()
      requires pc != Returned
      modifies this`trigger, this`signals
      ensures State() == Next(old(State()), Event.Signal)
    {
      trigger := trigger + 1;
      signals := signals + 1;
    }

    /** The handler runs n times. */
    method Signals(n: nat)
      requires pc != Returned
      modifies this`trigger, this`signals
      ensures State() == SupervisorSafety.Signalled(old(State()), n)
    {
      for i := 0 to n
        invariant State() == SupervisorSafety.Signalled(old(State()), i)
      {
        Signal();
      }
    }

    /** One pass of the loop of `reopen`; `renewed` are the logs it has reopened. */
    method RenewLog(ghost renewed: seq<Log<P>>, i: nat, a: nat, b: nat) returns (fd: Fd)
      requires i == |renewed| < |logs| && pc.Reopening? && pc.k == i && !pc.closed
      modifies this`open, this`disk, this`trigger, this`signals, this`pc
      ensures var st := old(State()).(logs := renewed + logs[i..]);
        State().(logs := renewed + [Log(logs[i].path, fd)] + logs[i + 1..])
        == Next(SupervisorSafety.Closed(st, a, b), Event.Open)
    {
      ListStarts(renewed, logs, i);
      Signals(a);
      CloseLog(logs[i].fd);
      pc := Reopening(i, true, pc.todo);
      Signals(b);
      fd := OpenLog(logs[i].path);
      ListReplaced(renewed, logs, i, Log(logs[i].path, fd));
      pc := AtLog(i + 1, |logs|, pc.todo);
    }

    /** `reopen`: the new list replaces the old one at the end. Any number of signals arrive before
        each close and each open. */
    method ReopenLogs(ghost todo: seq<Fd>, arrivals: seq<(nat, nat)>)
      requires |arrivals| == |logs| && pc == AtLog(0, |logs|, todo)
      modifies this`open, this`disk, this`logs, this`trigger, this`signals, this`pc
      ensures var events := SupervisorSafety.ReopenEvents(arrivals);
        IsRun(old(State()), events) && State() == After(old(State()), events)
      ensures pc == Resume(todo)
    {
      ghost var start := State();
      var renewed := [];
      assert renewed + logs[0..] == logs;
      for i := 0 to |logs|
        invariant |renewed| == i && logs == start.logs && pc == AtLog(i, |logs|, todo)
        invariant SupervisorSafety.ReopenedTo(start, arrivals, i, State().(logs := renewed + logs[i..]))
      {
        ghost var st := State().(logs := renewed + logs[i..]);
        SupervisorSafety.ReopenOneMore(start, arrivals, i, st);
        var fd := RenewLog(renewed, i, arrivals[i].0, arrivals[i].1);
        renewed := renewed + [Log(logs[i].path, fd)];
      }
      assert renewed + logs[|logs|..] == renewed;
      SupervisorSafety.ReopenDone(start, arrivals, State().(logs := renewed));
      logs := renewed;
    }

    /** `os.read(r, 1024)` for the next ready descriptor; `d` is what a stream answers. */
    method ReadReady(r: Fd, d: Bytes)
      requires Enabled(State(), Read(d)) && pc.todo[0] == r && r in open
      requires open[r].PipeRead? ==> open[r].path in received
      requires open[r] == TriggerRead || open[r].PipeRead?
      modifies this`trigger, this`pc, this`received, this`ended
      ensures State() == Next(old(State()), Read(d))
    {
      if open[r].TriggerRead? {
        trigger := if trigger <= CHUNK then 0 else trigger - CHUNK;
      } else {
        received := received[open[r].path := received[open[r].path] + d];
        ended := if d == [] then ended + {open[r].path} else ended;
      }
      pc := Got(r, d, pc.todo[1..]);
    }

    /** `os.write(logs[i][1], d)` */
    method WriteLog(i: nat, d: Bytes)
      requires i < |logs| && SupervisorSafety.Opened(State(), i)
      modifies this`disk
      ensures State() == Write(old(State()), i, d)
    {
      var LogFile(path, segment) := open[logs[i].fd];
      disk := disk[path := Append(disk[path], segment, d)];
    }

    /** `os.close(logs.pop(i)[1])` and `os.close(rfds.pop(i+1))` */
    method DropLog(i: nat)
      requires i < |logs| && i + 1 < |rfds|
      modifies this`open, this`logs, this`rfds
      ensures State() == Drop(old(State()), i)
    {
      open := open - {logs[i].fd, rfds[i + 1]};
      logs := logs[..i] + logs[i + 1..];
      rfds := rfds[..i + 1] + rfds[i + 2..];
    }

    /** The call of `reopen` before the loop. */
    method Enter(arrivals: seq<(nat, nat)>)
      requires pc == Starting && |arrivals| == |logs|
      modifies this
      ensures var events := [Event.Enter] + SupervisorSafety.ReopenEvents(arrivals);
        IsRun(old(State()), events) && State() == After(old(State()), events)
      ensures pc == Waiting
    {
      ghost var start := State();
      pc := AtLog(0, |logs|, []);
      ReopenLogs([], arrivals);
      SupervisorSafety.RunOne(start, Event.Enter);
      SupervisorSafety.RunAppend(start, [Event.Enter], SupervisorSafety.ReopenEvents(arrivals));
    }

    /** The trigger was read. */
    method ServeTrigger(arrivals: seq<(nat, nat)>)
      requires Enabled(State(), Act) && IndexOf(rfds, pc.fd) == 0 && |arrivals| == |logs|
      modifies this
      ensures var events := [Act] + SupervisorSafety.ReopenEvents(arrivals);
        IsRun(old(State()), events) && State() == After(old(State()), events)
      ensures !pc.Reopening? && !pc.Returned?
    {
      ghost var start, todo := State(), pc.todo;
      pc := AtLog(0, |logs|, todo);
      ReopenLogs(todo, arrivals);
      SupervisorSafety.RunOne(start, Act);
      SupervisorSafety.RunAppend(start, [Act], SupervisorSafety.ReopenEvents(arrivals));
    }

    /** Data of log i was read. */
    method ServeData(i: nat, d: Bytes)
      requires Enabled(State(), Act) && IndexOf(rfds, pc.fd) == i + 1 && pc.data == d != []
      requires SupervisorSafety.Opened(State(), i)
      modifies this
      ensures State() == Next(old(State()), Act) && !pc.Reopening? && !pc.Returned?
    {
      WriteLog(i, d);
      pc := Resume(pc.todo);
    }

    /** The end of the stream of log i was read. */
    method ServeEnd(i: nat) returns (returned: bool)
      requires Enabled(State(), Act) && IndexOf(rfds, pc.fd) == i + 1 && pc.data == []
      modifies this
      ensures State() == Next(old(State()), Act) && !pc.Reopening?
      ensures returned == (pc == Returned) == (logs == [])
    {
      DropLog(i);
      returned := logs == [];
      pc := if returned then Returned else Resume(pc.todo);
    }

    /** The rest of the loop body, after the read; `returned` is the end of the program. If it comes
        to `reopen`, signals arrive there, too. */
    method Serve(r: Fd, d: Bytes, arrivals: seq<(nat, nat)>) returns (returned: bool, ghost events: seq<Event>)
      requires SupervisorSafety.Inv(State()) && pc.Got? && pc.fd == r && pc.data == d && |arrivals| == |logs|
      modifies this
      ensures r in old(rfds)
      ensures events == [Act] + if IndexOf(old(rfds), r) == 0 then SupervisorSafety.ReopenEvents(arrivals) else []
      ensures IsRun(old(State()), events) && State() == After(old(State()), events)
      ensures returned == (pc == Returned) && !pc.Reopening? && SupervisorSafety.Inv(State())
      ensures returned <==> IndexOf(old(rfds), r) > 0 && d == [] && logs == []
    {
      ghost var start := State();
      returned := false;
      var i := IndexOf(rfds, r);
      if i == 0 {
        ServeTrigger(arrivals);
        events := [Act] + SupervisorSafety.ReopenEvents(arrivals);
      } else {
        SupervisorSafety.RunOne(start, Act);
        if d != [] {
          assert SupervisorSafety.Opened(start, i - 1);
          ServeData(i - 1, d);
        } else {
          returned := ServeEnd(i - 1);
        }
        events := [Act] + [];
      }
      SupervisorSafety.RunKeepsInv(start, events);
    }
  }

  lemma ListStarts<T>(renewed: seq<T>, all: seq<T>, i: nat)
    requires i == |renewed| < |all|
    ensures (renewed + all[i..])[i] == all[i] && |renewed + all[i..]| == |all|
  {
  }

  lemma ListReplaced<T>(renewed: seq<T>, all: seq<T>, i: nat, x: T)
    requires i == |renewed| < |all|
    ensures (renewed + all[i..])[i := x] == renewed + [x] + all[i + 1..]
  {
  }
}
