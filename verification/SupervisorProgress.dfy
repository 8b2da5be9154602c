/** What the log-redirecting loop gets done: when it ends, what it reads, and that it reopens. */
module SupervisorProgress {
  import opened Common
  import opened Supervisor
  import opened SupervisorSafety

  // --- It ends with the last log ---

  /** The program has returned exactly when no log is left. */
  predicate EndsWithLogs<P>(st: State<P>) { st.pc == Returned <==> st.logs == [] }

  lemma ActKeepsEnding<P(!new)>(st: State<P>)
    requires Enabled(st, Act) && EndsWithLogs(st)
    ensures EndsWithLogs(Next(st, Act))
  {
    var i := IndexOf(st.rfds, st.pc.fd);
    if i > 0 && st.pc.data != [] { assert Write(st, i - 1, st.pc.data).logs == st.logs; }
  }

  lemma StepKeepsEnding<P(!new)>(st: State<P>, event: Event)
    requires Enabled(st, event) && EndsWithLogs(st)
    ensures EndsWithLogs(Next(st, event))
  {
    match event
    case Read(data) => assert ReadFrom(st, data).logs == st.logs;
    case Act => ActKeepsEnding(st);
    case _ =>
  }

  lemma {:induction false} RunKeepsEnding<P(!new)>(st: State<P>, events: seq<Event>)
    requires IsRun(st, events) && EndsWithLogs(st)
    ensures EndsWithLogs(After(st, events))
    decreases |events|
  {
    if events != [] {
      StepKeepsEnding(st, events[0]);
      RunKeepsEnding(Next(st, events[0]), events[1..]);
    }
  }

  lemma StepKeepsStreams<P(!new)>(st: State<P>, event: Event)
    requires Enabled(st, event)
    ensures Next(st, event).received.Keys == st.received.Keys
  {
    match event
    case Read(data) => assert ReadFrom(st, data).received.Keys == st.received.Keys;
    case Act =>
      var i := IndexOf(st.rfds, st.pc.fd);
      if i > 0 && st.pc.data != [] { assert Write(st, i - 1, st.pc.data).received == st.received; }
    case _ =>
  }

  lemma {:induction false} RunKeepsStreams<P(!new)>(st: State<P>, events: seq<Event>)
    requires IsRun(st, events)
    ensures After(st, events).received.Keys == st.received.Keys
    decreases |events|
  {
    if events != [] {
      StepKeepsStreams(st, events[0]);
      RunKeepsStreams(Next(st, events[0]), events[1..]);
    }
  }

  lemma StartHasLogs<P(!new)>(base: set<Fd>, stdout: Option<P>, stderr: Option<P>)
    requires stdout.Some? || stderr.Some?
    ensures EndsWithLogs(Start(base, stdout, stderr)) && Start(base, stdout, stderr).pc != Returned
    ensures forall path ::
      path in Start(base, stdout, stderr).received <==> stdout == Some(path) || stderr == Some(path)
  {
    var st := Start(base, stdout, stderr);
    StartIsReady(base, stdout, stderr);
    var path := if stdout.Some? then stdout.value else stderr.value;
    assert path in Paths(st);
    forall p ensures p in st.received <==> p in Paths(st) {}
  }

  /** All streams have ended, and the end of the last one has been dealt with. */
  ghost predicate AllServed<P(!new)>(st: State<P>, stdout: Option<P>, stderr: Option<P>) {
    !st.pc.Got? && forall path | stdout == Some(path) || stderr == Some(path) :: path in st.ended
  }

  lemma LoggedIsServing<P(!new)>(st: State<P>)
    requires Inv(st) && st.logs != [] && !st.pc.Got?
    ensures exists path :: path in st.received && path !in st.ended
  {
    var path := Paths(st)[0];
    assert path in Paths(st) && !Ending(st, path);
    assert path in st.received && path !in st.ended;
  }

  lemma ServedHasNoLogs<P(!new)>(st: State<P>, stdout: Option<P>, stderr: Option<P>)
    requires Inv(st) && AllServed(st, stdout, stderr)
    requires forall path :: path in st.received <==> stdout == Some(path) || stderr == Some(path)
    ensures st.logs == []
  {
    if st.logs != [] {
      LoggedIsServing(st);
      assert false;
    }
  }

  /** In every run with a redirected stream: the program has returned exactly when no log is left,
      and exactly when all redirected streams have ended and the last end has been dealt with. */
  lemma ReturnsExactly<P(!new)>(base: set<Fd>, stdout: Option<P>, stderr: Option<P>, events: seq<Event>)
    requires IsRun(Start(base, stdout, stderr), events) && (stdout.Some? || stderr.Some?)
    ensures var st := After(Start(base, stdout, stderr), events);
      && (st.pc == Returned <==> st.logs == [])
      && (st.pc == Returned <==> AllServed(st, stdout, stderr))
  {
    var st0, st := Start(base, stdout, stderr), After(Start(base, stdout, stderr), events);
    StartHasLogs(base, stdout, stderr);
    RunKeepsEnding(st0, events);
    if st.pc == Returned { ReturnsWhenAllEnded(base, stdout, stderr, events); }
    if AllServed(st, stdout, stderr) {
      StartIsReady(base, stdout, stderr);
      RunKeepsInv(st0, events);
      RunKeepsStreams(st0, events);
      ServedHasNoLogs(st, stdout, stderr);
    }
  }

  // --- It reads every descriptor that is ready ---

  /** The ready descriptors that are still to be read. */
  function Todo(pc: Pc): seq<Fd> {
    match pc
    case Serving(todo) => todo
    case Got(_, _, todo) => todo
    case Reopening(_, _, todo) => todo
    case _ => []
  }

  /** The descriptors that these events read, when nothing else becomes ready. */
  function Reads(events: seq<Event>): nat {
    if events == [] then 0 else (if events[0].Read? then 1 else 0) + Reads(events[1..])
  }

  lemma StepKeepsTodo<P(!new)>(st: State<P>, event: Event)
    requires Enabled(st, event) && !event.Select?
    ensures event.Read? ==> Todo(st.pc) != [] && Next(st, event).pc == Got(Todo(st.pc)[0], event.data, Todo(st.pc)[1..])
    ensures event == Enter ==> Todo(Next(st, event).pc) == Todo(st.pc) == []
    ensures !event.Read? ==> Next(st, event).pc == Returned || Todo(Next(st, event).pc) == Todo(st.pc)
  {
    match event
    case Read(data) => assert ReadFrom(st, data).pc == Got(st.pc.todo[0], data, st.pc.todo[1..]);
    case _ =>
  }

  /** Between two answers of `select` they are read one after the other, none is left out, and none
      is read twice; unless the program returns. */
  lemma {:induction false} RunServes<P(!new)>(st: State<P>, events: seq<Event>)
    requires IsRun(st, events) && st.pc != Returned && forall i | 0 <= i < |events| :: !events[i].Select?
    ensures var pc := After(st, events).pc;
      pc == Returned || (Reads(events) <= |Todo(st.pc)| && Todo(pc) == Todo(st.pc)[Reads(events)..])
    decreases |events|
  {
    if events != [] {
      var st1 := Next(st, events[0]);
      StepKeepsTodo(st, events[0]);
      assert forall i | 0 <= i < |events[1..]| :: events[1..][i] == events[i + 1];
      if st1.pc == Returned {
        StaysReturned(st1, events[1..]);
      } else {
        RunServes(st1, events[1..]);
      }
    }
  }

  lemma {:induction false} StaysReturned<P(!new)>(st: State<P>, events: seq<Event>)
    requires IsRun(st, events) && st.pc == Returned
    ensures After(st, events).pc == Returned
    decreases |events|
  {
    if events != [] { StaysReturned(Next(st, events[0]), events[1..]); }
  }

  /** When the program is back in `select`, each descriptor that was ready has been read. */
  lemma {:induction false} SelectServesAll<P(!new)>(st: State<P>, ready: seq<Fd>, events: seq<Event>)
    requires Enabled(st, Select(ready)) && IsRun(Next(st, Select(ready)), events)
    requires forall i | 0 <= i < |events| :: !events[i].Select?
    requires After(Next(st, Select(ready)), events).pc == Waiting
    ensures Reads(events) == |ready|
  {
    var st1 := Next(st, Select(ready));
    assert st1.pc == Serving(ready);
    RunServes(st1, events);
  }

  // --- It reopens ---

  /** A read of the trigger takes 1024 bytes, or all. */
  lemma TriggerBytes<P(!new)>(st: State<P>, data: Bytes)
    requires Enabled(st, Read(data)) && st.pc.todo[0] in st.open && st.open[st.pc.todo[0]] == TriggerRead
    ensures st.trigger <= 1024 ==> Next(st, Read(data)).trigger == 0
    ensures st.trigger > 1024 ==> Next(st, Read(data)).trigger + 1024 == st.trigger
  {
  }

  /** One turn for the trigger alone, with no signal arriving. */
  function TurnEvents<P>(st: State<P>, data: Bytes): seq<Event>
    requires st.rfds != []
  {
    [Select([st.rfds[0]])] + ([Read(data)] + ([Act] + ReopenEvents(Quiet(|st.logs|))))
  }

  function Quiet(n: nat): seq<(nat, nat)> { seq(n, _ => (0, 0)) }

  /** The state in which `reopen` without signals has got through i of n logs. */
  ghost predicate QuietlyAt<P(!new)>(start: State<P>, n: nat, i: nat, todo: seq<Fd>, st: State<P>) {
    ReopenedTo(start, Quiet(n), i, st) && st.pc == AtLog(i, n, todo) && |st.logs| == n && st.trigger == start.trigger
  }

  lemma QuietlyNext<P(!new)>(start: State<P>, n: nat, i: nat, todo: seq<Fd>, st: State<P>)
    requires i < n && QuietlyAt(start, n, i, todo, st)
    ensures QuietlyAt(start, n, i + 1, todo, Next(Closed(st, 0, 0), Event.Open))
  {
    ReopenOneMore(start, Quiet(n), i, st);
  }

  lemma {:induction false} QuietReopenRuns<P(!new)>(start: State<P>, n: nat, i: nat, todo: seq<Fd>)
    requires start.pc == AtLog(0, n, todo) && |start.logs| == n && i <= n
    ensures exists st :: QuietlyAt(start, n, i, todo, st)
    decreases i
  {
    if i == 0 {
      assert QuietlyAt(start, n, 0, todo, start);
    } else {
      QuietReopenRuns(start, n, i - 1, todo);
      var st :| QuietlyAt(start, n, i - 1, todo, st);
      QuietlyNext(start, n, i - 1, todo, st);
    }
  }

  lemma RunThen<P(!new)>(st: State<P>, event: Event, rest: seq<Event>)
    requires Enabled(st, event) && IsRun(Next(st, event), rest)
    ensures IsRun(st, [event] + rest) && After(st, [event] + rest) == After(Next(st, event), rest)
  {
    assert ([event] + rest)[0] == event && ([event] + rest)[1..] == rest;
  }

  /** The three events up to `reopen`. */
  lemma TurnReachesReopen<P(!new)>(st: State<P>, data: Bytes, rest: seq<Event>, st3: State<P>)
    requires Feeds(st) && st.pc == Waiting && st.trigger > 0 && |data| <= 1024
    requires st3 == st.(trigger := st3.trigger, pc := AtLog(0, |st.logs|, [])) && IsRun(st3, rest)
    requires st3.trigger == if st.trigger <= 1024 then 0 else st.trigger - 1024
    ensures var events := [Select([st.rfds[0]])] + ([Read(data)] + ([Act] + rest));
      IsRun(st, events) && After(st, events) == After(st3, rest)
  {
    var r := st.rfds[0];
    assert [r][0] == r && [r][1..] == [];
    var st1 := Next(st, Select([r]));
    var st2 := Next(st1, Read(data));
    assert IndexOf(st2.rfds, r) == 0;
    assert Next(st2, Act) == st3;
    RunThen(st2, Act, rest);
    RunThen(st1, Read(data), [Act] + rest);
    RunThen(st, Select([r]), [Read(data)] + ([Act] + rest));
  }

  /** A rotation that the program learns of in `select` is served in one turn: with at most 1024
      bytes in the trigger pipe and no further signal, every log is then open on an opening later
      than every signal, and the program is in `select` again. */
  lemma RotationIsServed<P(!new)>(st: State<P>, data: Bytes)
    requires Inv(st) && st.pc == Waiting && 0 < st.trigger <= 1024 && |data| <= 1024
    ensures IsRun(st, TurnEvents(st, data))
    ensures var st' := After(st, TurnEvents(st, data));
      && st'.pc == Waiting && st'.trigger == 0 && |st'.logs| == |st.logs|
      && forall j | 0 <= j < |st'.logs| :: OpenedLast(st', j)
  {
    var n := |st.logs|;
    var st3 := st.(trigger := 0, pc := AtLog(0, n, []));
    QuietReopenRuns(st3, n, n, []);
    var st' :| QuietlyAt(st3, n, n, [], st');
    ReopenDone(st3, Quiet(n), st');
    TurnReachesReopen(st, data, ReopenEvents(Quiet(n)), st3);
    RunKeepsInv(st, TurnEvents(st, data));
    RenewedAreLast(st');
  }
}
