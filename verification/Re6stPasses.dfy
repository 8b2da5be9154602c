/** What one pass over a request or a reference does in the re6st token protocol, and that passes get
    their work done. */
module Re6stPasses {
  import opened Common
  import opened Re6stSafety
  import opened Re6stWorld

  // --- One pass ---

  /** `install`, file by file: token.json lists exactly the references it was given, known ones with
      the token they had; each new one gets a `.add` file, each one that is not listed any more a
      `.remove` file in its place, and a file that is there already is not written again. */
  lemma InstallPassExactly<R(!new), T(!new), E>(w: World<R, T, E>, refs: seq<R>, added: map<R, T>, r: R)
    requires forall x :: x in added <==> x in refs && x !in w.tokenJson
    ensures var w' := InstallResult(w, refs, added);
      var new_, gone := r in refs && r !in w.tokenJson, r in w.tokenJson && r !in refs;
      && (r in w'.tokenJson <==> r in refs)
      && (r in refs ==> w'.tokenJson[r] == if r in w.tokenJson then w.tokenJson[r] else added[r])
      && (r in w'.adds <==> (new_ || r in w.adds) && !(gone && r !in w.removes))
      && (r in w'.adds ==> w'.adds[r] == if r in w.adds then w.adds[r] else added[r])
      && (r in w'.removes <==> gone || r in w.removes)
      && (r in w'.removes ==> w'.removes[r] == if r in w.removes then w.removes[r] else w.tokenJson[r])
      && w'.statuses == w.statuses && w'.tokens == w.tokens && w'.certs == w.certs
  {
  }

  /** A request to add: the registry has the token when the call took effect; the request is done
      exactly when the call returned nothing or the token, and then the status is written. */
  lemma AddPassExactly<R(!new), T(!new), E>(n: Setting<R, T, E>, w: World<R, T, E>, ref: R, call: AddCall<T>)
    requires ref in w.adds && w.adds[ref] != n.noToken
    ensures var w', token := AddResult(n, w, ref, call), w.adds[ref];
      var done := match call case AddRaised(_) => false case AddReturned(answer, _) => answer in {None, Some(token)};
      && w'.tokens == (if call.effect then w.tokens[token := Grant(n.emailOf(ref), ref)] else w.tokens)
      && w'.adds == (if done then w.adds - {ref} else w.adds)
      && w'.statuses == (if done then w.statuses[n.statusOf(ref) := Added] else w.statuses)
  {
  }

  /** All calls of a request to remove that are made have returned, and `isToken` was false. */
  predicate RemoveSucceeds<R, T, E>(w: World<R, T, E>, token: T, calls: RemoveCalls) {
    && !calls.deleteRaises && !calls.isTokenRaises && (calls.deleteEffect || token !in w.tokens)
    && !calls.prefixRaises && (calls.prefix.Some? ==> !calls.revokeRaises)
  }

  /** A request to remove: the token goes when `deleteToken` took effect, the certificate found when
      `revoke` is reached and took effect, and both files exactly when no call that is made raises
      and `isToken` is false. */
  lemma RemovePassExactly<R(!new), T(!new), E>(n: Setting<R, T, E>, w: World<R, T, E>, ref: R, calls: RemoveCalls)
    requires ref in w.removes && w.removes[ref] != n.noToken
    ensures var w', token := RemoveResult(n, w, ref, calls), w.removes[ref];
      var tried := !calls.deleteRaises && !calls.isTokenRaises && token !in w'.tokens && !calls.prefixRaises;
      && w'.tokens == (if calls.deleteEffect then w.tokens - {token} else w.tokens)
      && w'.certs == (if tried && calls.prefix.Some? && calls.revokeEffect then w.certs - {calls.prefix.value}
                      else w.certs)
      && w'.removes == (if RemoveSucceeds(w, token, calls) then w.removes - {ref} else w.removes)
      && w'.statuses == (if RemoveSucceeds(w, token, calls) then w.statuses - {ref} else w.statuses)
  {
  }

  /** A check of a reference with a status: unless `isToken` raises, the status becomes Used if the
      registry does not accept the token, and the master is told the status and the token unless
      that raises. */
  lemma CheckPassExactly<R(!new), T(!new), E>(n: Setting<R, T, E>, w: World<R, T, E>, ref: R, token: T,
                                             calls: CheckCalls)
    requires n.statusOf(ref) in w.statuses
    ensures var w', file := CheckResult(n, w, ref, token, calls), n.statusOf(ref);
      if calls.isTokenRaises then w' == w
      else
        var status := if token in w.tokens then w.statuses[file] else Used;
        && w'.statuses == w.statuses[file := status]
        && w'.sent == (if calls.sendRaises then w.sent else w.sent[ref := Info(token, status)])
  {
  }

  // --- Passes get done ---

  /** Requests to add these references, all answered. */
  function AddsAnswered<R, T(==)>(refs: seq<R>): seq<Event<R, T>> {
    seq(|refs|, i requires 0 <= i < |refs| => AddRequest(refs[i], AddReturned(None, true)))
  }

  /** When the registry answers, one pass of the manager over request files to add leaves none of
      them. */
  lemma {:induction false} AddsAreServed<R(!new), T(!new), E>(n: Setting<R, T, E>, w: World<R, T, E>, refs: seq<R>)
    requires forall r | r in w.adds :: w.adds[r] != n.noToken
    ensures IsRun(n, w, AddsAnswered(refs))
    ensures After(n, w, AddsAnswered(refs)).adds == w.adds - (set r | r in refs)
    decreases |refs|
  {
    if refs == [] {
      assert AddsAnswered<R, T>(refs) == [];
    } else {
      var event := Event<R, T>.AddRequest(refs[0], AddReturned(None, true));
      var w1 := Next(n, w, event);
      assert AddsAnswered<R, T>(refs)[1..] == AddsAnswered<R, T>(refs[1..]);
      assert w1.adds == w.adds - {refs[0]} by {
        if refs[0] in w.adds { AddPassExactly(n, w, refs[0], AddReturned(None, true)); }
      }
      AddsAreServed(n, w1, refs[1..]);
      assert (set r | r in refs) == {refs[0]} + set r | r in refs[1..];
    }
  }

  /** Requests to remove of which all calls are answered and take effect. */
  ghost predicate AreAnswered<R(!new), T>(events: seq<Event<R, T>>, refs: seq<R>) {
    |events| == |refs| && forall i | 0 <= i < |refs| ::
      && events[i].RemoveRequest? && events[i].ref == refs[i]
      && var calls := events[i].removeCalls;
         !calls.deleteRaises && calls.deleteEffect && !calls.isTokenRaises && !calls.prefixRaises && !calls.revokeRaises
  }

  /** When the registry answers, one pass over request files to remove leaves none of them. */
  lemma {:induction false} RemovalsAreServed<R(!new), T(!new), E>(n: Setting<R, T, E>, w: World<R, T, E>,
                                                                  events: seq<Event<R, T>>, refs: seq<R>)
    requires forall r | r in w.removes :: w.removes[r] != n.noToken
    requires IsRun(n, w, events) && AreAnswered(events, refs)
    ensures After(n, w, events).removes == w.removes - (set r | r in refs)
    decreases |refs|
  {
    if refs != [] {
      var w1 := Next(n, w, events[0]);
      var calls := events[0].removeCalls;
      assert w1.removes == w.removes - {refs[0]} by {
        if refs[0] in w.removes { RemovePassExactly(n, w, refs[0], calls); }
      }
      assert AreAnswered(events[1..], refs[1..]) by {
        assert forall i | 0 <= i < |refs[1..]| :: events[1..][i] == events[i + 1] && refs[1..][i] == refs[i + 1];
      }
      RemovalsAreServed(n, w1, events[1..], refs[1..]);
      assert (set r | r in refs) == {refs[0]} + set r | r in refs[1..];
    } else {
      assert w.removes - {} == w.removes;
    }
  }

  /** The registry can always answer so: whatever the state, the calls may return. */
  lemma RemovalCanSucceed<R(!new), T(!new), E>(n: Setting<R, T, E>, w: World<R, T, E>, ref: R)
    returns (calls: RemoveCalls)
    ensures TruthfulCalls(n, w, ref, calls)
    ensures !calls.deleteRaises && calls.deleteEffect
      && !calls.isTokenRaises && !calls.prefixRaises && !calls.revokeRaises
  {
    var prefix := None;
    if cn :| cn in w.certs && w.certs[cn].email == MailOf(n, ref) { prefix := Some(cn); }
    calls := RemoveCalls(false, true, false, false, prefix, false, true);
  }

  // --- Exceptions that leave the manager ---

  /** `isToken` is reached and raises: nothing catches it. */
  ghost predicate Crashes<R(!new), T(!new), E>(n: Setting<R, T, E>, w: World<R, T, E>, event: Event<R, T>) {
    match event
    case RemoveRequest(ref, calls) =>
      ref in w.removes && w.removes[ref] != n.noToken && !calls.deleteRaises && calls.isTokenRaises
    case Check(ref, calls) => n.statusOf(ref) in w.statuses && calls.isTokenRaises
    case _ => false
  }

  /** No event of the run crashes the manager, except perhaps the last one, as `crashed` says. */
  ghost predicate EndsAtCrash<R(!new), T(!new), E>(n: Setting<R, T, E>, w: World<R, T, E>, events: seq<Event<R, T>>,
                                                   crashed: bool)
    requires IsRun(n, w, events)
    decreases |events|
  {
    if events == [] then !crashed
    else
      var last := |events| == 1;
      && (Crashes(n, w, events[0]) <==> crashed && last)
      && (last || EndsAtCrash(n, Next(n, w, events[0]), events[1..], crashed))
  }

  lemma {:induction false} AddsNeverCrash<R(!new), T(!new), E>(n: Setting<R, T, E>, w: World<R, T, E>,
                                                               events: seq<Event<R, T>>)
    requires IsRun(n, w, events) && forall i | 0 <= i < |events| :: events[i].AddRequest?
    ensures EndsAtCrash(n, w, events, false)
    decreases |events|
  {
    if events != [] { AddsNeverCrash(n, Next(n, w, events[0]), events[1..]); }
  }

  /** One event more after a run without crash. */
  lemma {:induction false} CrashOneMore<R(!new), T(!new), E>(n: Setting<R, T, E>, w: World<R, T, E>,
                                                             events: seq<Event<R, T>>, event: Event<R, T>)
    requires IsRun(n, w, events) && EndsAtCrash(n, w, events, false) && Enabled(n, After(n, w, events), event)
    ensures IsRun(n, w, events + [event])
    ensures EndsAtCrash(n, w, events + [event], Crashes(n, After(n, w, events), event))
    decreases |events|
  {
    RunOneMore(n, w, events, event);
    if events == [] {
      assert events + [event] == [event];
    } else {
      assert (events + [event])[0] == events[0] && (events + [event])[1..] == events[1..] + [event];
      assert |events| > 1 ==> EndsAtCrash(n, Next(n, w, events[0]), events[1..], false);
      CrashOneMore(n, Next(n, w, events[0]), events[1..], event);
    }
  }

  lemma {:induction false} CrashAppend<R(!new), T(!new), E>(n: Setting<R, T, E>, w: World<R, T, E>,
                                                            first: seq<Event<R, T>>, rest: seq<Event<R, T>>,
                                                            crashed: bool)
    requires IsRun(n, w, first) && EndsAtCrash(n, w, first, false)
    requires IsRun(n, After(n, w, first), rest) && EndsAtCrash(n, After(n, w, first), rest, crashed)
    ensures IsRun(n, w, first + rest) && EndsAtCrash(n, w, first + rest, crashed)
    decreases |first|
  {
    RunAppend(n, w, first, rest);
    if first == [] {
      assert first + rest == rest;
    } else {
      assert (first + rest)[0] == first[0] && (first + rest)[1..] == first[1..] + rest;
      CrashAppend(n, Next(n, w, first[0]), first[1..], rest, crashed);
      if rest == [] { assert first + rest == first; }
    }
  }
}
