/** Invariants of every run of the re6st token protocol. */
module Re6stSafety {
  import opened Re6stWorld

  /** A reference whose token the files still answer for. */
  predicate Held<R, T, E>(w: World<R, T, E>, r: R) { r in w.tokenJson || r in w.removes }

  // --- Files and grants: invariants of every run ---

  /** References and their last tokens determine each other. */
  ghost predicate Known<R(!new), T, E>(n: Setting<R, T, E>, w: World<R, T, E>) {
    && (forall r | r in w.history :: w.history[r] != n.noToken && w.history[r] in w.drawn)
    && (forall r, s | r in w.history && s in w.history && w.history[r] == w.history[s] :: r == s)
  }

  ghost predicate FilesAgree<R(!new), T, E>(w: World<R, T, E>) {
    && (forall r | r in w.tokenJson :: r in w.history && w.tokenJson[r] == w.history[r])
    && (forall r | r in w.adds :: r in w.tokenJson && w.adds[r] == w.tokenJson[r])
    && (forall r | r in w.removes ::
          r !in w.tokenJson && r in w.history && w.removes[r] == w.history[r])
  }

  /** The grant has the e-mail of its reference. */
  ghost predicate Names<R(!new), T, E>(n: Setting<R, T, E>, w: World<R, T, E>, g: Grant<R, E>) {
    g.ref in w.history && g.email == MailOf(n, g.ref)
  }

  ghost predicate GrantsName<R(!new), T(!new), E>(n: Setting<R, T, E>, w: World<R, T, E>) {
    (forall t | t in w.tokens :: Names(n, w, w.tokens[t])) && (forall cn | cn in w.certs :: Names(n, w, w.certs[cn]))
  }

  ghost predicate BaseInv<R(!new), T(!new), E>(n: Setting<R, T, E>, w: World<R, T, E>) {
    Known(n, w) && FilesAgree(w) && GrantsName(n, w)
  }

  lemma HistoryGrows<R(!new), T(!new), E>(n: Setting<R, T, E>, w: World<R, T, E>, added: map<R, T>, r: R, s: R)
    requires Known(n, w) && FreshTokens(n, w, added)
    requires r in w.history + added && s in w.history + added && r != s
    ensures (w.history + added)[r] != (w.history + added)[s]
  {
    assert r !in added ==> w.history[r] in w.drawn;
    assert s !in added ==> w.history[s] in w.drawn;
  }

  lemma KnownGrows<R(!new), T(!new), E>(n: Setting<R, T, E>, w: World<R, T, E>, w': World<R, T, E>, added: map<R, T>)
    requires Known(n, w) && FreshTokens(n, w, added)
    requires w'.history == w.history + added && w'.drawn == w.drawn + added.Values
    ensures Known(n, w')
  {
    forall r | r in w'.history ensures w'.history[r] != n.noToken && w'.history[r] in w'.drawn {
      if r in added { assert added[r] in added.Values; }
    }
    forall r, s | r in w'.history && s in w'.history && r != s ensures w'.history[r] != w'.history[s] {
      HistoryGrows(n, w, added, r, s);
    }
  }

  lemma InstallKeepsFiles<R(!new), T(!new), E>(w: World<R, T, E>, refs: seq<R>, added: map<R, T>)
    requires FilesAgree(w) && added.Keys == NewRefs(w, refs) && added.Keys !! w.removes.Keys
    ensures FilesAgree(InstallResult(w, refs, added))
  {
  }

  lemma RegisterKeepsGrants<R(!new), T(!new), E>(n: Setting<R, T, E>, w: World<R, T, E>, ref: R)
    requires FilesAgree(w) && GrantsName(n, w) && ref in w.adds
    ensures FilesAgree(AfterRegister(n, w, ref, w.adds[ref])) && GrantsName(n, AfterRegister(n, w, ref, w.adds[ref]))
  {
  }

  lemma ConfirmKeepsGrants<R(!new), T(!new), E>(n: Setting<R, T, E>, w: World<R, T, E>, ref: R)
    requires FilesAgree(w) && GrantsName(n, w)
    ensures FilesAgree(AfterConfirm(n, w, ref)) && GrantsName(n, AfterConfirm(n, w, ref))
  {
  }

  lemma AddKeepsGrants<R(!new), T(!new), E>(n: Setting<R, T, E>, w: World<R, T, E>, ref: R, call: AddCall<T>)
    requires FilesAgree(w) && GrantsName(n, w)
    ensures FilesAgree(AddResult(n, w, ref, call)) && GrantsName(n, AddResult(n, w, ref, call))
  {
    if ref in w.adds {
      RegisterKeepsGrants(n, w, ref);
      ConfirmKeepsGrants(n, w, ref);
      ConfirmKeepsGrants(n, AfterRegister(n, w, ref, w.adds[ref]), ref);
    }
  }

  lemma DeleteKeepsGrants<R(!new), T(!new), E>(n: Setting<R, T, E>, w: World<R, T, E>, token: T, calls: RemoveCalls)
    requires FilesAgree(w) && GrantsName(n, w)
    ensures FilesAgree(AfterDelete(w, token, calls)) && GrantsName(n, AfterDelete(w, token, calls))
  {
  }

  lemma RevokeKeepsGrants<R(!new), T(!new), E>(n: Setting<R, T, E>, w: World<R, T, E>, calls: RemoveCalls)
    requires FilesAgree(w) && GrantsName(n, w)
    ensures FilesAgree(AfterRevoke(w, calls)) && GrantsName(n, AfterRevoke(w, calls))
  {
  }

  lemma UnlinkKeepsGrants<R(!new), T(!new), E>(n: Setting<R, T, E>, w: World<R, T, E>, ref: R)
    requires FilesAgree(w) && GrantsName(n, w)
    ensures FilesAgree(AfterUnlink(w, ref)) && GrantsName(n, AfterUnlink(w, ref))
  {
  }

  lemma RemoveKeepsGrants<R(!new), T(!new), E>(n: Setting<R, T, E>, w: World<R, T, E>, ref: R, calls: RemoveCalls)
    requires FilesAgree(w) && GrantsName(n, w)
    ensures FilesAgree(RemoveResult(n, w, ref, calls)) && GrantsName(n, RemoveResult(n, w, ref, calls))
  {
    if ref in w.removes {
      var w1 := AfterDelete(w, w.removes[ref], calls);
      DeleteKeepsGrants(n, w, w.removes[ref], calls);
      RevokeKeepsGrants(n, w1, calls);
      UnlinkKeepsGrants(n, AfterRevoke(w1, calls), ref);
    }
  }

  lemma ClientKeepsGrants<R(!new), T(!new), E>(n: Setting<R, T, E>, w: World<R, T, E>, ref: R, cn: Cn)
    requires GrantsName(n, w) && ClientUses(w, ref, cn)
    ensures GrantsName(n, ClientResult(w, ref, cn))
  {
  }

  /** `install` keeps the files in agreement exactly when no new reference still waits for its
      removal. */
  lemma InstallKeepsBaseExactly<R(!new), T(!new), E>(n: Setting<R, T, E>, w: World<R, T, E>, refs: seq<R>,
                                                     added: map<R, T>)
    requires BaseInv(n, w) && added.Keys == NewRefs(w, refs) && FreshTokens(n, w, added)
    ensures BaseInv(n, InstallResult(w, refs, added)) <==> added.Keys !! w.removes.Keys
  {
    var w' := InstallResult(w, refs, added);
    KnownGrows(n, w, w', added);
    assert GrantsName(n, w');
    if added.Keys !! w.removes.Keys {
      InstallKeepsFiles(w, refs, added);
    } else {
      var r :| r in added && r in w.removes;
      assert r in w'.tokenJson && r in w'.removes;
    }
  }

  lemma StepKeepsBase<R(!new), T(!new), E>(n: Setting<R, T, E>, w: World<R, T, E>, event: Event<R, T>)
    requires BaseInv(n, w) && Enabled(n, w, event)
    ensures BaseInv(n, Next(n, w, event))
  {
    match event
    case Install(refs, added) => InstallKeepsBaseExactly(n, w, refs, added);
    case AddRequest(ref, call) => AddKeepsGrants(n, w, ref, call);
    case RemoveRequest(ref, calls) => RemoveKeepsGrants(n, w, ref, calls);
    case Check(ref, calls) =>
    case ClientUse(ref, cn) => ClientKeepsGrants(n, w, ref, cn);
  }

  lemma {:induction false} RunAppend<R(!new), T(!new), E>(n: Setting<R, T, E>, w: World<R, T, E>,
                                                          first: seq<Event<R, T>>, rest: seq<Event<R, T>>)
    requires IsRun(n, w, first) && IsRun(n, After(n, w, first), rest)
    ensures IsRun(n, w, first + rest)
    ensures After(n, w, first + rest) == After(n, After(n, w, first), rest)
    decreases |first|
  {
    if first == [] {
      assert first + rest == rest;
    } else {
      assert (first + rest)[0] == first[0] && (first + rest)[1..] == first[1..] + rest;
      RunAppend(n, Next(n, w, first[0]), first[1..], rest);
    }
  }

  lemma {:induction false} RunSplit<R(!new), T(!new), E>(n: Setting<R, T, E>, w: World<R, T, E>,
                                                         first: seq<Event<R, T>>, rest: seq<Event<R, T>>)
    requires IsRun(n, w, first + rest)
    ensures IsRun(n, w, first) && IsRun(n, After(n, w, first), rest)
    decreases |first|
  {
    if first == [] {
      assert first + rest == rest;
    } else {
      assert (first + rest)[0] == first[0] && (first + rest)[1..] == first[1..] + rest;
      RunSplit(n, Next(n, w, first[0]), first[1..], rest);
    }
  }

  lemma RunOne<R(!new), T(!new), E>(n: Setting<R, T, E>, w: World<R, T, E>, event: Event<R, T>)
    requires Enabled(n, w, event)
    ensures IsRun(n, w, [event]) && After(n, w, [event]) == Next(n, w, event)
  {
    assert [event][1..] == [];
  }

  lemma RunOneMore<R(!new), T(!new), E>(n: Setting<R, T, E>, w: World<R, T, E>, events: seq<Event<R, T>>,
                                        event: Event<R, T>)
    requires IsRun(n, w, events) && Enabled(n, After(n, w, events), event)
    ensures IsRun(n, w, events + [event]) && After(n, w, events + [event]) == Next(n, After(n, w, events), event)
  {
    RunOne(n, After(n, w, events), event);
    RunAppend(n, w, events, [event]);
  }

  lemma {:induction false} RunKeepsBase<R(!new), T(!new), E>(n: Setting<R, T, E>, w: World<R, T, E>,
      events: seq<Event<R, T>>)
    requires BaseInv(n, w) && IsRun(n, w, events)
    ensures BaseInv(n, After(n, w, events))
    decreases |events|
  {
    if events != [] {
      StepKeepsBase(n, w, events[0]);
      RunKeepsBase(n, Next(n, w, events[0]), events[1..]);
    }
  }

  lemma {:induction false} RunGrowsHistory<R(!new), T(!new), E>(n: Setting<R, T, E>, w: World<R, T, E>,
      events: seq<Event<R, T>>)
    requires IsRun(n, w, events)
    ensures w.history.Keys <= After(n, w, events).history.Keys
    decreases |events|
  {
    if events != [] { RunGrowsHistory(n, Next(n, w, events[0]), events[1..]); }
  }

  /** Every reference that the run ever installs is one of these. */
  lemma {:induction false} RunStaysWithin<R(!new), T(!new), E>(n: Setting<R, T, E>, w: World<R, T, E>,
      events: seq<Event<R, T>>, refs: set<R>)
    requires IsRun(n, w, events) && Within(events, refs) && w.history.Keys <= refs
    ensures After(n, w, events).history.Keys <= refs
    decreases |events|
  {
    if events != [] {
      assert Within(events[1..], refs) by {
        assert forall i | 0 <= i < |events[1..]| :: events[1..][i] == events[i + 1];
      }
      assert events[0].Install? ==> events[0].added.Keys <= refs;
      RunStaysWithin(n, Next(n, w, events[0]), events[1..], refs);
    }
  }

  // --- Tokens: an invariant of every run ---

  /** A token is accepted only for a reference that the files still answer for. */
  ghost predicate TokensAgree<R(!new), T(!new), E>(w: World<R, T, E>) {
    forall t | t in w.tokens ::
      var r := w.tokens[t].ref; r in w.history && Held(w, r) && w.history[r] == t
  }

  /** What `install` leaves of a reference that the files answer for. */
  lemma InstallKeepsHeld<R(!new), T(!new), E>(w: World<R, T, E>, refs: seq<R>, added: map<R, T>, r: R)
    requires FilesAgree(w) && added.Keys == NewRefs(w, refs) && added.Keys !! w.removes.Keys
    requires Held(w, r)
    ensures var w' := InstallResult(w, refs, added);
      && r in w.history && r in w'.history && w'.history[r] == w.history[r]
      && Held(w', r) && (r in w'.adds ==> r in w.adds)
  {
    assert r !in added;
  }

  lemma InstallKeepsTokens<R(!new), T(!new), E>(w: World<R, T, E>, refs: seq<R>, added: map<R, T>)
    requires FilesAgree(w) && TokensAgree(w)
    requires added.Keys == NewRefs(w, refs) && added.Keys !! w.removes.Keys
    ensures TokensAgree(InstallResult(w, refs, added))
  {
    forall t | t in w.tokens
      ensures var r, w' := w.tokens[t].ref, InstallResult(w, refs, added);
              r in w'.history && Held(w', r) && w'.history[r] == t
    {
      InstallKeepsHeld(w, refs, added, w.tokens[t].ref);
    }
  }

  lemma RegisterKeepsTokens<R(!new), T(!new), E>(n: Setting<R, T, E>, w: World<R, T, E>, ref: R)
    requires FilesAgree(w) && TokensAgree(w) && ref in w.adds
    ensures TokensAgree(AfterRegister(n, w, ref, w.adds[ref]))
  {
  }

  lemma AddKeepsTokens<R(!new), T(!new), E>(n: Setting<R, T, E>, w: World<R, T, E>, ref: R, call: AddCall<T>)
    requires FilesAgree(w) && TokensAgree(w)
    ensures TokensAgree(AddResult(n, w, ref, call))
  {
    if ref in w.adds { RegisterKeepsTokens(n, w, ref); }
  }

  lemma UnlinkKeepsTokens<R(!new), T(!new), E>(w: World<R, T, E>, ref: R)
    requires FilesAgree(w) && TokensAgree(w) && ref in w.removes && w.removes[ref] !in w.tokens
    ensures TokensAgree(AfterUnlink(w, ref))
  {
  }

  /** The request file goes only when its token is gone. */
  lemma RemoveKeepsTokens<R(!new), T(!new), E>(n: Setting<R, T, E>, w: World<R, T, E>, ref: R, calls: RemoveCalls)
    requires FilesAgree(w) && TokensAgree(w)
    ensures TokensAgree(RemoveResult(n, w, ref, calls))
  {
    if ref in w.removes {
      var w2 := AfterRevoke(AfterDelete(w, w.removes[ref], calls), calls);
      if w.removes[ref] !in w2.tokens { UnlinkKeepsTokens(w2, ref); }
    }
  }

  lemma StepKeepsTokens<R(!new), T(!new), E>(n: Setting<R, T, E>, w: World<R, T, E>, event: Event<R, T>)
    requires FilesAgree(w) && TokensAgree(w) && Enabled(n, w, event)
    ensures TokensAgree(Next(n, w, event))
  {
    match event
    case Install(refs, added) => InstallKeepsTokens(w, refs, added);
    case AddRequest(ref, call) => AddKeepsTokens(n, w, ref, call);
    case RemoveRequest(ref, calls) => RemoveKeepsTokens(n, w, ref, calls);
    case Check(ref, calls) =>
    case ClientUse(ref, cn) =>
  }

  lemma {:induction false} RunKeepsTokens<R(!new), T(!new), E>(n: Setting<R, T, E>, w: World<R, T, E>,
      events: seq<Event<R, T>>)
    requires BaseInv(n, w) && TokensAgree(w) && IsRun(n, w, events)
    ensures BaseInv(n, After(n, w, events)) && TokensAgree(After(n, w, events))
    decreases |events|
  {
    if events != [] {
      StepKeepsBase(n, w, events[0]);
      StepKeepsTokens(n, w, events[0]);
      RunKeepsTokens(n, Next(n, w, events[0]), events[1..]);
    }
  }

  /** A token that was drawn and that the files no longer answer for. */
  ghost predicate Retired<R(!new), T, E>(w: World<R, T, E>, t: T) {
    t in w.drawn && forall r | r in w.history && w.history[r] == t :: !Held(w, r)
  }

  lemma StepKeepsRetired<R(!new), T(!new), E>(n: Setting<R, T, E>, w: World<R, T, E>, event: Event<R, T>, t: T)
    requires FilesAgree(w) && Enabled(n, w, event) && Retired(w, t)
    ensures Retired(Next(n, w, event), t)
  {
    var w' := Next(n, w, event);
    forall r | r in w'.history && w'.history[r] == t ensures !Held(w', r) {
      if event.Install? {
        assert r !in event.added;
        assert r !in GoneRefs(w, event.refs);
      }
    }
  }

  /** The last token of a reference that the files answer for stays so or is retired. */
  lemma StepKeepsOrRetires<R(!new), T(!new), E>(n: Setting<R, T, E>, w: World<R, T, E>, event: Event<R, T>, r: R)
    requires BaseInv(n, w) && Enabled(n, w, event) && r in w.history && Held(w, r)
    ensures var w', t := Next(n, w, event), w.history[r];
            (r in w'.history && Held(w', r) && w'.history[r] == t) || Retired(w', t)
  {
    if event.Install? { InstallKeepsHeld(w, event.refs, event.added, r); }
  }

  lemma {:induction false} RunKeepsRetired<R(!new), T(!new), E>(n: Setting<R, T, E>, w: World<R, T, E>,
      events: seq<Event<R, T>>, t: T)
    requires BaseInv(n, w) && IsRun(n, w, events) && Retired(w, t)
    ensures Retired(After(n, w, events), t)
    decreases |events|
  {
    if events != [] {
      StepKeepsBase(n, w, events[0]);
      StepKeepsRetired(n, w, events[0], t);
      RunKeepsRetired(n, Next(n, w, events[0]), events[1..], t);
    }
  }

  lemma {:induction false} RunKeepsOrRetires<R(!new), T(!new), E>(n: Setting<R, T, E>, w: World<R, T, E>,
      events: seq<Event<R, T>>, r: R)
    requires BaseInv(n, w) && IsRun(n, w, events) && r in w.history && Held(w, r)
    ensures var w', t := After(n, w, events), w.history[r];
            (r in w'.history && Held(w', r) && w'.history[r] == t) || Retired(w', t)
    decreases |events|
  {
    if events != [] {
      var w1 := Next(n, w, events[0]);
      StepKeepsBase(n, w, events[0]);
      StepKeepsOrRetires(n, w, events[0], r);
      if Retired(w1, w.history[r]) {
        RunKeepsRetired(n, w1, events[1..], w.history[r]);
      } else {
        RunKeepsOrRetires(n, w1, events[1..], r);
      }
    }
  }

  // --- Statuses: an invariant while no reference meets a status file that is not its own ---

  function StatusFiles<R(!new), T, E>(n: Setting<R, T, E>, refs: set<R>): set<R> { set r | r in refs :: FileOf(n, r) }

  /** A reference with a status is added, and its token is not accepted once the status is Used. */
  ghost predicate StatusesTrue<R(!new), T, E>(n: Setting<R, T, E>, w: World<R, T, E>) {
    && w.statuses.Keys <= StatusFiles(n, w.history.Keys)
    && forall r | r in w.history && FileOf(n, r) in w.statuses ::
         r !in w.adds && (w.statuses[FileOf(n, r)] == Used ==> w.history[r] !in w.tokens)
  }

  /** A token that was sent is that of its reference, if it is still the last token of any. */
  ghost predicate SentAgree<R(!new), T, E>(w: World<R, T, E>) {
    && (forall r | r in w.sent :: w.sent[r].token in w.drawn)
    && (forall r, s | r in w.sent && s in w.history && w.history[s] == w.sent[r].token :: r == s && r !in w.adds)
  }

  ghost predicate StatusesAgree<R(!new), T, E>(n: Setting<R, T, E>, w: World<R, T, E>) {
    StatusesTrue(n, w) && SentAgree(w)
  }

  /** Where references may come back, the status file of a removed one is gone. */
  ghost predicate StatusesHeld<R(!new), T, E>(n: Setting<R, T, E>, w: World<R, T, E>) {
    n.reuse ==> forall f | f in w.statuses :: Held(w, f)
  }

  ghost predicate StatusInv<R(!new), T(!new), E>(n: Setting<R, T, E>, w: World<R, T, E>) {
    BaseInv(n, w) && CleanStatuses(n, w.history.Keys) && StatusesAgree(n, w) && StatusesHeld(n, w)
  }

  lemma CleanIsDistinct<R(!new), T, E>(n: Setting<R, T, E>, refs: set<R>)
    requires CleanStatuses(n, refs)
    ensures DistinctStatuses(n, refs)
  {
  }

  /** A new reference meets no status file. */
  lemma NewHasNoStatus<R(!new), T(!new), E>(n: Setting<R, T, E>, w: World<R, T, E>, refs: set<R>, r: R)
    requires StatusesAgree(n, w) && StatusesHeld(n, w) && CleanStatuses(n, refs) && w.history.Keys <= refs
    requires r in refs && !Held(w, r) && (r in w.history ==> n.reuse)
    ensures FileOf(n, r) !in w.statuses
  {
    if !n.reuse { assert FileOf(n, r) !in StatusFiles(n, w.history.Keys); }
  }

  lemma InstallKeepsTrue<R(!new), T(!new), E>(n: Setting<R, T, E>, w: World<R, T, E>, refs: seq<R>, added: map<R, T>)
    requires StatusInv(n, w) && Enabled(n, w, Install(refs, added))
    requires CleanStatuses(n, InstallResult(w, refs, added).history.Keys)
    ensures StatusesTrue(n, InstallResult(w, refs, added))
  {
    var w' := InstallResult(w, refs, added);
    forall r | r in w'.history && FileOf(n, r) in w'.statuses
      ensures r in w.history && w'.history[r] == w.history[r] && r !in w'.adds
    {
      if r in added { NewHasNoStatus(n, w, w'.history.Keys, r); }
    }
  }

  lemma InstallKeepsSent<R(!new), T(!new), E>(n: Setting<R, T, E>, w: World<R, T, E>, refs: seq<R>, added: map<R, T>)
    requires SentAgree(w) && FreshTokens(n, w, added)
    ensures SentAgree(InstallResult(w, refs, added))
  {
    var w' := InstallResult(w, refs, added);
    forall r, s | r in w'.sent && s in w'.history && w'.history[s] == w'.sent[r].token ensures r == s && r !in w'.adds {
      assert s !in added;
    }
  }

  lemma InstallKeepsStatusesHeld<R(!new), T(!new), E>(n: Setting<R, T, E>, w: World<R, T, E>, refs: seq<R>,
                                                      added: map<R, T>)
    requires FilesAgree(w) && StatusesHeld(n, w) && Enabled(n, w, Install(refs, added))
    ensures StatusesHeld(n, InstallResult(w, refs, added))
  {
    if n.reuse {
      forall f | f in w.statuses ensures Held(InstallResult(w, refs, added), f) { InstallKeepsHeld(w, refs, added, f); }
    }
  }

  lemma InstallKeepsStatuses<R(!new), T(!new), E>(n: Setting<R, T, E>, w: World<R, T, E>, refs: seq<R>,
                                                  added: map<R, T>)
    requires StatusInv(n, w) && Enabled(n, w, Install(refs, added))
    requires CleanStatuses(n, InstallResult(w, refs, added).history.Keys)
    ensures StatusesAgree(n, InstallResult(w, refs, added)) && StatusesHeld(n, InstallResult(w, refs, added))
  {
    InstallKeepsTrue(n, w, refs, added);
    InstallKeepsSent(n, w, refs, added);
    InstallKeepsStatusesHeld(n, w, refs, added);
  }

  lemma RegisterKeepsStatuses<R(!new), T(!new), E>(n: Setting<R, T, E>, w: World<R, T, E>, ref: R)
    requires Known(n, w) && FilesAgree(w) && ref in w.adds && StatusesAgree(n, w) && StatusesHeld(n, w)
    ensures var w' := AfterRegister(n, w, ref, w.adds[ref]); StatusesAgree(n, w') && StatusesHeld(n, w')
  {
    assert w.adds[ref] == w.history[ref];
  }

  lemma ConfirmKeepsStatuses<R(!new), T(!new), E>(n: Setting<R, T, E>, w: World<R, T, E>, ref: R)
    requires FilesAgree(w) && ref in w.adds && StatusesAgree(n, w) && StatusesHeld(n, w)
    requires CleanStatuses(n, w.history.Keys)
    ensures StatusesAgree(n, AfterConfirm(n, w, ref)) && StatusesHeld(n, AfterConfirm(n, w, ref))
  {
    CleanIsDistinct(n, w.history.Keys);
    assert ref in w.history && Held(w, ref);
  }

  lemma RegisterAndConfirmKeepStatuses<R(!new), T(!new), E>(n: Setting<R, T, E>, w: World<R, T, E>, ref: R)
    requires StatusInv(n, w) && ref in w.adds
    ensures var w1 := AfterRegister(n, w, ref, w.adds[ref]); StatusesAgree(n, w1) && StatusesHeld(n, w1)
    ensures var w2 := AfterConfirm(n, AfterRegister(n, w, ref, w.adds[ref]), ref);
            StatusesAgree(n, w2) && StatusesHeld(n, w2)
  {
    RegisterKeepsStatuses(n, w, ref);
    RegisterKeepsGrants(n, w, ref);
    ConfirmKeepsStatuses(n, AfterRegister(n, w, ref, w.adds[ref]), ref);
  }

  lemma AddKeepsStatuses<R(!new), T(!new), E>(n: Setting<R, T, E>, w: World<R, T, E>, ref: R, call: AddCall<T>)
    requires StatusInv(n, w)
    ensures StatusesAgree(n, AddResult(n, w, ref, call)) && StatusesHeld(n, AddResult(n, w, ref, call))
  {
    if ref in w.adds {
      RegisterAndConfirmKeepStatuses(n, w, ref);
      ConfirmKeepsStatuses(n, w, ref);
    }
  }

  lemma DeleteKeepsStatuses<R(!new), T(!new), E>(n: Setting<R, T, E>, w: World<R, T, E>, token: T, calls: RemoveCalls)
    requires StatusesAgree(n, w) && StatusesHeld(n, w)
    ensures StatusesAgree(n, AfterDelete(w, token, calls)) && StatusesHeld(n, AfterDelete(w, token, calls))
  {
  }

  lemma RevokeKeepsStatuses<R(!new), T(!new), E>(n: Setting<R, T, E>, w: World<R, T, E>, calls: RemoveCalls)
    requires StatusesAgree(n, w) && StatusesHeld(n, w)
    ensures StatusesAgree(n, AfterRevoke(w, calls)) && StatusesHeld(n, AfterRevoke(w, calls))
  {
  }

  lemma UnlinkKeepsStatuses<R(!new), T(!new), E>(n: Setting<R, T, E>, w: World<R, T, E>, ref: R)
    requires StatusesAgree(n, w) && StatusesHeld(n, w)
    ensures StatusesAgree(n, AfterUnlink(w, ref)) && StatusesHeld(n, AfterUnlink(w, ref))
  {
  }

  lemma RemoveKeepsStatuses<R(!new), T(!new), E>(n: Setting<R, T, E>, w: World<R, T, E>, ref: R, calls: RemoveCalls)
    requires StatusesAgree(n, w) && StatusesHeld(n, w)
    ensures StatusesAgree(n, RemoveResult(n, w, ref, calls)) && StatusesHeld(n, RemoveResult(n, w, ref, calls))
  {
    if ref in w.removes {
      var w1 := AfterDelete(w, w.removes[ref], calls);
      DeleteKeepsStatuses(n, w, w.removes[ref], calls);
      RevokeKeepsStatuses(n, w1, calls);
      UnlinkKeepsStatuses(n, AfterRevoke(w1, calls), ref);
    }
  }

  lemma StatusKeepsStatuses<R(!new), T(!new), E>(n: Setting<R, T, E>, w: World<R, T, E>, ref: R, status: Status)
    requires StatusesAgree(n, w) && StatusesHeld(n, w) && CleanStatuses(n, w.history.Keys)
    requires ref in w.history && FileOf(n, ref) in w.statuses && (status == Used ==> w.history[ref] !in w.tokens)
    ensures StatusesAgree(n, AfterStatus(w, FileOf(n, ref), status))
            && StatusesHeld(n, AfterStatus(w, FileOf(n, ref), status))
  {
    CleanIsDistinct(n, w.history.Keys);
  }

  lemma SendKeepsStatuses<R(!new), T(!new), E>(n: Setting<R, T, E>, w: World<R, T, E>, ref: R, status: Status)
    requires Known(n, w) && StatusesAgree(n, w) && StatusesHeld(n, w) && ref in w.history
             && FileOf(n, ref) in w.statuses
    ensures var w' := AfterSend(w, ref, w.history[ref], status); StatusesAgree(n, w') && StatusesHeld(n, w')
  {
  }

  lemma StatusAndSendKeepStatuses<R(!new), T(!new), E>(n: Setting<R, T, E>, w: World<R, T, E>, ref: R, status: Status)
    requires StatusInv(n, w) && ref in w.history && FileOf(n, ref) in w.statuses
    requires status == Used ==> w.history[ref] !in w.tokens
    ensures var w1 := AfterStatus(w, FileOf(n, ref), status);
            StatusesAgree(n, w1) && StatusesHeld(n, w1)
    ensures var w2 := AfterSend(AfterStatus(w, FileOf(n, ref), status), ref, w.history[ref], status);
            StatusesAgree(n, w2) && StatusesHeld(n, w2)
  {
    StatusKeepsStatuses(n, w, ref, status);
    SendKeepsStatuses(n, AfterStatus(w, FileOf(n, ref), status), ref, status);
  }

  lemma CheckKeepsStatuses<R(!new), T(!new), E>(n: Setting<R, T, E>, w: World<R, T, E>, ref: R, calls: CheckCalls)
    requires StatusInv(n, w) && ref in w.history
    ensures var w' := CheckResult(n, w, ref, w.history[ref], calls); StatusesAgree(n, w') && StatusesHeld(n, w')
  {
    if FileOf(n, ref) in w.statuses && !calls.isTokenRaises {
      var status := if w.history[ref] !in w.tokens then Used else w.statuses[FileOf(n, ref)];
      StatusAndSendKeepStatuses(n, w, ref, status);
    }
  }

  lemma ClientUseKeepsStatuses<R(!new), T(!new), E>(n: Setting<R, T, E>, w: World<R, T, E>, ref: R, cn: Cn)
    requires StatusesAgree(n, w) && StatusesHeld(n, w) && ClientUses(w, ref, cn)
    ensures StatusesAgree(n, ClientResult(w, ref, cn)) && StatusesHeld(n, ClientResult(w, ref, cn))
  {
  }

  lemma StepKeepsStatuses<R(!new), T(!new), E>(n: Setting<R, T, E>, w: World<R, T, E>, event: Event<R, T>)
    requires StatusInv(n, w) && Enabled(n, w, event) && CleanStatuses(n, Next(n, w, event).history.Keys)
    ensures StatusInv(n, Next(n, w, event))
  {
    assert BaseInv(n, Next(n, w, event)) by { StepKeepsBase(n, w, event); }
    assert StatusesAgree(n, Next(n, w, event)) && StatusesHeld(n, Next(n, w, event)) by {
      match event
      case Install(refs, added) => InstallKeepsStatuses(n, w, refs, added);
      case AddRequest(ref, call) => AddKeepsStatuses(n, w, ref, call);
      case RemoveRequest(ref, calls) => RemoveKeepsStatuses(n, w, ref, calls);
      case Check(ref, calls) => CheckKeepsStatuses(n, w, ref, calls);
      case ClientUse(ref, cn) => ClientUseKeepsStatuses(n, w, ref, cn);
    }
  }

  lemma FewerAreClean<R(!new), T, E>(n: Setting<R, T, E>, few: set<R>, refs: set<R>)
    requires few <= refs && CleanStatuses(n, refs)
    ensures CleanStatuses(n, few)
  {
  }

  lemma {:induction false} RunKeepsStatuses<R(!new), T(!new), E>(n: Setting<R, T, E>, w: World<R, T, E>,
      events: seq<Event<R, T>>)
    requires StatusInv(n, w) && IsRun(n, w, events) && CleanStatuses(n, After(n, w, events).history.Keys)
    ensures StatusInv(n, After(n, w, events))
    decreases |events|
  {
    if events != [] {
      var w1 := Next(n, w, events[0]);
      RunGrowsHistory(n, w1, events[1..]);
      FewerAreClean(n, w1.history.Keys, After(n, w, events).history.Keys);
      StepKeepsStatuses(n, w, events[0]);
      RunKeepsStatuses(n, w1, events[1..]);
    }
  }

  /** A token that a client can use is that of the reference it was sent for, which has been
      added. */
  lemma SentIsOwn<R(!new), T(!new), E>(n: Setting<R, T, E>, w: World<R, T, E>, ref: R, cn: Cn)
    requires TokensAgree(w) && StatusesAgree(n, w) && ClientUses(w, ref, cn)
    ensures var token := w.sent[ref].token;
      w.tokens[token].ref == ref && ref in w.history && w.history[ref] == token && Held(w, ref) && ref !in w.adds
  {
  }

  // --- Coverage: an invariant while no status file is named after another reference ---

  /** Every live reference has a request to add or a status: none is forgotten. */
  ghost predicate Covered<R(!new), T, E>(n: Setting<R, T, E>, w: World<R, T, E>) {
    forall r | r in w.tokenJson :: r in w.adds || FileOf(n, r) in w.statuses
  }

  lemma InstallKeepsCovered<R(!new), T, E>(n: Setting<R, T, E>, w: World<R, T, E>, refs: seq<R>, added: map<R, T>)
    requires Covered(n, w) && added.Keys == NewRefs(w, refs)
    ensures Covered(n, InstallResult(w, refs, added))
  {
    var w' := InstallResult(w, refs, added);
    forall r | r in w'.tokenJson ensures r in w'.adds || FileOf(n, r) in w'.statuses {
      assert r in added || r in w.tokenJson;
    }
  }

  lemma ConfirmKeepsCovered<R(!new), T, E>(n: Setting<R, T, E>, w: World<R, T, E>, ref: R)
    requires Covered(n, w)
    ensures Covered(n, AfterConfirm(n, w, ref))
  {
  }

  lemma AddKeepsCovered<R(!new), T, E>(n: Setting<R, T, E>, w: World<R, T, E>, ref: R, call: AddCall<T>)
    requires Covered(n, w)
    ensures Covered(n, AddResult(n, w, ref, call))
  {
    if ref in w.adds {
      ConfirmKeepsCovered(n, w, ref);
      ConfirmKeepsCovered(n, AfterRegister(n, w, ref, w.adds[ref]), ref);
    }
  }

  lemma RemoveKeepsCovered<R(!new), T, E>(n: Setting<R, T, E>, w: World<R, T, E>, ref: R, calls: RemoveCalls)
    requires FilesAgree(w) && OwnStatuses(n, w.history.Keys) && Covered(n, w)
    ensures Covered(n, RemoveResult(n, w, ref, calls))
  {
    var w' := RemoveResult(n, w, ref, calls);
    forall r | r in w'.tokenJson ensures r in w'.adds || FileOf(n, r) in w'.statuses {
      assert ref in w.removes ==> FileOf(n, r) != ref;
    }
  }

  lemma CheckKeepsCovered<R(!new), T(!new), E>(n: Setting<R, T, E>, w: World<R, T, E>, ref: R, token: T,
                                               calls: CheckCalls)
    requires Covered(n, w)
    ensures Covered(n, CheckResult(n, w, ref, token, calls))
  {
  }

  lemma ClientUseKeepsCovered<R(!new), T(!new), E>(n: Setting<R, T, E>, w: World<R, T, E>, ref: R, cn: Cn)
    requires Covered(n, w) && ClientUses(w, ref, cn)
    ensures Covered(n, ClientResult(w, ref, cn))
  {
  }

  lemma StepKeepsCovered<R(!new), T(!new), E>(n: Setting<R, T, E>, w: World<R, T, E>, event: Event<R, T>)
    requires FilesAgree(w) && OwnStatuses(n, w.history.Keys) && Covered(n, w) && Enabled(n, w, event)
    ensures Covered(n, Next(n, w, event))
  {
    match event
    case Install(refs, added) => InstallKeepsCovered(n, w, refs, added);
    case AddRequest(ref, call) => AddKeepsCovered(n, w, ref, call);
    case RemoveRequest(ref, calls) => RemoveKeepsCovered(n, w, ref, calls);
    case Check(ref, calls) => CheckKeepsCovered(n, w, ref, w.history[ref], calls);
    case ClientUse(ref, cn) => ClientUseKeepsCovered(n, w, ref, cn);
  }

  /** In every run each live reference has a request to add or a status file, if no status file
      is named after another of its references. */
  lemma {:induction false} RunKeepsCovered<R(!new), T(!new), E>(n: Setting<R, T, E>, w: World<R, T, E>,
      events: seq<Event<R, T>>)
    requires BaseInv(n, w) && Covered(n, w) && IsRun(n, w, events) && OwnStatuses(n, After(n, w, events).history.Keys)
    ensures Covered(n, After(n, w, events))
    decreases |events|
  {
    if events != [] {
      RunGrowsHistory(n, w, events);
      StepKeepsCovered(n, w, events[0]);
      StepKeepsBase(n, w, events[0]);
      RunKeepsCovered(n, Next(n, w, events[0]), events[1..]);
    }
  }

  // --- What every run guarantees ---

  /** In every world that a run from the empty world reaches, over any references: a `.add` file is
      for a live reference and holds its token, no reference has both request files, and every
      token the registry accepts is in token.json or in a pending `.remove` file. */
  lemma EveryRunKeepsTokens<R(!new), T(!new), E>(n: Setting<R, T, E>, events: seq<Event<R, T>>)
    requires IsRun(n, Initial<R, T, E>(), events)
    ensures var w := After(n, Initial<R, T, E>(), events);
      && (forall r | r in w.adds :: r in w.tokenJson && w.adds[r] == w.tokenJson[r])
      && w.adds.Keys !! w.removes.Keys
      && (forall t | t in w.tokens :: t in w.tokenJson.Values || t in w.removes.Values)
  {
    RunKeepsTokens(n, Initial<R, T, E>(), events);
    AcceptedAreHeld(n, After(n, Initial<R, T, E>(), events));
  }

  lemma AcceptedAreHeld<R(!new), T(!new), E>(n: Setting<R, T, E>, w: World<R, T, E>)
    requires BaseInv(n, w) && TokensAgree(w)
    ensures forall t | t in w.tokens :: t in w.tokenJson.Values || t in w.removes.Values
  {
    forall t | t in w.tokens ensures t in w.tokenJson.Values || t in w.removes.Values {
      var r := w.tokens[t].ref;
      assert if r in w.tokenJson then w.tokenJson[r] == t else w.removes[r] == t;
    }
  }

  /** A reference that is live now and live later has kept its token, unless it was removed in
      between, came back and its first token is retired. */
  lemma LiveTokenNeverChanges<R(!new), T(!new), E>(n: Setting<R, T, E>, w: World<R, T, E>, events: seq<Event<R, T>>,
                                                   r: R)
    requires BaseInv(n, w) && IsRun(n, w, events)
    requires r in w.tokenJson && r in After(n, w, events).tokenJson
    ensures var w' := After(n, w, events);
      w'.tokenJson[r] == w.tokenJson[r] || (n.reuse && Retired(w', w.tokenJson[r]))
  {
    RunKeepsBase(n, w, events);
    RunKeepsOrRetires(n, w, events, r);
    if !n.reuse { RunKeepsHistory(n, w, events, r); }
  }

  lemma {:induction false} RunKeepsHistory<R(!new), T(!new), E>(n: Setting<R, T, E>, w: World<R, T, E>,
      events: seq<Event<R, T>>, r: R)
    requires !n.reuse && IsRun(n, w, events) && r in w.history
    ensures r in After(n, w, events).history && After(n, w, events).history[r] == w.history[r]
    decreases |events|
  {
    if events != [] { RunKeepsHistory(n, Next(n, w, events[0]), events[1..], r); }
  }

  lemma StepKeepsTokenJson<R(!new), T(!new), E>(n: Setting<R, T, E>, w: World<R, T, E>, event: Event<R, T>)
    requires Enabled(n, w, event) && !event.Install?
    ensures Next(n, w, event).tokenJson == w.tokenJson && Next(n, w, event).history == w.history
  {
  }

  /** Only `install` writes token.json. */
  lemma {:induction false} ManagerKeepsTokenJson<R(!new), T(!new), E>(n: Setting<R, T, E>, w: World<R, T, E>,
      events: seq<Event<R, T>>)
    requires IsRun(n, w, events) && forall i | 0 <= i < |events| :: !events[i].Install?
    ensures After(n, w, events).tokenJson == w.tokenJson && After(n, w, events).history == w.history
    decreases |events|
  {
    if events != [] {
      StepKeepsTokenJson(n, w, events[0]);
      ManagerKeepsTokenJson(n, Next(n, w, events[0]), events[1..]);
    }
  }

  /** A reference that has been given a token and is done with. */
  predicate Finished<R, T, E>(w: World<R, T, E>, r: R) { r in w.history && !Held(w, r) }

  /** The run does not bring the reference back. */
  ghost predicate StaysAway<R(!new), T>(events: seq<Event<R, T>>, r: R) {
    forall i | 0 <= i < |events| && events[i].Install? :: r !in events[i].added
  }

  lemma StepKeepsFinished<R(!new), T(!new), E>(n: Setting<R, T, E>, w: World<R, T, E>, event: Event<R, T>, r: R)
    requires Enabled(n, w, event) && Finished(w, r) && (event.Install? ==> r !in event.added)
    ensures Finished(Next(n, w, event), r)
  {
    if event.Install? { assert r !in GoneRefs(w, event.refs); }
  }

  lemma {:induction false} RunKeepsFinished<R(!new), T(!new), E>(n: Setting<R, T, E>, w: World<R, T, E>,
      events: seq<Event<R, T>>, r: R)
    requires IsRun(n, w, events) && Finished(w, r) && StaysAway(events, r)
    ensures Finished(After(n, w, events), r)
    decreases |events|
  {
    if events != [] {
      assert StaysAway(events[1..], r) by {
        assert forall i | 0 <= i < |events[1..]| :: events[1..][i] == events[i + 1];
      }
      StepKeepsFinished(n, w, events[0], r);
      RunKeepsFinished(n, Next(n, w, events[0]), events[1..], r);
    }
  }

  /** The event makes the `.remove` file go. */
  ghost predicate Vanishes<R(!new), T, E>(n: Setting<R, T, E>, w: World<R, T, E>, event: Event<R, T>, r: R) {
    Enabled(n, w, event) && r in w.removes && r !in Next(n, w, event).removes
  }

  lemma VanishingFinishes<R(!new), T(!new), E>(n: Setting<R, T, E>, w: World<R, T, E>, event: Event<R, T>, r: R)
    requires Known(n, w) && FilesAgree(w) && Vanishes(n, w, event, r)
    ensures Finished(Next(n, w, event), r) && Retired(Next(n, w, event), w.removes[r])
    ensures event.RemoveRequest? && event.ref == r
  {
    if !event.RemoveRequest? || event.ref != r {
      OthersKeepRemoval(n, w, event, r);
      assert false;
    }
  }

  lemma OthersKeepRemoval<R(!new), T(!new), E>(n: Setting<R, T, E>, w: World<R, T, E>, event: Event<R, T>, r: R)
    requires Enabled(n, w, event) && r in w.removes && (event.RemoveRequest? ==> event.ref != r)
    ensures r in Next(n, w, event).removes
  {
  }

  /** When a `.remove` file vanishes, its token is not accepted from then on, in any continuation of
      the run and over any references. */
  lemma RemovalIsFinal<R(!new), T(!new), E>(n: Setting<R, T, E>, w: World<R, T, E>, event: Event<R, T>,
                                            events: seq<Event<R, T>>, r: R)
    requires BaseInv(n, w) && TokensAgree(w) && Vanishes(n, w, event, r) && IsRun(n, Next(n, w, event), events)
    ensures w.removes[r] !in After(n, Next(n, w, event), events).tokens
  {
    var w1 := Next(n, w, event);
    StepKeepsBase(n, w, event);
    StepKeepsTokens(n, w, event);
    VanishingFinishes(n, w, event, r);
    RunKeepsRetired(n, w1, events, w.removes[r]);
    RunKeepsTokens(n, w1, events);
  }

  /** `install` leaves no reference with both request files exactly when no new reference
      still waits for its removal. */
  lemma InstallSeparatesExactly<R(!new), T(!new), E>(n: Setting<R, T, E>, w: World<R, T, E>, refs: seq<R>,
                                                     added: map<R, T>)
    requires FilesAgree(w) && added.Keys == NewRefs(w, refs)
    ensures var w' := InstallResult(w, refs, added);
            w'.adds.Keys !! w'.removes.Keys <==> NewRefs(w, refs) !! w.removes.Keys
  {
    var w' := InstallResult(w, refs, added);
    if r :| r in NewRefs(w, refs) && r in w.removes {
      assert r in w'.adds && r in w'.removes;
    }
  }
}
