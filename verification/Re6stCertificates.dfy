/**
 Certificates of the re6st token protocol: in every run without foreign status files, an e-mail has
 no more certificates than references that are to answer for them.
 */
module Re6stCertificates {
  import opened Re6stWorld
  import opened Re6stSafety

  function CertsFor<R, T, E>(w: World<R, T, E>, email: E): set<Cn> {
    set cn | cn in w.certs && w.certs[cn].email == email
  }

  /** The references of an e-mail that the files answer for and whose tokens are used up. */
  ghost function SpentFor<R, T, E>(n: Setting<R, T, E>, w: World<R, T, E>, email: E): set<R> {
    set r | r in w.history && Held(w, r) && r !in w.adds && w.history[r] !in w.tokens && MailOf(n, r) == email
  }

  /** No e-mail has more certificates than such references. */
  ghost predicate Balanced<R(!new), T(!new), E(!new)>(n: Setting<R, T, E>, w: World<R, T, E>) {
    forall e :: |CertsFor(w, e)| <= |SpentFor(n, w, e)|
  }

  ghost predicate Inv<R(!new), T(!new), E(!new)>(n: Setting<R, T, E>, w: World<R, T, E>) {
    StatusInv(n, w) && TokensAgree(w) && Balanced(n, w)
  }

  lemma {:induction false} SubsetSize<A>(small: set<A>, big: set<A>)
    requires small <= big
    ensures |small| <= |big|
  {
    if x :| x in small { SubsetSize(small - {x}, big - {x}); }
  }

  /** Fewer certificates and more spent references keep the balance. */
  lemma StaysBalanced<R(!new), T(!new), E(!new)>(n: Setting<R, T, E>, w: World<R, T, E>, w': World<R, T, E>)
    requires Balanced(n, w)
    requires forall e :: CertsFor(w', e) <= CertsFor(w, e) && SpentFor(n, w, e) <= SpentFor(n, w', e)
    ensures Balanced(n, w')
  {
    forall e ensures |CertsFor(w', e)| <= |SpentFor(n, w', e)| {
      SubsetSize(CertsFor(w', e), CertsFor(w, e));
      SubsetSize(SpentFor(n, w, e), SpentFor(n, w', e));
    }
  }

  lemma InstallKeepsBalance<R(!new), T(!new), E(!new)>(n: Setting<R, T, E>, w: World<R, T, E>, refs: seq<R>,
                                                       added: map<R, T>)
    requires FilesAgree(w) && Balanced(n, w) && added.Keys == NewRefs(w, refs) && added.Keys !! w.removes.Keys
    ensures Balanced(n, InstallResult(w, refs, added))
  {
    var w' := InstallResult(w, refs, added);
    forall e ensures CertsFor(w', e) <= CertsFor(w, e) && SpentFor(n, w, e) <= SpentFor(n, w', e) {
      forall r | r in SpentFor(n, w, e) ensures r in SpentFor(n, w', e) { InstallKeepsHeld(w, refs, added, r); }
    }
    StaysBalanced(n, w, w');
  }

  lemma RegisterKeepsBalance<R(!new), T(!new), E(!new)>(n: Setting<R, T, E>, w: World<R, T, E>, ref: R)
    requires Known(n, w) && FilesAgree(w) && Balanced(n, w) && ref in w.adds
    ensures Balanced(n, AfterRegister(n, w, ref, w.adds[ref]))
  {
    var w' := AfterRegister(n, w, ref, w.adds[ref]);
    assert w.adds[ref] == w.history[ref];
    forall e ensures CertsFor(w', e) <= CertsFor(w, e) && SpentFor(n, w, e) <= SpentFor(n, w', e) {}
    StaysBalanced(n, w, w');
  }

  lemma ConfirmKeepsBalance<R(!new), T(!new), E(!new)>(n: Setting<R, T, E>, w: World<R, T, E>, ref: R)
    requires Balanced(n, w)
    ensures Balanced(n, AfterConfirm(n, w, ref))
  {
    var w' := AfterConfirm(n, w, ref);
    forall e ensures CertsFor(w', e) <= CertsFor(w, e) && SpentFor(n, w, e) <= SpentFor(n, w', e) {}
    StaysBalanced(n, w, w');
  }

  lemma AddKeepsBalance<R(!new), T(!new), E(!new)>(n: Setting<R, T, E>, w: World<R, T, E>, ref: R, call: AddCall<T>)
    requires Known(n, w) && FilesAgree(w) && Balanced(n, w)
    ensures Balanced(n, AddResult(n, w, ref, call))
  {
    if ref in w.adds {
      RegisterKeepsBalance(n, w, ref);
      ConfirmKeepsBalance(n, w, ref);
      ConfirmKeepsBalance(n, AfterRegister(n, w, ref, w.adds[ref]), ref);
    }
  }

  lemma DeleteKeepsBalance<R(!new), T(!new), E(!new)>(n: Setting<R, T, E>, w: World<R, T, E>, token: T,
                                                      calls: RemoveCalls)
    requires Balanced(n, w)
    ensures Balanced(n, AfterDelete(w, token, calls))
  {
    var w' := AfterDelete(w, token, calls);
    forall e ensures CertsFor(w', e) <= CertsFor(w, e) && SpentFor(n, w, e) <= SpentFor(n, w', e) {}
    StaysBalanced(n, w, w');
  }

  lemma RevokeKeepsBalance<R(!new), T(!new), E(!new)>(n: Setting<R, T, E>, w: World<R, T, E>, calls: RemoveCalls)
    requires Balanced(n, w)
    ensures Balanced(n, AfterRevoke(w, calls))
  {
    var w' := AfterRevoke(w, calls);
    forall e ensures CertsFor(w', e) <= CertsFor(w, e) && SpentFor(n, w, e) <= SpentFor(n, w', e) {}
    StaysBalanced(n, w, w');
  }

  lemma CertsAfterFinish<R(!new), T(!new), E(!new)>(n: Setting<R, T, E>, w: World<R, T, E>, ref: R, calls: RemoveCalls,
                                                    e: E)
    requires TruthfulCalls(n, w, ref, calls) && (calls.prefix.Some? ==> !calls.revokeRaises)
    ensures var certs := CertsFor(AfterUnlink(AfterRevoke(w, calls), ref), e);
      if e != MailOf(n, ref) then certs <= CertsFor(w, e)
      else certs == {} || exists cn :: cn in CertsFor(w, e) && certs == CertsFor(w, e) - {cn}
  {
    var w' := AfterUnlink(AfterRevoke(w, calls), ref);
    if e == MailOf(n, ref) {
      match calls.prefix
      case None => assert CertsFor(w', e) == {};
      case Some(cn) => assert cn in CertsFor(w, e) && CertsFor(w', e) == CertsFor(w, e) - {cn};
    }
  }

  lemma SpentAfterFinish<R(!new), T(!new), E(!new)>(n: Setting<R, T, E>, w: World<R, T, E>, ref: R, calls: RemoveCalls,
                                                    e: E)
    requires FilesAgree(w) && ref in w.removes && w.removes[ref] !in w.tokens
    ensures SpentFor(n, AfterUnlink(AfterRevoke(w, calls), ref), e) == SpentFor(n, w, e) - {ref}
    ensures ref in SpentFor(n, w, e) <==> e == MailOf(n, ref)
  {
  }

  lemma FinishKeepsBalance<R(!new), T(!new), E(!new)>(n: Setting<R, T, E>, w: World<R, T, E>, ref: R,
                                                      calls: RemoveCalls)
    requires FilesAgree(w) && Balanced(n, w) && ref in w.removes && w.removes[ref] !in w.tokens
    requires TruthfulCalls(n, w, ref, calls) && (calls.prefix.Some? ==> !calls.revokeRaises)
    ensures Balanced(n, AfterUnlink(AfterRevoke(w, calls), ref))
  {
    var w' := AfterUnlink(AfterRevoke(w, calls), ref);
    forall e ensures |CertsFor(w', e)| <= |SpentFor(n, w', e)| {
      CertsAfterFinish(n, w, ref, calls, e);
      SpentAfterFinish(n, w, ref, calls, e);
      if e != MailOf(n, ref) { SubsetSize(CertsFor(w', e), CertsFor(w, e)); }
    }
  }

  /** With the request file goes one certificate of its e-mail, or there is none. */
  lemma RemoveKeepsBalance<R(!new), T(!new), E(!new)>(n: Setting<R, T, E>, w: World<R, T, E>, ref: R,
                                                      calls: RemoveCalls)
    requires FilesAgree(w) && Balanced(n, w) && TruthfulCalls(n, w, ref, calls)
    ensures Balanced(n, RemoveResult(n, w, ref, calls))
  {
    if ref in w.removes {
      var w1 := AfterDelete(w, w.removes[ref], calls);
      DeleteKeepsBalance(n, w, w.removes[ref], calls);
      RevokeKeepsBalance(n, w1, calls);
      if w.removes[ref] !in w1.tokens && (calls.prefix.Some? ==> !calls.revokeRaises) {
        FinishKeepsBalance(n, w1, ref, calls);
      }
    }
  }

  lemma CertsAfterUse<R(!new), T(!new), E(!new)>(n: Setting<R, T, E>, w: World<R, T, E>, ref: R, cn: Cn, e: E)
    requires ClientUses(w, ref, cn) && w.tokens[w.sent[ref].token].email == MailOf(n, ref)
    ensures CertsFor(ClientResult(w, ref, cn), e) == CertsFor(w, e) + if e == MailOf(n, ref) then {cn} else {}
  {
  }

  lemma SpentAfterUse<R(!new), T(!new), E(!new)>(n: Setting<R, T, E>, w: World<R, T, E>, ref: R, cn: Cn, e: E)
    requires ClientUses(w, ref, cn) && ref in w.history && w.history[ref] == w.sent[ref].token
    requires Held(w, ref) && ref !in w.adds
    ensures SpentFor(n, w, e) <= SpentFor(n, ClientResult(w, ref, cn), e)
    ensures e == MailOf(n, ref) ==> ref in SpentFor(n, ClientResult(w, ref, cn), e) && ref !in SpentFor(n, w, e)
  {
  }

  /** A client that uses a token spends the token's reference. */
  lemma ClientUseKeepsBalance<R(!new), T(!new), E(!new)>(n: Setting<R, T, E>, w: World<R, T, E>, ref: R, cn: Cn)
    requires GrantsName(n, w) && StatusesAgree(n, w) && TokensAgree(w) && Balanced(n, w) && ClientUses(w, ref, cn)
    ensures Balanced(n, ClientResult(w, ref, cn))
  {
    var w', own := ClientResult(w, ref, cn), MailOf(n, ref);
    SentIsOwn(n, w, ref, cn);
    assert Names(n, w, w.tokens[w.sent[ref].token]);
    forall e ensures |CertsFor(w', e)| <= |SpentFor(n, w', e)| {
      CertsAfterUse(n, w, ref, cn, e);
      SpentAfterUse(n, w, ref, cn, e);
      SubsetSize(SpentFor(n, w, e) + if e == own then {ref} else {}, SpentFor(n, w', e));
    }
  }

  lemma CheckKeepsBalance<R(!new), T(!new), E(!new)>(n: Setting<R, T, E>, w: World<R, T, E>, ref: R, token: T,
                                                     calls: CheckCalls)
    requires Balanced(n, w)
    ensures Balanced(n, CheckResult(n, w, ref, token, calls))
  {
    var w' := CheckResult(n, w, ref, token, calls);
    forall e ensures CertsFor(w', e) <= CertsFor(w, e) && SpentFor(n, w, e) <= SpentFor(n, w', e) {}
    StaysBalanced(n, w, w');
  }

  lemma StepKeepsBalance<R(!new), T(!new), E(!new)>(n: Setting<R, T, E>, w: World<R, T, E>, event: Event<R, T>)
    requires Inv(n, w) && Enabled(n, w, event)
    ensures Balanced(n, Next(n, w, event))
  {
    match event
    case Install(refs, added) => InstallKeepsBalance(n, w, refs, added);
    case AddRequest(ref, call) => AddKeepsBalance(n, w, ref, call);
    case RemoveRequest(ref, calls) => RemoveKeepsBalance(n, w, ref, calls);
    case Check(ref, calls) => CheckKeepsBalance(n, w, ref, w.history[ref], calls);
    case ClientUse(ref, cn) => ClientUseKeepsBalance(n, w, ref, cn);
  }

  lemma StepKeepsInv<R(!new), T(!new), E(!new)>(n: Setting<R, T, E>, w: World<R, T, E>, event: Event<R, T>)
    requires Inv(n, w) && Enabled(n, w, event) && CleanStatuses(n, Next(n, w, event).history.Keys)
    ensures Inv(n, Next(n, w, event))
  {
    assert StatusInv(n, Next(n, w, event)) by { StepKeepsStatuses(n, w, event); }
    assert TokensAgree(Next(n, w, event)) by { StepKeepsTokens(n, w, event); }
    StepKeepsBalance(n, w, event);
  }

  /** Every run keeps the invariant, whatever its interleaving, if none of the references it
      installs meets a status file that is not its own. */
  lemma {:induction false} RunKeepsInv<R(!new), T(!new), E(!new)>(n: Setting<R, T, E>, w: World<R, T, E>,
      events: seq<Event<R, T>>)
    requires Inv(n, w) && IsRun(n, w, events) && CleanStatuses(n, After(n, w, events).history.Keys)
    ensures Inv(n, After(n, w, events))
    decreases |events|
  {
    if events != [] {
      var w1 := Next(n, w, events[0]);
      RunGrowsHistory(n, w1, events[1..]);
      FewerAreClean(n, w1.history.Keys, After(n, w, events).history.Keys);
      StepKeepsInv(n, w, events[0]);
      RunKeepsInv(n, w1, events[1..]);
    }
  }

  /** For each certificate there is a live or pending reference with its e-mail. */
  ghost predicate Answered<R(!new), T, E>(n: Setting<R, T, E>, w: World<R, T, E>) {
    forall cn | cn in w.certs :: exists r :: Held(w, r) && MailOf(n, r) == w.certs[cn].email
  }

  lemma BalancedAnswers<R(!new), T(!new), E(!new)>(n: Setting<R, T, E>, w: World<R, T, E>)
    requires Balanced(n, w)
    ensures Answered(n, w)
  {
    forall cn | cn in w.certs ensures exists r :: Held(w, r) && MailOf(n, r) == w.certs[cn].email {
      var e := w.certs[cn].email;
      SubsetSize({cn}, CertsFor(w, e));
      assert SpentFor(n, w, e) != {};
      var r :| r in SpentFor(n, w, e);
      assert Held(w, r);
    }
  }

  /** At most one certificate for an e-mail. */
  ghost predicate UniqueCerts<R(!new), T, E>(w: World<R, T, E>) {
    forall c, d | c in w.certs && d in w.certs && w.certs[c].email == w.certs[d].email :: c == d
  }

  lemma BalancedIsUnique<R(!new), T(!new), E(!new)>(n: Setting<R, T, E>, w: World<R, T, E>)
    requires Balanced(n, w) && DistinctEmails(n, w.history.Keys)
    ensures UniqueCerts(w)
  {
    forall c, d | c in w.certs && d in w.certs && w.certs[c].email == w.certs[d].email ensures c == d {
      var e := w.certs[c].email;
      SubsetSize({c, d}, CertsFor(w, e));
      if c != d {
        assert |SpentFor(n, w, e)| >= 2;
        var s :| s in SpentFor(n, w, e);
        SubsetSize(SpentFor(n, w, e), {s});
      }
    }
  }

  // --- What every run guarantees ---

  lemma CleanRunIsSafe<R(!new), T(!new), E(!new)>(n: Setting<R, T, E>, events: seq<Event<R, T>>)
    requires IsRun(n, Initial<R, T, E>(), events) && CleanStatuses(n, After(n, Initial<R, T, E>(), events).history.Keys)
    ensures var w := After(n, Initial<R, T, E>(), events);
            Inv(n, w) && Answered(n, w) && (DistinctEmails(n, w.history.Keys) ==> UniqueCerts(w))
  {
    var w := After(n, Initial<R, T, E>(), events);
    RunKeepsInv(n, Initial<R, T, E>(), events);
    BalancedAnswers(n, w);
    if DistinctEmails(n, w.history.Keys) { BalancedIsUnique(n, w); }
  }

  /** When no status file is named after another reference, each live reference has a request to
      add or a status. When no reference meets a status file that is not its own, each
      certificate has a live or pending reference; when besides no two references share an
      e-mail, an e-mail has at most one certificate. */
  lemma EveryRunIsSafe<R(!new), T(!new), E(!new)>(n: Setting<R, T, E>, events: seq<Event<R, T>>)
    requires IsRun(n, Initial<R, T, E>(), events)
    ensures var w := After(n, Initial<R, T, E>(), events);
      && (OwnStatuses(n, w.history.Keys) ==> Covered(n, w))
      && (CleanStatuses(n, w.history.Keys) ==> Answered(n, w))
      && (CleanStatuses(n, w.history.Keys) && DistinctEmails(n, w.history.Keys) ==> UniqueCerts(w))
  {
    var w := After(n, Initial<R, T, E>(), events);
    if OwnStatuses(n, w.history.Keys) { RunKeepsCovered(n, Initial<R, T, E>(), events); }
    if CleanStatuses(n, w.history.Keys) { CleanRunIsSafe(n, events); }
  }

  ghost predicate NoCertificate<R(!new), T, E>(n: Setting<R, T, E>, w: World<R, T, E>, r: R) {
    forall cn | cn in w.certs :: w.certs[cn].email != MailOf(n, r)
  }

  /** No certificate is left for the e-mail either, until the reference comes back, if no two
      references share an e-mail and none meets a status file that is not its own. */
  lemma RemovalLeavesNoCertificate<R(!new), T(!new), E(!new)>(n: Setting<R, T, E>, w: World<R, T, E>,
      event: Event<R, T>,
                                                              events: seq<Event<R, T>>, r: R)
    requires Inv(n, w) && Vanishes(n, w, event, r) && IsRun(n, Next(n, w, event), events) && StaysAway(events, r)
    requires var refs := After(n, Next(n, w, event), events).history.Keys;
             DistinctEmails(n, refs) && CleanStatuses(n, refs)
    ensures NoCertificate(n, After(n, Next(n, w, event), events), r)
  {
    var w1 := Next(n, w, event);
    VanishingFinishes(n, w, event, r);
    RunGrowsHistory(n, w1, events);
    FewerAreClean(n, w1.history.Keys, After(n, w1, events).history.Keys);
    StepKeepsInv(n, w, event);
    RunKeepsInv(n, w1, events);
    RunKeepsFinished(n, w1, events, r);
    FinishedHasNone(n, After(n, w1, events), r);
  }

  lemma FinishedHasNone<R(!new), T(!new), E(!new)>(n: Setting<R, T, E>, w: World<R, T, E>, r: R)
    requires Balanced(n, w) && DistinctEmails(n, w.history.Keys) && Finished(w, r)
    ensures NoCertificate(n, w, r)
  {
    var e := MailOf(n, r);
    assert SpentFor(n, w, e) == {};
    assert |CertsFor(w, e)| <= |SpentFor(n, w, e)|;
    forall cn | cn in w.certs ensures w.certs[cn].email != e { assert cn !in CertsFor(w, e); }
  }
}
