/**
 For which references the re6st token protocol keeps its promises: each promise holds in every
 run over a set of references exactly when a condition on the references holds.
 */
module Re6stLimits {
  import opened Common
  import opened Re6stCertificates
  import opened Re6stSafety
  import opened Re6stWorld

  // --- Reachable worlds ---

  /** A run that installs only these references leads from one world to the other. */
  ghost predicate Leads<R(!new), T(!new), E>(n: Setting<R, T, E>, refs: set<R>, w: World<R, T, E>, w': World<R, T, E>) {
    exists events :: IsRun(n, w, events) && Within(events, refs) && After(n, w, events) == w'
  }

  ghost predicate Reachable<R(!new), T(!new), E>(n: Setting<R, T, E>, refs: set<R>, w: World<R, T, E>) {
    Leads(n, refs, Initial(), w)
  }

  predicate Inside<R(!new), T>(event: Event<R, T>, refs: set<R>) { event.Install? ==> event.added.Keys <= refs }

  lemma LeadsNowhere<R(!new), T(!new), E>(n: Setting<R, T, E>, refs: set<R>, w: World<R, T, E>)
    ensures Leads(n, refs, w, w)
  {
    var none: seq<Event<R, T>> := [];
    assert IsRun(n, w, none) && Within(none, refs) && After(n, w, none) == w;
  }

  lemma LeadsNext<R(!new), T(!new), E>(n: Setting<R, T, E>, refs: set<R>, w: World<R, T, E>, w1: World<R, T, E>,
                                       event: Event<R, T>)
    requires Leads(n, refs, w, w1) && Enabled(n, w1, event) && Inside(event, refs)
    ensures Leads(n, refs, w, Next(n, w1, event))
  {
    var events :| IsRun(n, w, events) && Within(events, refs) && After(n, w, events) == w1;
    RunOne(n, w1, event);
    RunAppend(n, w, events, [event]);
    assert Within(events + [event], refs);
  }

  lemma RunReaches<R(!new), T(!new), E(!new)>(n: Setting<R, T, E>, refs: set<R>, events: seq<Event<R, T>>)
    requires IsRun(n, Initial<R, T, E>(), events) && Within(events, refs)
    ensures var w := After(n, Initial<R, T, E>(), events);
      && w.history.Keys <= refs && BaseInv(n, w) && TokensAgree(w)
      && (OwnStatuses(n, refs) ==> Covered(n, w)) && (CleanStatuses(n, refs) ==> Inv(n, w))
  {
    var w0 := Initial<R, T, E>();
    var w := After(n, w0, events);
    assert w.history.Keys <= refs by { RunStaysWithin(n, w0, events, refs); }
    assert BaseInv(n, w) && TokensAgree(w) by { RunKeepsTokens(n, w0, events); }
    if OwnStatuses(n, refs) {
      assert Covered(n, w) by { RunKeepsCovered(n, w0, events); }
    }
    if CleanStatuses(n, refs) {
      FewerAreClean(n, w.history.Keys, refs);
      CleanRunIsSafe(n, events);
    }
  }

  lemma ReachableIs<R(!new), T(!new), E(!new)>(n: Setting<R, T, E>, refs: set<R>, w: World<R, T, E>)
    requires Reachable(n, refs, w)
    ensures w.history.Keys <= refs && BaseInv(n, w) && TokensAgree(w)
    ensures OwnStatuses(n, refs) ==> Covered(n, w)
    ensures CleanStatuses(n, refs) ==> Inv(n, w)
  {
    var events :| IsRun(n, Initial<R, T, E>(), events) && Within(events, refs)
        && After(n, Initial<R, T, E>(), events) == w;
    RunReaches(n, refs, events);
  }

  // --- Building runs ---

  function Both<R(==), T>(r: R, s: R, t: T, u: T): map<R, T> { map[r := t, s := u] }

  /** After `install` of two references. */
  function Installed<R(==), T(==), E(==)>(r: R, s: R, t: T, u: T): World<R, T, E> {
    var both := Both(r, s, t, u);
    World(both, both, map[], map[], map[], map[], map[], both, {t, u})
  }

  /** `install` when nothing is live. */
  lemma InstallAnew<R(!new), T(!new), E>(w: World<R, T, E>, refs: seq<R>, added: map<R, T>)
    requires w.tokenJson == map[] && w.adds == map[] && added.Keys == set r | r in refs
    ensures NewRefs(w, refs) == added.Keys
    ensures InstallResult(w, refs, added)
         == w.(tokenJson := added, adds := added, history := w.history + added, drawn := w.drawn + added.Values)
  {
    assert GoneRefs(w, refs) == map[];
  }

  lemma LeadsInstall<R(!new), T(!new), E>(n: Setting<R, T, E>, refs: set<R>, w0: World<R, T, E>, w: World<R, T, E>,
                                          listed: seq<R>, added: map<R, T>)
    requires Leads(n, refs, w0, w) && w.tokenJson == map[] && w.adds == map[] && added.Keys <= refs
    requires (added.Keys == set r | r in listed) && FreshTokens(n, w, added) && MayEnter(n, w, added.Keys)
    ensures Leads(n, refs, w0, InstallResult(w, listed, added))
  {
    InstallAnew(w, listed, added);
    LeadsNext(n, refs, w0, w, Install(listed, added));
  }

  lemma InstallBoth<R(!new), T(!new), E>(n: Setting<R, T, E>, refs: set<R>, r: R, s: R, t: T, u: T)
    requires r != s && t != u && t != n.noToken && u != n.noToken && r in refs && s in refs
    ensures InstallResult(Initial<R, T, E>(), [r, s], Both(r, s, t, u)) == Installed(r, s, t, u)
    ensures Reachable(n, refs, Installed<R, T, E>(r, s, t, u))
  {
    var w, both := Initial<R, T, E>(), Both(r, s, t, u);
    assert both.Values == {t, u} by { assert both[r] == t && both[s] == u; }
    LeadsNowhere(n, refs, w);
    InstallAnew(w, [r, s], both);
    LeadsInstall(n, refs, w, w, [r, s], both);
  }

  predicate CanObtain<R, T, E>(n: Setting<R, T, E>, w: World<R, T, E>, r: R, cn: Cn) {
    r in w.adds && r in w.history && w.adds[r] == w.history[r] != n.noToken && w.adds[r] !in w.tokens && cn !in w.certs
  }

  /** The reference has a status and its token is accepted: the token is sent and used. */
  function Exchanged<R, T, E>(n: Setting<R, T, E>, w: World<R, T, E>, r: R, cn: Cn): World<R, T, E>
    requires r in w.history && FileOf(n, r) in w.statuses
  {
    var t := w.history[r];
    w.(sent := w.sent[r := Info(t, w.statuses[FileOf(n, r)])],
       tokens := w.tokens - {t}, certs := w.certs[cn := Grant(MailOf(n, r), r)])
  }

  lemma CheckAndUse<R(!new), T(!new), E>(n: Setting<R, T, E>, refs: set<R>, w0: World<R, T, E>, w: World<R, T, E>,
                                         r: R, cn: Cn)
    requires Leads(n, refs, w0, w) && r in w.history && FileOf(n, r) in w.statuses && cn !in w.certs
    requires w.history[r] in w.tokens && w.tokens[w.history[r]] == Grant(MailOf(n, r), r)
    ensures Leads(n, refs, w0, Exchanged(n, w, r, cn))
  {
    var t, file := w.history[r], FileOf(n, r);
    var w1 := AfterSend(w, r, t, w.statuses[file]);
    assert AfterStatus(w, file, w.statuses[file]) == w;
    LeadsNext(n, refs, w0, w, Check(r, CheckCalls(false, false)));
    LeadsNext(n, refs, w0, w1, ClientUse(r, cn));
  }

  /** The reference is added, and a client obtains a certificate with its token. */
  function Obtained<R, T, E>(n: Setting<R, T, E>, w: World<R, T, E>, r: R, cn: Cn): World<R, T, E>
    requires r in w.adds && r in w.history
  {
    Exchanged(n, AfterConfirm(n, AfterRegister(n, w, r, w.adds[r]), r), r, cn)
  }

  lemma Obtain<R(!new), T(!new), E>(n: Setting<R, T, E>, refs: set<R>, w0: World<R, T, E>, w: World<R, T, E>, r: R,
                                    cn: Cn)
    requires Leads(n, refs, w0, w) && CanObtain(n, w, r, cn)
    ensures Leads(n, refs, w0, Obtained(n, w, r, cn))
  {
    LeadsNext(n, refs, w0, w, AddRequest(r, AddReturned(None, true)));
    CheckAndUse(n, refs, w0, AfterConfirm(n, AfterRegister(n, w, r, w.adds[r]), r), r, cn);
  }

  /** `addToken` took effect and raised, and yet a client obtains a certificate, because there is a
      status file already. */
  function Hastened<R, T, E>(n: Setting<R, T, E>, w: World<R, T, E>, r: R, cn: Cn): World<R, T, E>
    requires r in w.adds && r in w.history && FileOf(n, r) in w.statuses
  {
    Exchanged(n, AfterRegister(n, w, r, w.adds[r]), r, cn)
  }

  lemma Hasten<R(!new), T(!new), E>(n: Setting<R, T, E>, refs: set<R>, w0: World<R, T, E>, w: World<R, T, E>, r: R,
                                    cn: Cn)
    requires Leads(n, refs, w0, w) && CanObtain(n, w, r, cn) && FileOf(n, r) in w.statuses
    ensures Leads(n, refs, w0, Hastened(n, w, r, cn))
  {
    LeadsNext(n, refs, w0, w, AddRequest(r, AddRaised(true)));
    CheckAndUse(n, refs, w0, AfterRegister(n, w, r, w.adds[r]), r, cn);
  }

  /** All references are to be removed. */
  function Dismissed<R, T, E>(w: World<R, T, E>): World<R, T, E> {
    w.(tokenJson := map[], adds := w.adds - w.tokenJson.Keys, removes := w.tokenJson)
  }

  lemma Dismiss<R(!new), T(!new), E>(n: Setting<R, T, E>, refs: set<R>, w0: World<R, T, E>, w: World<R, T, E>)
    requires Leads(n, refs, w0, w) && w.removes == map[]
    ensures Leads(n, refs, w0, Dismissed(w))
  {
    var none: map<R, T> := map[];
    assert NewRefs(w, []) == {} && GoneRefs(w, []) == w.tokenJson;
    assert (w.tokenJson + none) - w.tokenJson.Keys == none && none + w.adds == w.adds;
    assert w.tokenJson + w.removes == w.tokenJson && w.history + none == w.history && none.Values == {};
    assert w.drawn + {} == w.drawn && w.tokenJson.Keys - w.removes.Keys == w.tokenJson.Keys;
    assert InstallResult(w, [], none) == Dismissed(w);
    LeadsNext(n, refs, w0, w, Install([], none));
  }

  /** The calls of a pass that removes the reference and revokes this certificate, if any. */
  function Removing(prefix: Option<Cn>): RemoveCalls { RemoveCalls(false, true, false, false, prefix, false, true) }

  function Removed<R, T, E>(w: World<R, T, E>, r: R, prefix: Option<Cn>): World<R, T, E>
    requires r in w.removes
  {
    w.(removes := w.removes - {r}, statuses := w.statuses - {r}, tokens := w.tokens - {w.removes[r]},
       certs := if prefix.Some? then w.certs - {prefix.value} else w.certs)
  }

  lemma RemovalIs<R(!new), T(!new), E>(n: Setting<R, T, E>, w: World<R, T, E>, r: R, prefix: Option<Cn>)
    requires r in w.removes && w.removes[r] != n.noToken && TruthfulCalls(n, w, r, Removing(prefix))
    ensures Enabled(n, w, RemoveRequest(r, Removing(prefix)))
    ensures Next(n, w, RemoveRequest(r, Removing(prefix))) == Removed(w, r, prefix)
  {
  }

  // --- A reference that meets a status file that is not its own ---

  /** The reference waits to be added and has a status file; no token is accepted. */
  ghost predicate Muddled<R(!new), T, E>(n: Setting<R, T, E>, w: World<R, T, E>, r: R) {
    && r in w.adds && r in w.tokenJson && r in w.history && w.adds[r] == w.tokenJson[r] == w.history[r] != n.noToken
    && FileOf(n, r) in w.statuses && w.tokens == map[] && w.removes == map[] && w.certs.Keys <= {0}
  }

  /** Each other reference has a certificate. */
  predicate AllButOne<R, T, E>(w: World<R, T, E>) { |w.tokenJson| == |w.certs| + 1 }

  /** Two references with one status file, of which the second has a certificate. */
  lemma SharedFile<R(!new), T(!new), E>(n: Setting<R, T, E>, refs: set<R>, w0: World<R, T, E>, r: R, s: R, t: T, u: T)
    requires Leads(n, refs, w0, Installed(r, s, t, u)) && r != s && t != u && t != n.noToken && u != n.noToken
    requires FileOf(n, r) == FileOf(n, s)
    ensures var w := Obtained(n, Installed(r, s, t, u), s, 0);
            Leads(n, refs, w0, w) && Muddled(n, w, r) && AllButOne(w)
  {
    var w1 := Installed<R, T, E>(r, s, t, u);
    Obtain(n, refs, w0, w1, s, 0);
    var w := Obtained(n, w1, s, 0);
    assert w.tokens == map[];
    assert w.tokenJson.Keys == {r, s} && w.certs.Keys == {0};
    assert |w.tokenJson| == |w.tokenJson.Keys| == 2 && |w.certs| == |w.certs.Keys| == 1;
  }

  function One<R(==), T>(r: R, t: T): map<R, T> { map[r := t] }

  lemma OneValue<R, T>(r: R, t: T)
    ensures One(r, t).Values == {t}
  {
    assert One(r, t)[r] == t;
  }

  function Single<R(==), T(==), E(==)>(r: R, t: T): World<R, T, E> {
    World(One(r, t), One(r, t), map[], map[], map[], map[], map[], One(r, t), {t})
  }

  lemma InstallOne<R(!new), T(!new), E>(n: Setting<R, T, E>, refs: set<R>, r: R, t: T)
    requires t != n.noToken && r in refs
    ensures Reachable(n, refs, Single<R, T, E>(r, t))
  {
    var w := Initial<R, T, E>();
    LeadsNowhere(n, refs, w);
    OneValue(r, t);
    InstallAnew(w, [r], One(r, t));
    LeadsInstall(n, refs, w, w, [r], One(r, t));
    assert InstallResult(w, [r], One(r, t)) == Single(r, t);
  }

  /** The reference was added and removed; only its status file is left. */
  function Gone<R, T, E>(n: Setting<R, T, E>, r: R, t: T): World<R, T, E> {
    World(map[], map[], map[], map[FileOf(n, r) := Added], map[], map[], map[], One(r, t), {t})
  }

  function Back<R, T, E>(n: Setting<R, T, E>, r: R, t: T, u: T): World<R, T, E> {
    World(One(r, u), One(r, u), map[], map[FileOf(n, r) := Added], map[], map[], map[], One(r, u), {t, u})
  }

  lemma LeavesStatus<R(!new), T(!new), E>(n: Setting<R, T, E>, refs: set<R>, r: R, t: T)
    requires r in refs && t != n.noToken && FileOf(n, r) != r
    ensures Reachable(n, refs, Gone(n, r, t))
  {
    var w1, w0 := Single<R, T, E>(r, t), Initial<R, T, E>();
    InstallOne<R, T, E>(n, refs, r, t);
    LeadsNext(n, refs, w0, w1, AddRequest(r, AddReturned(None, true)));
    var w2 := AfterConfirm(n, AfterRegister(n, w1, r, t), r);
    Dismiss(n, refs, w0, w2);
    var w3 := Dismissed(w2);
    RemovalIs(n, w3, r, None);
    LeadsNext(n, refs, w0, w3, RemoveRequest(r, Removing(None)));
    assert Removed(w3, r, None) == Gone(n, r, t);
  }

  lemma BackIs<R(!new), T(!new), E>(n: Setting<R, T, E>, r: R, t: T, u: T)
    ensures InstallResult(Gone<R, T, E>(n, r, t), [r], One(r, u)) == Back(n, r, t, u)
    ensures AllButOne(Back<R, T, E>(n, r, t, u))
  {
    InstallAnew(Gone<R, T, E>(n, r, t), [r], One(r, u));
    OneValue(r, u);
    assert One(r, t) + One(r, u) == One(r, u);
  }

  lemma ComesBack<R(!new), T(!new), E>(n: Setting<R, T, E>, refs: set<R>, r: R, t: T, u: T)
    requires n.reuse && r in refs && t != u && t != n.noToken && u != n.noToken && FileOf(n, r) != r
    ensures Reachable(n, refs, Back(n, r, t, u)) && Muddled(n, Back(n, r, t, u), r) && AllButOne(Back(n, r, t, u))
  {
    LeavesStatus(n, refs, r, t);
    LeadsInstall(n, refs, Initial(), Gone(n, r, t), [r], One(r, u));
    BackIs<R, T, E>(n, r, t, u);
  }

  /** Where the condition fails, some run muddles a reference. */
  lemma MuddleIsReachable<R(!new), T(!new), E>(n: Setting<R, T, E>, refs: set<R>, t: T, u: T)
    requires t != u && t != n.noToken && u != n.noToken && !CleanStatuses(n, refs)
    ensures exists w, r :: Reachable(n, refs, w) && Muddled(n, w, r) && AllButOne(w)
  {
    if n.reuse {
      var r :| r in refs && FileOf(n, r) != r;
      ComesBack(n, refs, r, t, u);
    } else {
      var r, s :| r in refs && s in refs && FileOf(n, r) == FileOf(n, s) && r != s;
      InstallBoth<R, T, E>(n, refs, r, s, t, u);
      SharedFile<R, T, E>(n, refs, Initial(), r, s, t, u);
    }
  }

  // --- Statuses that are sent ---

  /** A check that is not interrupted tells the master that the token is ready exactly when the
      registry accepts it. */
  ghost predicate TellsTruth<R(!new), T, E>(n: Setting<R, T, E>, w: World<R, T, E>, ref: R)
    requires ref in w.history
  {
    var w' := CheckResult(n, w, ref, w.history[ref], CheckCalls(false, false));
    FileOf(n, ref) in w.statuses ==>
      ref in w'.sent && w'.sent[ref].token == w.history[ref]
          && (w'.sent[ref].status == Added <==> w.history[ref] in w'.tokens)
  }

  lemma StatusesTellTruth<R(!new), T(!new), E>(n: Setting<R, T, E>, w: World<R, T, E>, ref: R)
    requires StatusesAgree(n, w) && ref in w.history
    ensures TellsTruth(n, w, ref)
  {
  }

  /** The muddled reference is checked first, and then its token is accepted. */
  function Mislabelled<R, T, E>(n: Setting<R, T, E>, w: World<R, T, E>, r: R): World<R, T, E>
    requires r in w.adds
  {
    AfterRegister(n, AfterSend(AfterStatus(w, FileOf(n, r), Used), r, w.adds[r], Used), r, w.adds[r])
  }

  lemma Mislabel<R(!new), T(!new), E>(n: Setting<R, T, E>, refs: set<R>, w0: World<R, T, E>, w: World<R, T, E>, r: R)
    requires Leads(n, refs, w0, w) && Muddled(n, w, r)
    ensures var w' := Mislabelled(n, w, r);
            Leads(n, refs, w0, w') && r in w'.tokenJson && r in w'.history && !TellsTruth(n, w', r)
  {
    var w1 := AfterSend(AfterStatus(w, FileOf(n, r), Used), r, w.adds[r], Used);
    LeadsNext(n, refs, w0, w, Check(r, CheckCalls(false, false)));
    LeadsNext(n, refs, w0, w1, AddRequest(r, AddRaised(true)));
  }

  /** In every run over these references each check of a live one tells the truth, if and only if
      none of them meets a status file that is not its own. */
  lemma StatusesTellTruthExactly<R(!new), T(!new), E(!new)>(n: Setting<R, T, E>, refs: set<R>, t: T, u: T)
    requires t != u && t != n.noToken && u != n.noToken
    ensures (forall w, r | Reachable(n, refs, w) && r in w.tokenJson :: r in w.history && TellsTruth(n, w, r))
       <==> CleanStatuses(n, refs)
  {
    if CleanStatuses(n, refs) {
      forall w, r | Reachable(n, refs, w) && r in w.tokenJson ensures r in w.history && TellsTruth(n, w, r) {
        ReachableIs(n, refs, w);
        StatusesTellTruth(n, w, r);
      }
    } else {
      MuddleIsReachable(n, refs, t, u);
      var w, r :| Reachable(n, refs, w) && Muddled(n, w, r);
      Mislabel(n, refs, Initial<R, T, E>(), w, r);
    }
  }

  // --- Certificates of one e-mail ---

  /** A live reference whose e-mail has two certificates; no token is accepted. */
  ghost predicate Crowded<R(!new), T, E>(n: Setting<R, T, E>, w: World<R, T, E>, r: R, c: Cn, d: Cn) {
    && r in w.tokenJson && w.tokenJson[r] != n.noToken && w.tokens == map[] && w.removes == map[] && c != d
    && c in w.certs && d in w.certs && w.certs[c].email == w.certs[d].email == MailOf(n, r)
  }

  /** A muddled reference obtains a certificate before it is added, and another one after. */
  function Doubled<R, T, E>(n: Setting<R, T, E>, w: World<R, T, E>, r: R): World<R, T, E>
    requires r in w.adds && r in w.history && FileOf(n, r) in w.statuses
  {
    Obtained(n, Hastened(n, w, r, 1), r, 2)
  }

  lemma HastenedIs<R(!new), T(!new), E>(n: Setting<R, T, E>, w: World<R, T, E>, r: R)
    requires Muddled(n, w, r)
    ensures CanObtain(n, w, r, 1) && CanObtain(n, Hastened(n, w, r, 1), r, 2)
  {
  }

  lemma DoubledIs<R(!new), T(!new), E>(n: Setting<R, T, E>, w: World<R, T, E>, r: R)
    requires Muddled(n, w, r)
    ensures Crowded(n, Doubled(n, w, r), r, 1, 2) && Doubled(n, w, r).tokenJson == w.tokenJson
    ensures Doubled(n, w, r).certs == w.certs[1 := Grant(MailOf(n, r), r)][2 := Grant(MailOf(n, r), r)]
  {
  }

  lemma TwoMore<V>(m: map<Cn, V>, v: V)
    requires m.Keys <= {0}
    ensures |m[1 := v][2 := v]| == |m| + 2
  {
    assert m[1 := v][2 := v].Keys == m.Keys + {1} + {2};
    assert |m[1 := v][2 := v]| == |m[1 := v][2 := v].Keys| && |m| == |m.Keys|;
  }

  lemma Double<R(!new), T(!new), E>(n: Setting<R, T, E>, refs: set<R>, w0: World<R, T, E>, w: World<R, T, E>, r: R)
    requires Leads(n, refs, w0, w) && Muddled(n, w, r)
    ensures Leads(n, refs, w0, Doubled(n, w, r)) && Crowded(n, Doubled(n, w, r), r, 1, 2)
  {
    HastenedIs(n, w, r);
    Hasten(n, refs, w0, w, r, 1);
    Obtain(n, refs, w0, Hastened(n, w, r, 1), r, 2);
    DoubledIs(n, w, r);
  }

  /** Two references with one e-mail that have both obtained a certificate. */
  lemma SharedMail<R(!new), T(!new), E>(n: Setting<R, T, E>, refs: set<R>, w0: World<R, T, E>, r: R, s: R, t: T, u: T)
    requires Leads(n, refs, w0, Installed(r, s, t, u)) && r != s && t != u && t != n.noToken && u != n.noToken
    requires MailOf(n, r) == MailOf(n, s)
    ensures var w := Obtained(n, Obtained(n, Installed(r, s, t, u), s, 0), r, 1);
            Leads(n, refs, w0, w) && Crowded(n, w, r, 0, 1)
  {
    var w1 := Installed<R, T, E>(r, s, t, u);
    Obtain(n, refs, w0, w1, s, 0);
    Obtain(n, refs, w0, Obtained(n, w1, s, 0), r, 1);
  }

  lemma CrowdIsReachable<R(!new), T(!new), E>(n: Setting<R, T, E>, refs: set<R>, t: T, u: T)
    requires t != u && t != n.noToken && u != n.noToken && !(DistinctEmails(n, refs) && CleanStatuses(n, refs))
    ensures exists w, r, c, d :: Reachable(n, refs, w) && Crowded(n, w, r, c, d)
  {
    if CleanStatuses(n, refs) {
      var r, s :| r in refs && s in refs && MailOf(n, r) == MailOf(n, s) && r != s;
      InstallBoth<R, T, E>(n, refs, r, s, t, u);
      SharedMail<R, T, E>(n, refs, Initial(), r, s, t, u);
    } else {
      MuddleIsReachable(n, refs, t, u);
      var w, r :| Reachable(n, refs, w) && Muddled(n, w, r);
      Double(n, refs, Initial(), w, r);
    }
  }

  /** In every run over these references an e-mail has at most one certificate, if and only if no
      two of them share an e-mail and none meets a status file that is not its own. */
  lemma OneCertificateExactly<R(!new), T(!new), E(!new)>(n: Setting<R, T, E>, refs: set<R>, t: T, u: T)
    requires t != u && t != n.noToken && u != n.noToken
    ensures (forall w | Reachable(n, refs, w) :: UniqueCerts(w)) <==> DistinctEmails(n, refs) && CleanStatuses(n, refs)
  {
    if DistinctEmails(n, refs) && CleanStatuses(n, refs) {
      forall w | Reachable(n, refs, w) ensures UniqueCerts(w) {
        ReachableIs(n, refs, w);
        BalancedIsUnique(n, w);
      }
    } else {
      CrowdIsReachable(n, refs, t, u);
      var w, r, c, d :| Reachable(n, refs, w) && Crowded(n, w, r, c, d);
      assert !UniqueCerts(w);
    }
  }

  // --- Certificates that a removal leaves ---

  /** The removal of the crowded reference revokes one certificate and leaves the other. */
  lemma CrowdSurvives<R(!new), T(!new), E>(n: Setting<R, T, E>, refs: set<R>, w0: World<R, T, E>, w: World<R, T, E>,
                                           r: R, c: Cn, d: Cn)
    requires Leads(n, refs, w0, w) && Crowded(n, w, r, c, d)
    ensures Leads(n, refs, w0, Dismissed(w))
    ensures var event := Event<R, T>.RemoveRequest(r, Removing(Some(c)));
      Vanishes(n, Dismissed(w), event, r) && !NoCertificate(n, Next(n, Dismissed(w), event), r)
  {
    Dismiss(n, refs, w0, w);
    RemovalIs(n, Dismissed(w), r, Some(c));
    assert d in Removed(Dismissed(w), r, Some(c)).certs;
  }

  /** In every run over these references a `.remove` file that vanishes leaves no certificate for its
      e-mail, if and only if the same condition holds. */
  lemma RemovalLeavesNoneExactly<R(!new), T(!new), E(!new)>(n: Setting<R, T, E>, refs: set<R>, t: T, u: T)
    requires t != u && t != n.noToken && u != n.noToken
    ensures (forall w, event, r | Reachable(n, refs, w) && Inside(event, refs) && Vanishes(n, w, event, r) ::
               NoCertificate(n, Next(n, w, event), r))
       <==> DistinctEmails(n, refs) && CleanStatuses(n, refs)
  {
    if DistinctEmails(n, refs) && CleanStatuses(n, refs) {
      forall w, event, r | Reachable(n, refs, w) && Inside(event, refs) && Vanishes(n, w, event, r)
        ensures NoCertificate(n, Next(n, w, event), r)
      {
        LeadsNext(n, refs, Initial(), w, event);
        ReachableIs(n, refs, w);
        ReachableIs(n, refs, Next(n, w, event));
        VanishingFinishes(n, w, event, r);
        FinishedHasNone(n, Next(n, w, event), r);
      }
    } else {
      CrowdIsReachable(n, refs, t, u);
      var w, r, c, d :| Reachable(n, refs, w) && Crowded(n, w, r, c, d);
      CrowdSurvives(n, refs, Initial(), w, r, c, d);
    }
  }

  // --- Certificates that nobody answers for ---

  /** Everything is to be removed, and there are more certificates than references. */
  ghost predicate Overfull<R(!new), T, E>(n: Setting<R, T, E>, w: World<R, T, E>) {
    w.tokenJson == map[] && w.tokens == map[] && |w.certs| > |w.removes|
    && forall r | r in w.removes :: w.removes[r] != n.noToken
  }

  lemma SizeWithout<K, V>(m: map<K, V>, keys: set<K>)
    ensures |m - keys| >= |m| - |keys|
    ensures keys <= m.Keys ==> |m - keys| == |m| - |keys|
  {
    assert (m - keys).Keys == m.Keys - keys;
    assert |m - keys| == |(m - keys).Keys| && |m| == |m.Keys|;
    assert m.Keys - keys == m.Keys - (m.Keys * keys);
    assert |m.Keys * keys| <= |keys| by { SubsetSize(m.Keys * keys, keys); }
    if keys <= m.Keys { assert m.Keys * keys == keys; }
  }

  lemma StaysOverfull<R(!new), T(!new), E>(n: Setting<R, T, E>, w: World<R, T, E>, r: R, prefix: Option<Cn>)
    requires Overfull(n, w) && r in w.removes
    ensures Overfull(n, Removed(w, r, prefix)) && |Removed(w, r, prefix).removes| < |w.removes|
  {
    SizeWithout(w.removes, {r});
    if prefix.Some? { SizeWithout(w.certs, {prefix.value}); }
  }

  lemma DrainOne<R(!new), T(!new), E>(n: Setting<R, T, E>, refs: set<R>, w0: World<R, T, E>, w: World<R, T, E>, r: R)
    requires Leads(n, refs, w0, w) && Overfull(n, w) && r in w.removes
    ensures exists prefix :: Leads(n, refs, w0, Removed(w, r, prefix))
  {
    var prefix := None;
    if cn :| cn in w.certs && w.certs[cn].email == MailOf(n, r) { prefix := Some(cn); }
    RemovalIs(n, w, r, prefix);
    LeadsNext(n, refs, w0, w, RemoveRequest(r, Removing(prefix)));
    assert Leads(n, refs, w0, Removed(w, r, prefix));
  }

  /** However the removals go, a certificate is left in the end. */
  lemma {:induction false} Drain<R(!new), T(!new), E>(n: Setting<R, T, E>, refs: set<R>, w0: World<R, T, E>,
                                                      w: World<R, T, E>)
    requires Leads(n, refs, w0, w) && Overfull(n, w)
    ensures exists w' :: Leads(n, refs, w0, w') && !Answered(n, w')
    decreases |w.removes|
  {
    if w.removes == map[] {
      assert w.certs != map[];
      var cn :| cn in w.certs;
      assert !Answered(n, w);
    } else {
      var r :| r in w.removes;
      DrainOne(n, refs, w0, w, r);
      var prefix :| Leads(n, refs, w0, Removed(w, r, prefix));
      StaysOverfull(n, w, r, prefix);
      Drain(n, refs, w0, Removed(w, r, prefix));
    }
  }

  /** In every run over these references each certificate has a live or pending reference with its
      e-mail, if and only if none of them meets a status file that is not its own. */
  lemma AnsweredExactly<R(!new), T(!new), E(!new)>(n: Setting<R, T, E>, refs: set<R>, t: T, u: T)
    requires t != u && t != n.noToken && u != n.noToken
    ensures (forall w | Reachable(n, refs, w) :: Answered(n, w)) <==> CleanStatuses(n, refs)
  {
    if CleanStatuses(n, refs) {
      forall w | Reachable(n, refs, w) ensures Answered(n, w) {
        ReachableIs(n, refs, w);
        BalancedAnswers(n, w);
      }
    } else {
      MuddleIsReachable(n, refs, t, u);
      var w, r :| Reachable(n, refs, w) && Muddled(n, w, r) && AllButOne(w);
      ReachableIs(n, refs, w);
      Double(n, refs, Initial(), w, r);
      DoubledIs(n, w, r);
      TwoMore(w.certs, Grant(MailOf(n, r), r));
      var w1 := Doubled(n, w, r);
      Dismiss(n, refs, Initial(), w1);
      Drain(n, refs, Initial(), Dismissed(w1));
    }
  }

  // --- Certificates of live references ---

  /** The certificate was obtained with the token of a reference that is live. */
  predicate IsLive<R, T, E>(w: World<R, T, E>, cn: Cn) { cn in w.certs && w.certs[cn].ref in w.tokenJson }

  ghost predicate SparesLive<R(!new), T, E>(w: World<R, T, E>, w': World<R, T, E>) {
    forall cn | IsLive(w, cn) :: cn in w'.certs
  }

  /** A request to remove can revoke a live certificate exactly when some live certificate is for
      the e-mail of the reference that is removed. */
  lemma RemovalHitsLiveExactly<R(!new), T(!new), E>(n: Setting<R, T, E>, w: World<R, T, E>, ref: R)
    requires GrantsName(n, w) && ref in w.removes && w.removes[ref] != n.noToken
    ensures (exists calls :: TruthfulCalls(n, w, ref, calls) && !SparesLive(w, RemoveResult(n, w, ref, calls)))
       <==> exists cn :: IsLive(w, cn) && MailOf(n, w.certs[cn].ref) == MailOf(n, ref)
  {
    forall calls | TruthfulCalls(n, w, ref, calls) && !SparesLive(w, RemoveResult(n, w, ref, calls))
      ensures exists cn :: IsLive(w, cn) && MailOf(n, w.certs[cn].ref) == MailOf(n, ref)
    {
      var cn :| IsLive(w, cn) && cn !in RemoveResult(n, w, ref, calls).certs;
      assert Names(n, w, w.certs[cn]) && calls.prefix == Some(cn);
    }
    if cn :| IsLive(w, cn) && MailOf(n, w.certs[cn].ref) == MailOf(n, ref) {
      assert Names(n, w, w.certs[cn]);
      var calls := RemoveCalls(false, true, false, false, Some(cn), false, true);
      assert TruthfulCalls(n, w, ref, calls) && cn !in RemoveResult(n, w, ref, calls).certs;
    }
  }

  lemma DistinctSpares<R(!new), T(!new), E>(n: Setting<R, T, E>, w: World<R, T, E>, event: Event<R, T>)
    requires FilesAgree(w) && GrantsName(n, w) && DistinctEmails(n, w.history.Keys) && Enabled(n, w, event)
    ensures SparesLive(w, Next(n, w, event))
  {
    if event.RemoveRequest? && event.ref in w.removes {
      forall cn | IsLive(w, cn) ensures cn in Next(n, w, event).certs {
        assert Names(n, w, w.certs[cn]) && w.certs[cn].ref != event.ref;
        assert MailOf(n, w.certs[cn].ref) != MailOf(n, event.ref);
      }
    }
  }

  /** The first of two references is to be removed, and the second has a certificate. */
  function Leaving<R(==), T(==), E(==)>(n: Setting<R, T, E>, r: R, s: R, t: T, u: T): World<R, T, E>
    requires r != s
  {
    Obtained(n, Installed(r, s, t, u), s, 0).(tokenJson := One(s, u), adds := map[], removes := One(r, t))
  }

  /** With the same e-mail, the removal of `r` revokes the certificate of `s`. */
  lemma RevokesLive<R(!new), T(!new), E>(n: Setting<R, T, E>, refs: set<R>, w0: World<R, T, E>, r: R, s: R, t: T, u: T)
    requires Leads(n, refs, w0, Installed(r, s, t, u)) && r != s && t != u && t != n.noToken && u != n.noToken
    requires MailOf(n, r) == MailOf(n, s)
    ensures var w, event := Leaving(n, r, s, t, u), Event<R, T>.RemoveRequest(r, Removing(Some(0)));
      Leads(n, refs, w0, w) && Enabled(n, w, event) && !SparesLive(w, Next(n, w, event))
  {
    var w1 := Obtained(n, Installed(r, s, t, u), s, 0);
    Obtain(n, refs, w0, Installed(r, s, t, u), s, 0);
    KeepSecond(n, refs, w0, w1, r, s, t, u);
    RemovalIs(n, Leaving(n, r, s, t, u), r, Some(0));
    assert IsLive(Leaving(n, r, s, t, u), 0);
  }

  /** `install` without the first one. */
  lemma KeepSecond<R(!new), T(!new), E>(n: Setting<R, T, E>, refs: set<R>, w0: World<R, T, E>, w: World<R, T, E>, r: R,
                                        s: R, t: T, u: T)
    requires Leads(n, refs, w0, w) && r != s && w.tokenJson == Both(r, s, t, u) && w.adds == One(r, t)
             && w.removes == map[]
    ensures Leads(n, refs, w0, w.(tokenJson := One(s, u), adds := map[], removes := One(r, t)))
  {
    KeepSecondIs(w, r, s, t, u);
    LeadsNext(n, refs, w0, w, Install([s], map[]));
  }

  lemma KeepSecondIs<R(!new), T(!new), E>(w: World<R, T, E>, r: R, s: R, t: T, u: T)
    requires r != s && w.tokenJson == Both(r, s, t, u) && w.adds == One(r, t) && w.removes == map[]
    ensures NewRefs(w, [s]) == {}
    ensures InstallResult(w, [s], map[]) == w.(tokenJson := One(s, u), adds := map[], removes := One(r, t))
  {
    var none: map<R, T> := map[];
    assert GoneRefs(w, [s]) == One(r, t);
    assert (w.tokenJson + none) - {r} == One(s, u) && (none + w.adds) - ({r} - {}) == none;
    assert One(r, t) + w.removes == One(r, t) && w.history + none == w.history;
    assert none.Values == {} && w.drawn + {} == w.drawn;
  }

  /** No run over these references revokes a certificate of a live one, if and only if no two of
      them have the same e-mail. */
  lemma LiveCertificatesExactly<R(!new), T(!new), E(!new)>(n: Setting<R, T, E>, refs: set<R>, t: T, u: T)
    requires t != u && t != n.noToken && u != n.noToken
    ensures (forall w, event | Reachable(n, refs, w) && Enabled(n, w, event) && Inside(event, refs) ::
               SparesLive(w, Next(n, w, event)))
       <==> DistinctEmails(n, refs)
  {
    if DistinctEmails(n, refs) {
      forall w, event | Reachable(n, refs, w) && Enabled(n, w, event) && Inside(event, refs)
        ensures SparesLive(w, Next(n, w, event))
      {
        ReachableIs(n, refs, w);
        DistinctSpares(n, w, event);
      }
    } else {
      var r, s :| r in refs && s in refs && MailOf(n, r) == MailOf(n, s) && r != s;
      InstallBoth<R, T, E>(n, refs, r, s, t, u);
      RevokesLive(n, refs, Initial(), r, s, t, u);
    }
  }

  // --- References that are forgotten ---

  /** The second of two references was added, and the first is to be removed. */
  function Dropped<R(==), T(==), E(==)>(n: Setting<R, T, E>, r: R, s: R, t: T, u: T): World<R, T, E> {
    AfterConfirm(n, AfterRegister(n, Installed(r, s, t, u), s, u), s).(tokenJson := One(s, u), adds := map[],
        removes := One(r, t))
  }

  /** When the status file of `s` is named after `r`, the removal of `r` unlinks it, and `s` has
      neither a request nor a status although it is live. */
  lemma Forgets<R(!new), T(!new), E>(n: Setting<R, T, E>, refs: set<R>, w0: World<R, T, E>, r: R, s: R, t: T, u: T)
    requires Leads(n, refs, w0, Installed(r, s, t, u)) && r != s && t != u && t != n.noToken && u != n.noToken
    requires FileOf(n, s) == r
    ensures var w := Removed(Dropped(n, r, s, t, u), r, None);
            Leads(n, refs, w0, w) && s in w.tokenJson && s !in w.adds && FileOf(n, s) !in w.statuses
  {
    var w1 := Installed<R, T, E>(r, s, t, u);
    LeadsNext(n, refs, w0, w1, AddRequest(s, AddReturned(None, true)));
    KeepSecond(n, refs, w0, AfterConfirm(n, AfterRegister(n, w1, s, u), s), r, s, t, u);
    RemovalIs(n, Dropped(n, r, s, t, u), r, None);
    LeadsNext(n, refs, w0, Dropped(n, r, s, t, u), RemoveRequest(r, Removing(None)));
  }

  /** No run over these references forgets a live one, if and only if no status file is named
      after another of them. */
  lemma NoneForgottenExactly<R(!new), T(!new), E(!new)>(n: Setting<R, T, E>, refs: set<R>, t: T, u: T)
    requires t != u && t != n.noToken && u != n.noToken
    ensures (forall w | Reachable(n, refs, w) :: Covered(n, w)) <==> OwnStatuses(n, refs)
  {
    if OwnStatuses(n, refs) {
      forall w | Reachable(n, refs, w) ensures Covered(n, w) { ReachableIs(n, refs, w); }
    } else {
      var s, r :| s in refs && r in refs && FileOf(n, s) == r && s != r;
      InstallBoth<R, T, E>(n, refs, r, s, t, u);
      Forgets(n, refs, Initial(), r, s, t, u);
      assert !Covered(n, Removed(Dropped(n, r, s, t, u), r, None));
    }
  }
}
