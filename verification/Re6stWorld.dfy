/**
 The re6st token protocol as steps over one world: the files that `install` and `manage`
 share, and the registry that either may fail to reach. The types R, T and E stand for
 references, tokens and e-mails; module Re6stSite gives them as strings.
 */
module Re6stWorld {
  import opened Common

  type Cn = nat

  /** Content of a `.status` file: TOKEN_ADDED or TOKEN_USED. */
  datatype Status = Added | Used

  /** What `checkService` last sent to the master for a reference. */
  datatype Info<T> = Info(token: T, status: Status)

  /** What the registry stores with a token and with the certificate obtained from it: the
      e-mail. `ref` records for which reference it was given and is never consulted. */
  datatype Grant<R, E> = Grant(email: E, ref: R)

  /** `tokenJson` is token.json; `adds` and `removes` are the `.add` and `.remove` files by
      reference, and `statuses` the `.status` files by what their names have before the
      suffix; `tokens` and `certs` are the tokens the registry
      accepts and the certificates it has issued and not revoked.
      `history` records the last token drawn for each reference that ever entered token.json,
      and `drawn` all tokens ever drawn. */
  datatype World<!R(==), !T(==), E(==)> = World(
    tokenJson: map<R, T>,
    adds: map<R, T>,
    removes: map<R, T>,
    statuses: map<R, Status>,
    sent: map<R, Info<T>>,
    tokens: map<T, Grant<R, E>>,
    certs: map<Cn, Grant<R, E>>,
    history: map<R, T>,
    drawn: set<T>)

  /** How references become e-mails and names of status files, the content of a request file that
      is not a token, and whether a reference may come back once its removal is finished. */
  datatype Setting<!R, T(==), E(==)> = Setting(emailOf: R -> E, statusOf: R -> R, noToken: T, reuse: bool)

  function MailOf<R, T, E>(n: Setting<R, T, E>, ref: R): E { n.emailOf(ref) }

  function FileOf<R, T, E>(n: Setting<R, T, E>, ref: R): R { n.statusOf(ref) }

  function Initial<R(==), T(==), E(==)>(): World<R, T, E> {
    World(map[], map[], map[], map[], map[], map[], map[], map[], {})
  }

  // --- install ---

  function NewRefs<R, T, E>(w: World<R, T, E>, refs: seq<R>): set<R> {
    set r | r in refs && r !in w.tokenJson
  }

  function GoneRefs<R, T, E>(w: World<R, T, E>, refs: seq<R>): map<R, T> {
    map r | r in w.tokenJson && r !in refs :: w.tokenJson[r]
  }

  /** `added` holds a token for each new reference. Existing request files are kept, and a
      `.add` file goes only when its `.remove` file is written. */
  function InstallResult<R, T, E>(w: World<R, T, E>, refs: seq<R>, added: map<R, T>): World<R, T, E> {
    var gone := GoneRefs(w, refs);
    w.(tokenJson := (w.tokenJson + added) - gone.Keys,
       adds := (added + w.adds) - (gone.Keys - w.removes.Keys),
       removes := gone + w.removes,
       history := w.history + added,
       drawn := w.drawn + added.Values)
  }

  // --- manage ---

  /** One call of `addToken`: it raises or answers, and either way may have had its effect. */
  datatype AddCall<T(==)> = AddRaised(effect: bool) | AddReturned(answer: Option<T>, effect: bool)

  predicate Accepted<T(==)>(token: T, call: AddCall<T>) {
    call.AddReturned? && (call.answer == None || call.answer == Some(token))
  }

  /** `addToken` took effect. */
  function AfterRegister<R, T, E>(n: Setting<R, T, E>, w: World<R, T, E>, ref: R, token: T): (r: World<R, T, E>)
    ensures r.tokenJson == w.tokenJson && r.removes == w.removes && r.adds == w.adds
    ensures r.statuses == w.statuses && r.sent == w.sent && r.certs == w.certs && r.history == w.history
            && r.drawn == w.drawn
  {
    w.(tokens := w.tokens[token := Grant(MailOf(n, ref), ref)])
  }

  function AfterConfirm<R, T, E>(n: Setting<R, T, E>, w: World<R, T, E>, ref: R): (r: World<R, T, E>)
    ensures r.tokenJson == w.tokenJson && r.removes == w.removes && r.tokens == w.tokens
    ensures r.certs == w.certs && r.sent == w.sent && r.history == w.history && r.drawn == w.drawn
  {
    w.(statuses := w.statuses[FileOf(n, ref) := Added], adds := w.adds - {ref})
  }

  function AddResult<R, T, E>(n: Setting<R, T, E>, w: World<R, T, E>, ref: R, call: AddCall<T>): (r: World<R, T, E>)
    ensures r.tokenJson == w.tokenJson && r.removes == w.removes && r.certs == w.certs && r.sent == w.sent
    ensures r.history == w.history && r.drawn == w.drawn
  {
    if ref !in w.adds || w.adds[ref] == n.noToken then w
    else
      var token := w.adds[ref];
      var w1 := if call.effect then AfterRegister(n, w, ref, token) else w;
      if Accepted(token, call) then AfterConfirm(n, w1, ref) else w1
  }

  /** The answers of the registry during one pass of `requestRemoveToken`. A call that raises
      may have had its effect, and a `deleteToken` that returns may not. */
  datatype RemoveCalls = RemoveCalls(
    deleteRaises: bool, deleteEffect: bool,
    isTokenRaises: bool,
    prefixRaises: bool, prefix: Option<Cn>,
    revokeRaises: bool, revokeEffect: bool)

  function AfterDelete<R, T, E>(w: World<R, T, E>, token: T, calls: RemoveCalls): (r: World<R, T, E>)
    ensures r.tokenJson == w.tokenJson && r.removes == w.removes && r.adds == w.adds
    ensures r.statuses == w.statuses && r.sent == w.sent && r.certs == w.certs && r.history == w.history
            && r.drawn == w.drawn
  {
    w.(tokens := if calls.deleteEffect then w.tokens - {token} else w.tokens)
  }

  function AfterRevoke<R, T, E>(w: World<R, T, E>, calls: RemoveCalls): (r: World<R, T, E>)
    ensures r.tokenJson == w.tokenJson && r.removes == w.removes && r.adds == w.adds
    ensures r.statuses == w.statuses && r.sent == w.sent && r.tokens == w.tokens && r.history == w.history
            && r.drawn == w.drawn
  {
    w.(certs := if calls.prefix.Some? && calls.revokeEffect then w.certs - {calls.prefix.value} else w.certs)
  }

  /** The status file is named after the request file here, so after the whole reference. */
  function AfterUnlink<R, T, E>(w: World<R, T, E>, ref: R): (r: World<R, T, E>)
    ensures r.tokenJson == w.tokenJson && r.tokens == w.tokens && r.adds == w.adds
    ensures r.certs == w.certs && r.sent == w.sent && r.history == w.history && r.drawn == w.drawn
  {
    w.(removes := w.removes - {ref}, statuses := w.statuses - {ref})
  }

  function RemoveResult<R, T, E>(n: Setting<R, T, E>, w: World<R, T, E>, ref: R,
                                 calls: RemoveCalls): (r: World<R, T, E>)
    ensures r.tokenJson == w.tokenJson && r.adds == w.adds && r.sent == w.sent
    ensures r.history == w.history && r.drawn == w.drawn
  {
    if ref !in w.removes || w.removes[ref] == n.noToken then w
    else
      var token := w.removes[ref];
      var w1 := AfterDelete(w, token, calls);
      if calls.deleteRaises || calls.isTokenRaises || token in w1.tokens || calls.prefixRaises then w1
      else
        var w2 := AfterRevoke(w1, calls);
        if calls.prefix.Some? && calls.revokeRaises then w2
        else AfterUnlink(w2, ref)
  }

  /** `getNodePrefix` answers a certificate of the e-mail, or nothing when there is none, and
      a `revoke` that returns has revoked. */
  ghost predicate TruthfulCalls<R, T, E>(n: Setting<R, T, E>, w: World<R, T, E>, ref: R, calls: RemoveCalls) {
    (match calls.prefix
     case Some(cn) => cn in w.certs && w.certs[cn].email == MailOf(n, ref)
     case None => forall cn | cn in w.certs :: w.certs[cn].email != MailOf(n, ref))
    && (calls.revokeRaises || calls.revokeEffect)
  }

  /** One pass of `checkService`; `isToken` raising leaves `manage`, while an exception of
      `setConnectionDict` is only logged. */
  datatype CheckCalls = CheckCalls(isTokenRaises: bool, sendRaises: bool)

  function AfterStatus<R, T, E>(w: World<R, T, E>, file: R, status: Status): (r: World<R, T, E>)
    ensures r.tokenJson == w.tokenJson && r.adds == w.adds && r.removes == w.removes
    ensures r.tokens == w.tokens && r.certs == w.certs && r.sent == w.sent && r.history == w.history
            && r.drawn == w.drawn
  {
    w.(statuses := w.statuses[file := status])
  }

  function AfterSend<R, T, E>(w: World<R, T, E>, ref: R, token: T, status: Status): (r: World<R, T, E>)
    ensures r.tokenJson == w.tokenJson && r.adds == w.adds && r.removes == w.removes
    ensures r.tokens == w.tokens && r.certs == w.certs && r.statuses == w.statuses && r.history == w.history
            && r.drawn == w.drawn
  {
    w.(sent := w.sent[ref := Info(token, status)])
  }

  function CheckResult<R, T, E>(n: Setting<R, T, E>, w: World<R, T, E>, ref: R, token: T,
                                calls: CheckCalls): (r: World<R, T, E>)
    ensures r.tokenJson == w.tokenJson && r.adds == w.adds && r.removes == w.removes
    ensures r.tokens == w.tokens && r.certs == w.certs && r.history == w.history && r.drawn == w.drawn
  {
    var file := FileOf(n, ref);
    if file !in w.statuses || calls.isTokenRaises then w
    else
      var status := if token !in w.tokens then Used else w.statuses[file];
      var w1 := AfterStatus(w, file, status);
      if calls.sendRaises then w1 else AfterSend(w1, ref, token, status)
  }

  /** The holder of a token that was sent for `ref` obtains a certificate with it. */
  predicate ClientUses<R, T, E>(w: World<R, T, E>, ref: R, cn: Cn) {
    ref in w.sent && w.sent[ref].token in w.tokens && cn !in w.certs
  }

  function ClientResult<R, T, E>(w: World<R, T, E>, ref: R, cn: Cn): World<R, T, E>
    requires ClientUses(w, ref, cn)
  {
    var token := w.sent[ref].token;
    w.(certs := w.certs[cn := w.tokens[token]], tokens := w.tokens - {token})
  }

  // --- Runs ---

  datatype Event<!R, T(==)> =
    | Install(refs: seq<R>, added: map<R, T>)
    | AddRequest(ref: R, addCall: AddCall<T>)
    | RemoveRequest(ref: R, removeCalls: RemoveCalls)
    | Check(ref: R, checkCalls: CheckCalls)
    | ClientUse(ref: R, cn: Cn)

  /** Drawn tokens are new. */
  ghost predicate FreshTokens<R(!new), T, E>(n: Setting<R, T, E>, w: World<R, T, E>, added: map<R, T>) {
    && (forall r | r in added :: added[r] != n.noToken && added[r] !in w.drawn)
    && (forall r, s | r in added && s in added && r != s :: added[r] != added[s])
  }

  /** No new reference still waits for its removal, and none comes back if that is ruled out. */
  predicate MayEnter<R, T, E>(n: Setting<R, T, E>, w: World<R, T, E>, refs: set<R>) {
    forall r | r in refs :: r !in w.removes && (r in w.history ==> n.reuse)
  }

  /** What may happen next. A `Check` may use a token read from an older token.json. */
  ghost predicate Enabled<R(!new), T, E>(n: Setting<R, T, E>, w: World<R, T, E>, event: Event<R, T>) {
    match event
    case Install(refs, added) => added.Keys == NewRefs(w, refs) && FreshTokens(n, w, added)
        && MayEnter(n, w, added.Keys)
    case AddRequest(ref, call) => true
    case RemoveRequest(ref, calls) => TruthfulCalls(n, w, ref, calls)
    case Check(ref, calls) => ref in w.history
    case ClientUse(ref, cn) => ClientUses(w, ref, cn)
  }

  ghost function Next<R(!new), T, E>(n: Setting<R, T, E>, w: World<R, T, E>, event: Event<R, T>): World<R, T, E>
    requires Enabled(n, w, event)
  {
    match event
    case Install(refs, added) => InstallResult(w, refs, added)
    case AddRequest(ref, call) => AddResult(n, w, ref, call)
    case RemoveRequest(ref, calls) => RemoveResult(n, w, ref, calls)
    case Check(ref, calls) => CheckResult(n, w, ref, w.history[ref], calls)
    case ClientUse(ref, cn) => ClientResult(w, ref, cn)
  }

  ghost predicate IsRun<R(!new), T, E>(n: Setting<R, T, E>, w: World<R, T, E>, events: seq<Event<R, T>>)
    decreases |events|
  {
    events == [] || (Enabled(n, w, events[0]) && IsRun(n, Next(n, w, events[0]), events[1..]))
  }

  ghost function After<R(!new), T, E>(n: Setting<R, T, E>, w: World<R, T, E>, events: seq<Event<R, T>>): World<R, T, E>
    requires IsRun(n, w, events)
    decreases |events|
  {
    if events == [] then w else After(n, Next(n, w, events[0]), events[1..])
  }

  // --- Conditions on the references in use ---

  ghost predicate DistinctEmails<R(!new), T, E>(n: Setting<R, T, E>, refs: set<R>) {
    forall r, s | r in refs && s in refs && MailOf(n, r) == MailOf(n, s) :: r == s
  }

  /** No two references share a status file. */
  ghost predicate DistinctStatuses<R(!new), T, E>(n: Setting<R, T, E>, refs: set<R>) {
    forall r, s | r in refs && s in refs && FileOf(n, r) == FileOf(n, s) :: r == s
  }

  /** No reference has a status file that is named after another one. */
  ghost predicate OwnStatuses<R(!new), T, E>(n: Setting<R, T, E>, refs: set<R>) {
    forall r, s | r in refs && s in refs && FileOf(n, r) == s :: r == s
  }

  /** Each reference has its whole name in that of its status file. */
  ghost predicate WholeStatuses<R(!new), T, E>(n: Setting<R, T, E>, refs: set<R>) {
    forall r | r in refs :: FileOf(n, r) == r
  }

  /** No reference meets a status file that it has not been given since it was installed: where
      references come back, theirs must have been unlinked; otherwise it is enough that none is
      shared. */
  ghost predicate CleanStatuses<R(!new), T, E>(n: Setting<R, T, E>, refs: set<R>) {
    if n.reuse then WholeStatuses(n, refs) else DistinctStatuses(n, refs)
  }

  /** The run installs no other references. */
  ghost predicate Within<R(!new), T>(events: seq<Event<R, T>>, refs: set<R>) {
    forall i | 0 <= i < |events| && events[i].Install? :: events[i].added.Keys <= refs
  }
}
