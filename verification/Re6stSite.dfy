/** The re6st recipe and its manager script over string references, tokens and e-mails. */
module Re6stSite {
  import opened Common
  import Re6stCertificates
  import Re6stLimits
  import Re6stPasses
  import Re6stSafety
  import opened Re6stWorld
  import opened Text

  type Ref = string
  type Token = string
  type Files = World<Ref, Token, string>
  type Events = seq<Event<Ref, Token>>

  function EmailOf(ref: Ref): string { Lower(ref) + "@slapos" }

  /** What `Path.with_suffix` keeps of a name: all before its last dot, unless that dot is the
      first or the last character. */
  function Stem(name: string): (r: string)
    ensures |r| <= |name|
  {
    var i := LastDot(name, |name|);
    if 0 < i < |name| - 1 then name[..i] else name
  }

  /** `name[..n].rfind('.')` */
  function LastDot(name: string, n: nat): (i: int)
    requires n <= |name|
    ensures -1 <= i < n && (i >= 0 ==> name[i] == '.') && forall j | i < j < n :: name[j] != '.'
  {
    if n == 0 then -1 else if name[n - 1] == '.' then n - 1 else LastDot(name, n - 1)
  }

  /** With references that may come back, or without. */
  function Rules(reuse: bool): Setting<Ref, Token, string> { Setting(EmailOf, Stem, "", reuse) }

  const RULES: Setting<Ref, Token, string> := Rules(true)

  /** `reference.split('-')[1]` exists. */
  predicate HasNumber(ref: Ref) { |Split(ref, '-')| > 1 }

  function NewToken(ref: Ref, letters: string): Token
    requires HasNumber(ref)
  {
    Split(ref, '-')[1] + letters
  }

  /** The tokens of new references, from the letters drawn for each. */
  function Drawn(refs: set<Ref>, letters: map<Ref, string>): map<Ref, Token>
    requires forall r | r in refs :: HasNumber(r) && r in letters
  {
    map r | r in refs :: NewToken(r, letters[r])
  }

  function Only<K, V>(m: map<K, V>, keys: set<K>): map<K, V> {
    map k | k in m && k in keys :: m[k]
  }

  function Absent(known: map<Ref, Token>, refs: seq<Ref>): set<Ref> {
    set r | r in refs && r !in known
  }

  /** The loop over references: a token for each one that has none yet. */
  method AddMissing(known: map<Ref, Token>, refs: seq<Ref>, letters: map<Ref, string>)
    returns (ok: bool, toAdd: map<Ref, Token>)
    requires forall r | r in refs :: r in letters
    ensures ok <==> forall r | r in refs && r !in known :: HasNumber(r)
    ensures ok ==> toAdd == Drawn(Absent(known, refs), letters)
    ensures ok ==> forall r :: r in toAdd <==> r in refs && r !in known
  {
    ok, toAdd := true, map[];
    for i := 0 to |refs|
      invariant forall r | r in refs[..i] && r !in known :: HasNumber(r)
      invariant toAdd == Drawn(Absent(known, refs[..i]), letters)
    {
      var reference := refs[i];
      assert refs[..i + 1] == refs[..i] + [reference];
      DrawnOneMore(known, refs[..i], reference, letters);
      if reference !in known + toAdd {
        if !HasNumber(reference) {
          ok := false;
          return;
        }
        toAdd := toAdd[reference := NewToken(reference, letters[reference])];
      }
    }
    assert refs[..|refs|] == refs;
  }

  lemma DrawnOneMore(known: map<Ref, Token>, refs: seq<Ref>, reference: Ref, letters: map<Ref, string>)
    requires (forall r | r in refs :: r in letters) && reference in letters
    requires forall r | r in refs && r !in known :: HasNumber(r)
    ensures reference in known || reference in refs ==> Absent(known, refs + [reference]) == Absent(known, refs)
    ensures reference !in known && reference !in refs && HasNumber(reference) ==>
      && (forall r | r in Absent(known, refs + [reference]) :: HasNumber(r) && r in letters)
      && Drawn(Absent(known, refs + [reference]), letters)
         == Drawn(Absent(known, refs), letters)[reference := NewToken(reference, letters[reference])]
  {
    assert Absent(known, refs + [reference])
        == Absent(known, refs) + if reference in known then {} else {reference};
  }

  /** The loop over the dictionary: pop every reference that is no longer listed. */
  method PopUnlisted<R(==), T>(full: map<R, T>, refs: seq<R>)
    returns (tokenDict: map<R, T>, toRemove: map<R, T>)
    ensures toRemove == map r | r in full && r !in refs :: full[r]
    ensures tokenDict == full - toRemove.Keys
  {
    tokenDict, toRemove := full, map[];
    var left := full.Keys;
    while left != {}
      invariant left <= full.Keys
      invariant toRemove == map r | r in full && r !in refs && r !in left :: full[r]
      invariant tokenDict == full - toRemove.Keys
      decreases left
    {
      var reference :| reference in left;
      left := left - {reference};
      if reference !in refs {
        toRemove := toRemove[reference := tokenDict[reference]];
        tokenDict := tokenDict - {reference};
      }
    }
  }

  /** `generateSlaveTokenList`: not ok when a new reference has no number. */
  method GenerateSlaveTokenList(known: map<Ref, Token>, refs: seq<Ref>, letters: map<Ref, string>)
    returns (ok: bool, tokenDict: map<Ref, Token>, toAdd: map<Ref, Token>, toRemove: map<Ref, Token>)
    requires forall r | r in refs :: r in letters
    ensures ok <==> forall r | r in refs && r !in known :: HasNumber(r)
    ensures ok ==> toAdd == Drawn(Absent(known, refs), letters)
    ensures ok ==> toRemove == map r | r in known && r !in refs :: known[r]
    ensures ok ==> tokenDict == (known + toAdd) - toRemove.Keys
  {
    tokenDict, toRemove := map[], map[];
    ok, toAdd := AddMissing(known, refs, letters);
    if ok {
      tokenDict, toRemove := PopUnlisted(known + toAdd, refs);
    }
  }

  class Site {
    // Files, by reference
    var tokenJson: map<Ref, Token>
    var adds: map<Ref, Token>
    var removes: map<Ref, Token>
    var statuses: map<Ref, Status>
    // The master and the registry
    var sent: map<Ref, Info<Token>>
    var tokens: map<Token, Grant<Ref, string>>
    var certs: map<Cn, Grant<Ref, string>>
    ghost var history: map<Ref, Token>
    ghost var drawn: set<Token>

    ghost function Files(): Files
      reads this
    {
      World(tokenJson, adds, removes, statuses, sent, tokens, certs, history, drawn)
    }

    constructor ()
      ensures Files() == Initial()
    {
      tokenJson, adds, removes, statuses := map[], map[], map[], map[];
      sent, tokens, certs, history, drawn := map[], map[], map[], map[], {};
    }

    method WriteAdds(toAdd: map<Ref, Token>)
      modifies this`adds
      ensures adds == toAdd + old(adds)
    {
      var left := toAdd.Keys;
      while left != {}
        invariant left <= toAdd.Keys
        invariant adds == (toAdd - left) + old(adds)
        decreases left
      {
        var reference :| reference in left;
        left := left - {reference};
        if reference !in adds {
          adds := adds[reference := toAdd[reference]];
        }
      }
    }

    method WriteRemoves(toRemove: map<Ref, Token>)
      modifies this`adds, this`removes
      ensures removes == toRemove + old(removes)
      ensures adds == old(adds) - (toRemove.Keys - old(removes).Keys)
    {
      var left := toRemove.Keys;
      while left != {}
        invariant left <= toRemove.Keys
        invariant removes == (toRemove - left) + old(removes)
        invariant adds == old(adds) - ((toRemove.Keys - left) - old(removes).Keys)
        decreases left
      {
        var reference :| reference in left;
        left := left - {reference};
        if reference !in removes {
          removes := removes[reference := toRemove[reference]];
          adds := adds - {reference};
        }
      }
    }

    /** The request files and token.json that `install` writes for the listed instances. */
    method Install(refs: seq<Ref>, letters: map<Ref, string>) returns (ok: bool)
      requires forall r | r in refs :: r in letters
      modifies this
      ensures ok <==> forall r | r in refs && r !in old(tokenJson) :: HasNumber(r)
      ensures Files() == if ok then InstallResult(old(Files()), refs, Drawn(Absent(old(tokenJson), refs), letters))
                         else old(Files())
      ensures ok ==> Drawn(Absent(old(tokenJson), refs), letters).Keys == NewRefs(old(Files()), refs)
    {
      var tokenDict, toAdd, toRemove;
      ok, tokenDict, toAdd, toRemove := GenerateSlaveTokenList(tokenJson, refs, letters);
      if ok {
        WriteAdds(toAdd);
        WriteRemoves(toRemove);
        assert toRemove == GoneRefs(old(Files()), refs);
        tokenJson := tokenDict;
        history := history + toAdd;
        drawn := drawn + toAdd.Values;
      }
    }

    /** One pass of the loop of `requestAddToken`. */
    method AddOne(ref: Ref, call: AddCall<Token>)
      modifies this
      ensures Files() == AddResult(RULES, old(Files()), ref, call)
    {
      var token := if ref in adds then adds[ref] else "";
      if token != "" {
        if call.effect {
          tokens := tokens[token := Grant(EmailOf(ref), ref)];
        }
        if call.AddRaised? {
          return;
        }
        if call.answer == Some(token) || call.answer == None {
          statuses := statuses[Stem(ref) := Added];
          adds := adds - {ref};
        }
      }
    }

    /** `requestAddToken` over the `.add` files found when it started; a file that is gone
        meanwhile reads as empty. */
    method RequestAddToken(paths: seq<Ref>, calls: seq<AddCall<Token>>) returns (ghost events: Events)
      requires |calls| == |paths|
      modifies this
      ensures events == AddEvents(paths, calls)
      ensures IsRun(RULES, old(Files()), events) && Files() == After(RULES, old(Files()), events)
    {
      events := [];
      for i := 0 to |paths|
        invariant events == AddEvents(paths[..i], calls[..i])
        invariant IsRun(RULES, old(Files()), events) && Files() == After(RULES, old(Files()), events)
      {
        ghost var event := AddRequest(paths[i], calls[i]);
        AddOne(paths[i], calls[i]);
        Re6stSafety.RunOneMore(RULES, old(Files()), events, event);
        events := events + [event];
      }
    }

    /** One pass of the loop of `requestRemoveToken`. */
    method RemoveOne(ref: Ref, calls: RemoveCalls) returns (crashed: bool)
      requires ref != ""
      modifies this
      ensures Files() == RemoveResult(RULES, old(Files()), ref, calls)
      ensures crashed <==> Re6stPasses.Crashes(RULES, old(Files()), RemoveRequest(ref, calls))
    {
      crashed := false;
      var token := if ref in removes then removes[ref] else "";
      if token != "" {
        if calls.deleteEffect {
          tokens := tokens - {token};
        }
        if calls.deleteRaises {
          return;
        }
        if calls.isTokenRaises {
          crashed := true;
          return;
        }
        if token !in tokens {
          if calls.prefixRaises {
            return;
          }
          if calls.prefix.Some? {
            if calls.revokeEffect {
              certs := certs - {calls.prefix.value};
            }
            if calls.revokeRaises {
              return;
            }
          }
          removes := removes - {ref};
          StemOfRequest(ref);
          statuses := statuses - {Stem(ref + ".remove")};
        }
      }
    }

    /** One pass of the loop of `checkService`. */
    method CheckOne(ref: Ref, token: Token, calls: CheckCalls) returns (crashed: bool)
      modifies this
      ensures Files() == CheckResult(RULES, old(Files()), ref, token, calls)
      ensures crashed <==> Re6stPasses.Crashes(RULES, old(Files()), Check(ref, calls))
    {
      crashed := false;
      var file := Stem(ref);
      if file in statuses {
        if calls.isTokenRaises {
          crashed := true;
          return;
        }
        if token !in tokens {
          statuses := statuses[file := Used];
        }
        var status := statuses[file];
        if !calls.sendRaises {
          sent := sent[ref := Info(token, status)];
        }
      }
    }

    /** `requestRemoveToken` over the `.remove` files found when it started, which have something
        before their suffix. It stops early only when `isToken` raises. */
    method RequestRemoveToken(paths: seq<Ref>, calls: seq<RemoveCalls>)
      returns (crashed: bool, ghost events: Events)
      requires |calls| == |paths| && "" !in paths
      requires IsRun(RULES, Files(), RemoveEvents(paths, calls))
      modifies this
      ensures events <= RemoveEvents(paths, calls) && (!crashed ==> events == RemoveEvents(paths, calls))
      ensures IsRun(RULES, old(Files()), events) && Files() == After(RULES, old(Files()), events)
      ensures Re6stPasses.EndsAtCrash(RULES, old(Files()), events, crashed)
    {
      ghost var start, all := Files(), RemoveEvents(paths, calls);
      crashed, events := false, [];
      for i := 0 to |paths|
        invariant events == all[..i] && !crashed
        invariant IsRun(RULES, start, events) && Files() == After(RULES, start, events)
        invariant Re6stPasses.EndsAtCrash(RULES, start, events, false)
      {
        ghost var event := all[i];
        NextIsEnabled(start, all, i);
        crashed := RemoveOne(paths[i], calls[i]);
        Re6stSafety.RunOneMore(RULES, start, events, event);
        Re6stPasses.CrashOneMore(RULES, start, events, event);
        events := events + [event];
        if crashed {
          return;
        }
      }
    }

    /** `checkService` over the dictionary read from token.json. It stops early only when `isToken`
        raises. */
    method CheckService(order: seq<Ref>, calls: seq<CheckCalls>) returns (crashed: bool, ghost events: Events)
      requires |calls| == |order|
      requires forall r | r in order :: r in tokenJson && r in history && history[r] == tokenJson[r]
      modifies this
      ensures |events| <= |order| && (!crashed ==> |events| == |order|)
      ensures forall i | 0 <= i < |events| :: events[i] == Check(order[i], calls[i])
      ensures IsRun(RULES, old(Files()), events) && Files() == After(RULES, old(Files()), events)
      ensures Re6stPasses.EndsAtCrash(RULES, old(Files()), events, crashed)
    {
      ghost var start := Files();
      var tokenDict := tokenJson;
      crashed, events := false, [];
      for i := 0 to |order|
        invariant |events| == i && !crashed
        invariant forall j | 0 <= j < i :: events[j] == Check(order[j], calls[j])
        invariant IsRun(RULES, start, events) && Files() == After(RULES, start, events)
        invariant Re6stPasses.EndsAtCrash(RULES, start, events, false)
      {
        ghost var event := Check(order[i], calls[i]);
        ChecksKeepHistory(start, events, order[i]);
        crashed := CheckOne(order[i], tokenDict[order[i]], calls[i]);
        Re6stSafety.RunOneMore(RULES, start, events, event);
        Re6stPasses.CrashOneMore(RULES, start, events, event);
        events := events + [event];
        if crashed {
          return;
        }
      }
    }

    /** The two passes over request files. */
    method ServeRequests(addPaths: seq<Ref>, addCalls: seq<AddCall<Token>>,
                         removePaths: seq<Ref>, removeCalls: seq<RemoveCalls>)
      returns (crashed: bool, ghost events: Events)
      requires |addCalls| == |addPaths| && |removeCalls| == |removePaths| && "" !in removePaths
      requires IsRun(RULES, Files(), AddEvents(addPaths, addCalls) + RemoveEvents(removePaths, removeCalls))
      modifies this
      ensures IsRun(RULES, old(Files()), events) && Files() == After(RULES, old(Files()), events)
      ensures Re6stPasses.EndsAtCrash(RULES, old(Files()), events, crashed)
      ensures AddEvents(addPaths, addCalls) <= events
           && events <= AddEvents(addPaths, addCalls) + RemoveEvents(removePaths, removeCalls)
      ensures !crashed ==> events == AddEvents(addPaths, addCalls) + RemoveEvents(removePaths, removeCalls)
    {
      ghost var start := Files();
      Re6stSafety.RunSplit(RULES, start, AddEvents(addPaths, addCalls), RemoveEvents(removePaths, removeCalls));
      events := RequestAddToken(addPaths, addCalls);
      Re6stPasses.AddsNeverCrash(RULES, start, events);
      ghost var more;
      crashed, more := RequestRemoveToken(removePaths, removeCalls);
      Re6stPasses.CrashAppend(RULES, start, events, more, crashed);
      Re6stSafety.RunAppend(RULES, start, events, more);
      events := events + more;
    }

    /** `manage`: whatever the registry answers, it is a run; it serves every request and checks every
        reference unless `isToken` raises, or `getComputerPartition`, as `registers` says, before the
        checks. */
    method Manage(addPaths: seq<Ref>, addCalls: seq<AddCall<Token>>,
                  removePaths: seq<Ref>, removeCalls: seq<RemoveCalls>, registers: bool,
                  order: seq<Ref>, checkCalls: seq<CheckCalls>)
      returns (crashed: bool, ghost requests: Events, ghost checks: Events)
      requires |addCalls| == |addPaths| && |removeCalls| == |removePaths| && "" !in removePaths
      requires |checkCalls| == |order| && forall r | r in order :: r in tokenJson
      requires Re6stCertificates.Inv(RULES, Files())
      requires IsRun(RULES, Files(), AddEvents(addPaths, addCalls) + RemoveEvents(removePaths, removeCalls))
      modifies this
      ensures IsRun(RULES, old(Files()), requests + checks) && Files() == After(RULES, old(Files()), requests + checks)
      ensures Re6stPasses.EndsAtCrash(RULES, old(Files()), requests + checks, crashed)
      ensures AddEvents(addPaths, addCalls) <= requests
           && requests <= AddEvents(addPaths, addCalls) + RemoveEvents(removePaths, removeCalls)
      ensures !crashed || checks != [] ==>
        requests == AddEvents(addPaths, addCalls) + RemoveEvents(removePaths, removeCalls)
      ensures |checks| <= (if registers then |order| else 0) && (!crashed && registers ==> |checks| == |order|)
      ensures forall i | 0 <= i < |checks| :: checks[i] == Check(order[i], checkCalls[i])
      ensures Re6stCertificates.Inv(RULES, Files()) && tokenJson == old(tokenJson)
    {
      ghost var start := Files();
      crashed, requests := ServeRequests(addPaths, addCalls, removePaths, removeCalls);
      ManagerKeepsInv(start, requests);
      checks := [];
      assert requests + checks == requests;
      if !crashed && registers {
        ghost var middle := Files();
        crashed, checks := CheckService(order, checkCalls);
        Re6stPasses.CrashAppend(RULES, start, requests, checks, crashed);
        Re6stSafety.RunAppend(RULES, start, requests, checks);
        ManagerKeepsInv(middle, checks);
      }
    }
  }

  /** The next event of a run is enabled. */
  lemma NextIsEnabled(w: Files, all: Events, i: nat)
    requires IsRun(RULES, w, all) && i < |all| && IsRun(RULES, w, all[..i])
    ensures Enabled(RULES, After(RULES, w, all[..i]), all[i]) && all[..i + 1] == all[..i] + [all[i]]
  {
    assert all == (all[..i] + [all[i]]) + all[i + 1..];
    Re6stSafety.RunSplit(RULES, w, all[..i] + [all[i]], all[i + 1..]);
    Re6stSafety.RunSplit(RULES, w, all[..i], [all[i]]);
  }

  /** During the checks, every reference of token.json is known with its token. */
  lemma ChecksKeepHistory(w: Files, events: Events, ref: Ref)
    requires IsRun(RULES, w, events) && forall i | 0 <= i < |events| :: events[i].Check?
    requires ref in w.tokenJson && ref in w.history && w.history[ref] == w.tokenJson[ref]
    ensures ref in After(RULES, w, events).history && After(RULES, w, events).history[ref] == w.tokenJson[ref]
  {
    Re6stSafety.ManagerKeepsTokenJson(RULES, w, events);
  }

  lemma ManagerKeepsInv(w: Files, events: Events)
    requires Re6stCertificates.Inv(RULES, w) && IsRun(RULES, w, events)
    requires forall i | 0 <= i < |events| :: !events[i].Install?
    ensures Re6stCertificates.Inv(RULES, After(RULES, w, events)) && After(RULES, w, events).tokenJson == w.tokenJson
  {
    Re6stSafety.ManagerKeepsTokenJson(RULES, w, events);
    Re6stCertificates.RunKeepsInv(RULES, w, events);
  }

  /** The status file of a request to remove has the whole reference in its name. */
  lemma StemOfRequest(ref: Ref)
    requires ref != ""
    ensures Stem(ref + ".remove") == ref
  {
    var name := ref + ".remove";
    assert name[|ref|] == '.' && forall j | |ref| < j < |name| :: name[j] != '.';
  }

  function AddEvents(paths: seq<Ref>, calls: seq<AddCall<Token>>): Events
    requires |calls| == |paths|
  {
    seq(|paths|, i requires 0 <= i < |paths| => AddRequest(paths[i], calls[i]))
  }

  function RemoveEvents(paths: seq<Ref>, calls: seq<RemoveCalls>): Events
    requires |calls| == |paths|
  {
    seq(|paths|, i requires 0 <= i < |paths| => RemoveRequest(paths[i], calls[i]))
  }

  // --- Which references are safe ---

  /** The name has no suffix: no dot, or one at an end only. */
  predicate HasNoSuffix(name: string) { Stem(name) == name }

  /** Where references may come back, none meets a status file that is not its own exactly when none
      has a suffix. */
  lemma CleanExactly(refs: set<Ref>)
    ensures CleanStatuses(RULES, refs) <==> forall r | r in refs :: HasNoSuffix(r)
  {
    assert forall r: Ref :: FileOf(RULES, r) == Stem(r);
  }

  /** References without suffix meet every condition on status files. */
  lemma NoSuffixIsEnough(refs: set<Ref>, reuse: bool)
    requires forall r | r in refs :: HasNoSuffix(r)
    ensures CleanStatuses(Rules(reuse), refs) && OwnStatuses(Rules(reuse), refs)
  {
    assert forall r | r in refs :: FileOf(Rules(reuse), r) == r;
  }

  lemma SameEmailExactly(r: Ref, s: Ref)
    ensures EmailOf(r) == EmailOf(s) <==> Lower(r) == Lower(s)
  {
    assert EmailOf(r)[..|EmailOf(r)| - 7] == Lower(r) && EmailOf(s)[..|EmailOf(s)| - 7] == Lower(s);
  }

  /** Two instances whose tokens are drawn with these letters. */
  predicate AreDrawn(r: Ref, s: Ref, letters: map<Ref, string>) {
    && r != s && HasNumber(r) && HasNumber(s) && r in letters && s in letters
    && NewToken(r, letters[r]) != NewToken(s, letters[s]) && NewToken(r, letters[r]) != ""
        && NewToken(s, letters[s]) != ""
  }

  /** The files after the first `install`, of the two. */
  function Start(r: Ref, s: Ref, letters: map<Ref, string>): Files
    requires AreDrawn(r, s, letters)
  {
    InstallResult(Initial(), [r, s], Drawn(Absent(map[], [r, s]), letters))
  }

  lemma StartIs(n: Setting<Ref, Token, string>, r: Ref, s: Ref, letters: map<Ref, string>)
    requires AreDrawn(r, s, letters) && n.noToken == ""
    ensures Start(r, s, letters) == Re6stLimits.Installed(r, s, NewToken(r, letters[r]), NewToken(s, letters[s]))
    ensures Re6stLimits.Leads(n, {r, s}, Start(r, s, letters), Start(r, s, letters))
    ensures Re6stLimits.Reachable(n, {r, s}, Start(r, s, letters))
  {
    var t, u := NewToken(r, letters[r]), NewToken(s, letters[s]);
    assert Absent(map[], [r, s]) == {r, s};
    assert Drawn(Absent(map[], [r, s]), letters) == Re6stLimits.Both(r, s, t, u);
    Re6stLimits.InstallBoth<Ref, Token, string>(n, {r, s}, r, s, t, u);
    Re6stLimits.LeadsNowhere(n, {r, s}, Start(r, s, letters));
  }

  /** From here a run over these references revokes the certificate of a live one. */
  ghost predicate CanRevokeLive(n: Setting<Ref, Token, string>, refs: set<Ref>, w0: Files) {
    exists w, event :: Re6stLimits.Leads(n, refs, w0, w) && Enabled(n, w, event)
        && !Re6stLimits.SparesLive(w, Next(n, w, event))
  }

  /** ... leaves one of them live and without any file. */
  ghost predicate CanForget(n: Setting<Ref, Token, string>, refs: set<Ref>, w0: Files) {
    exists w :: Re6stLimits.Leads(n, refs, w0, w) && !Re6stSafety.Covered(n, w)
  }

  /** ... ends the removal of one and leaves a certificate for its e-mail. */
  ghost predicate CanLeaveCertificate(n: Setting<Ref, Token, string>, refs: set<Ref>, w0: Files) {
    exists w, event, r :: Re6stLimits.Leads(n, refs, w0, w) && Re6stSafety.Vanishes(n, w, event, r)
                          && !Re6stCertificates.NoCertificate(n, Next(n, w, event), r)
  }

  /** ... has the master told the wrong status of one. */
  ghost predicate CanMislead(n: Setting<Ref, Token, string>, refs: set<Ref>, w0: Files) {
    exists w, r :: Re6stLimits.Leads(n, refs, w0, w) && r in w.tokenJson && r in w.history
        && !Re6stLimits.TellsTruth(n, w, r)
  }

  lemma SharedEmail(n: Setting<Ref, Token, string>, r: Ref, s: Ref, letters: map<Ref, string>)
    requires AreDrawn(r, s, letters) && n.noToken == "" && MailOf(n, r) == MailOf(n, s)
    ensures CanRevokeLive(n, {r, s}, Start(r, s, letters)) && CanLeaveCertificate(n, {r, s}, Start(r, s, letters))
  {
    var t, u, w0 := NewToken(r, letters[r]), NewToken(s, letters[s]), Start(r, s, letters);
    StartIs(n, r, s, letters);
    Re6stLimits.RevokesLive(n, {r, s}, w0, r, s, t, u);
    Re6stLimits.SharedMail(n, {r, s}, w0, r, s, t, u);
    var w := Re6stLimits.Obtained(n, Re6stLimits.Obtained(n, w0, s, 0), r, 1);
    Re6stLimits.CrowdSurvives(n, {r, s}, w0, w, r, 0, 1);
  }

  lemma SharedStem(n: Setting<Ref, Token, string>, r: Ref, s: Ref, letters: map<Ref, string>)
    requires AreDrawn(r, s, letters) && n.noToken == "" && FileOf(n, r) == FileOf(n, s)
    ensures CanMislead(n, {r, s}, Start(r, s, letters)) && CanLeaveCertificate(n, {r, s}, Start(r, s, letters))
  {
    var t, u, w0 := NewToken(r, letters[r]), NewToken(s, letters[s]), Start(r, s, letters);
    StartIs(n, r, s, letters);
    Re6stLimits.SharedFile(n, {r, s}, w0, r, s, t, u);
    var w := Re6stLimits.Obtained(n, w0, s, 0);
    Re6stLimits.Mislabel(n, {r, s}, w0, w, r);
    Re6stLimits.Double(n, {r, s}, w0, w, r);
    Re6stLimits.CrowdSurvives(n, {r, s}, w0, Re6stLimits.Doubled(n, w, r), r, 1, 2);
  }

  lemma ForeignStem(n: Setting<Ref, Token, string>, r: Ref, s: Ref, letters: map<Ref, string>)
    requires AreDrawn(r, s, letters) && n.noToken == "" && FileOf(n, s) == r
    ensures CanForget(n, {r, s}, Start(r, s, letters))
  {
    var t, u := NewToken(r, letters[r]), NewToken(s, letters[s]);
    StartIs(n, r, s, letters);
    Re6stLimits.Forgets(n, {r, s}, Start(r, s, letters), r, s, t, u);
  }

  lemma NumberIs(head: string, tail: string)
    requires '-' !in head && '-' !in tail
    ensures Split(head + "-" + tail, '-') == [head, tail]
  {
    assert head + "-" + tail == head + ['-'] + tail;
    SplitAtFirst(head, tail, '-');
    SplitAtFirst(tail, "", '-');
  }

  lemma CaseIsDrawn(letters: map<Ref, string>)
    requires "a-1" in letters && "A-1" in letters && letters["a-1"] != letters["A-1"]
    ensures AreDrawn("A-1", "a-1", letters)
  {
    NumberIs("a", "1");
    NumberIs("A", "1");
    assert "a" + "-" + "1" == "a-1" && "A" + "-" + "1" == "A-1";
    var t, u := NewToken("A-1", letters["A-1"]), NewToken("a-1", letters["a-1"]);
    assert t[1..] == letters["A-1"] && u[1..] == letters["a-1"];
  }

  /** Two instances whose references differ only in case: the removal of one can revoke the
      certificate of the other, which is live, or leave its own. */
  lemma CaseCollision(letters: map<Ref, string>, reuse: bool)
    requires "a-1" in letters && "A-1" in letters && letters["a-1"] != letters["A-1"]
    ensures AreDrawn("A-1", "a-1", letters)
    ensures var n, start := Rules(reuse), Start("A-1", "a-1", letters);
      CanRevokeLive(n, {"A-1", "a-1"}, start) && CanLeaveCertificate(n, {"A-1", "a-1"}, start)
  {
    CaseIsDrawn(letters);
    assert Lower("A-1") == "a-1" == Lower("a-1");
    assert MailOf(Rules(reuse), "A-1") == MailOf(Rules(reuse), "a-1");
    SharedEmail(Rules(reuse), "A-1", "a-1", letters);
  }

  lemma DottedNumbers()
    ensures Split("a-1", '-') == ["a", "1"] && Split("a-1.x", '-') == ["a", "1.x"]
  {
    NumberIs("a", "1");
    NumberIs("a", "1.x");
    assert "a" + "-" + "1" == "a-1" && "a" + "-" + "1.x" == "a-1.x";
  }

  lemma DottedStems()
    ensures Stem("a-1") == "a-1" && Stem("a-1.x") == "a-1"
  {
    assert "a-1.x"[3] == '.' && "a-1.x"[4] != '.';
  }

  lemma DottedIsDrawn(letters: map<Ref, string>)
    requires "a-1" in letters && "a-1.x" in letters && '.' !in letters["a-1"]
    ensures AreDrawn("a-1", "a-1.x", letters)
  {
    DottedNumbers();
    var t, u := NewToken("a-1", letters["a-1"]), NewToken("a-1.x", letters["a-1.x"]);
    assert t == "1" + letters["a-1"] && u == "1.x" + letters["a-1.x"];
    assert '.' !in t && u[1] == '.';
  }

  /** Two instances of which one has the other's reference and a suffix: once the removal of the
      first is finished, the second can be live without a request or a status; the master can be
      told a wrong status; and a finished removal can leave a certificate. */
  lemma DottedCollision(letters: map<Ref, string>, reuse: bool)
    requires "a-1" in letters && "a-1.x" in letters && '.' !in letters["a-1"]
    ensures AreDrawn("a-1", "a-1.x", letters)
    ensures var n, start := Rules(reuse), Start("a-1", "a-1.x", letters);
      && CanForget(n, {"a-1", "a-1.x"}, start) && CanMislead(n, {"a-1", "a-1.x"}, start)
      && CanLeaveCertificate(n, {"a-1", "a-1.x"}, start)
  {
    DottedIsDrawn(letters);
    DottedStems();
    var n := Rules(reuse);
    assert FileOf(n, "a-1") == FileOf(n, "a-1.x") == "a-1";
    ForeignStem(n, "a-1", "a-1.x", letters);
    SharedStem(n, "a-1", "a-1.x", letters);
  }

  // --- Texts of tokens, e-mails and file names ---

  lemma OnePiece(ref: Ref)
    requires |Split(ref, '-')| == 1
    ensures '-' !in ref
  {
    JoinSplit(ref, '-');
    SplitHasNoSeparator(ref, '-');
    assert ref == Split(ref, '-')[0];
  }

  lemma NumberExactly(ref: Ref)
    ensures HasNumber(ref) <==> '-' in ref
  {
    if '-' !in ref { SplitAtFirst(ref, "", '-'); }
    if |Split(ref, '-')| == 1 { OnePiece(ref); }
  }

  /** A token is what stands between the first dash of the reference and the next one, if any, and
      then the letters drawn. */
  lemma TokenExactly(head: string, number: string, more: string, letters: string)
    requires '-' !in head && '-' !in number
    ensures HasNumber(head + "-" + number) && NewToken(head + "-" + number, letters) == number + letters
    ensures HasNumber(head + "-" + number + "-" + more)
    ensures NewToken(head + "-" + number + "-" + more, letters) == number + letters
  {
    assert head + "-" + number == head + ['-'] + number;
    SplitAtFirst(head, number, '-');
    SplitAtFirst(number, more, '-');
    var rest := number + "-" + more;
    assert head + "-" + number + "-" + more == head + ['-'] + rest && rest == number + ['-'] + more;
    SplitAtFirst(head, rest, '-');
  }

  /** An e-mail is the reference in lower case at `slapos`. */
  lemma EmailExactly(ref: Ref)
    ensures |EmailOf(ref)| == |ref| + 7 && EmailOf(ref)[|ref|..] == "@slapos" && EmailOf(ref)[..|ref|] == Lower(ref)
  {
  }

  /** The suffix that goes is the last dot and what follows it; a name without dots, or with its last
      one at an end, is kept. */
  lemma StemExactly(name: string, suffix: string)
    requires '.' !in suffix
    ensures Stem(name + "." + suffix) == if name != "" && suffix != "" then name else name + "." + suffix
    ensures Stem(suffix) == suffix
  {
    var all := name + "." + suffix;
    var i := LastDot(all, |all|);
    assert all[|name|] == '.' && forall j | |name| < j < |all| :: all[j] == suffix[j - |name| - 1];
    assert forall j | 0 <= j < |suffix| :: suffix[j] in suffix;
    assert i == |name|;
    assert all[..|name|] == name;
  }
}
