# Verified model of SlapOS recipes and scripts

This project models the parts of the SlapOS software release repository that compute or coordinate
something, and proves what they promise:

- the wrapper script that `createWrapper` prints, read back by a model of the POSIX.1-2017 Shell
  Command Language (sections 2.2 and 2.3);
- the re6st token protocol between `install`, the token manager and a registry that may fail at any
  call, over whole runs;
- the log-redirecting supervisor loop of `generic_exec` and the existence cache of
  `_wait_files_creation`;
- the signatures of a Theia backup: the walks that list files, the paths they are mirrored to, and
  the verification that replays them;
- the `-extends` closure and the published dictionary of the publish recipe, and the repeated runs
  of publish-early;
- translators and codecs: systemd calendar specifications to crontab lines, the escape codec of
  simpleRAN, the framed hash stream, the mimetype order and flattened dictionaries.

`dafny verify dfyconfig.toml` checks everything.

## Layout

| module | models |
|---|---|
| `Common`, `Text`, `Ordering`, `Decimal` | shared declarations; Python's string operations, order and decimal numbers |
| `Shebang`, `Shell`, `Wrapper` | the kernel's reading of a script's first line, the shell's lexer; `quote` and `createWrapper` |
| `Re6stWorld`, `Re6stSafety`, `Re6stCertificates` | the token protocol as steps, its invariants, and the balance of certificates |
| `Re6stPasses`, `Re6stLimits`, `Re6stSite` | what single passes do, for which references the protocol keeps its promises, and the code that performs the steps |
| `Supervisor`, `SupervisorSafety`, `SupervisorProgress`, `SupervisorProcess` | the redirect loop as a state machine, its invariants, that it returns and reopens, and the code on its own fields |
| `WaitFiles` | the wait for files, by events or by polling |
| `Paths`, `TheiaPaths` | `abspath`, `relpath`, `join`, and the two path maps of the Theia scripts |
| `TheiaWalk`, `TheiaExport`, `TheiaSignatures` | tree walks, signing, and the walks on configured paths |
| `TheiaVerify`, `TheiaVerifyText`, `TheiaLines` | verification, which texts it accepts, and the lines of its files |
| `Publish`, `PublishEarly` | the publish recipes |
| `PublishEarlyRuns`, `PublishEarlyHistory` | one run and repeated runs of publish-early |
| `CronFields`, `Dcron`, `DcronMeaning` | one field, the whole translation, and what specifications and lines match |
| `Utf8`, `XBuildout`, `HashStream`, `Sorting`, `Mimetypes`, `Flatten` | codecs, orders and dictionaries |

What the code and a property both build on, such as the number of a weekday or the kinds of an event,
has a lemma of its own that says what it is without it: these are the lemmas named `…Exactly` about
single functions.

Code that changes state step by step is a method or a class proved against a specification function;
the properties are lemmas about that function. The registry, the kernel, the processes and the
generators of random letters are parameters or nondeterministic steps.

## Where the code and its documentation differ

The model follows the code. Each point below is a lemma.

- A specification `weekly` becomes Sunday at midnight; systemd.time(7) says Monday
  (`DcronMeaning.ShorthandMeaning`).
- A range of weekdays with Sunday at one end only keeps systemd's numbers although cron starts its
  week on Sunday, so `fri-sun` becomes the empty range `5-0` (`DcronMeaning.RangeAgreesExactly`).
- In a list with a stepped element the whole field is replaced by the last such element
  (`CronFields.PreservesExactly`).
- A first word of nothing but commas, such as the empty word that a leading blank makes, is read as
  an empty list of weekdays, and the line lacks its last field; no other text does that
  (`DcronMeaning.EmptyWeekdaysExactly`).
- The e-mail of a reference is taken to be unique, but references that differ only in case share one.
  Live certificates are never revoked if and only if no two references share an e-mail
  (`Re6stLimits.LiveCertificatesExactly`, and `Re6stSite.CaseCollision` for `a-1` and `A-1`).
- A status file is named after what precedes the last dot of a reference when it is written or read,
  and after the whole reference when it is unlinked. So a reference may meet a status file that is
  not its own: one shared with another reference, or, where references come back after their
  removal, one of its own that was not unlinked. The status sent for a token is right in every run,
  and each certificate has a live or pending reference, if and only if that cannot happen
  (`Re6stLimits.StatusesTellTruthExactly`, `Re6stLimits.AnsweredExactly`). No live reference is
  forgotten if and only if no status file is named after another reference
  (`Re6stLimits.NoneForgottenExactly`). `Re6stSite.DottedCollision` has `a-1` and `a-1.x`.
- A removal that is finished may leave a certificate for its e-mail, and an e-mail may have several.
  Both are ruled out if and only if no two references share an e-mail and none meets a status file
  that is not its own (`Re6stLimits.RemovalLeavesNoneExactly`, `Re6stLimits.OneCertificateExactly`,
  and `Re6stSite.DottedCollision` and `Re6stSite.CaseCollision` for the same references).
- A reference that comes back before its removal is finished has both request files
  (`Re6stSafety.InstallSeparatesExactly`, `Re6stSafety.InstallKeepsBaseExactly`).
- The first existence test comes before the watches, and a file created in between is waited for
  without end (`WaitFiles.CreatedInGapIsMissed`).
- A file whose name has white space at an end never verifies, nor one whose name has a carriage
  return; a name with a newline is read as several lines (`TheiaVerifyText.VerifyNamesExactly`).
- When the first name of the instance directory below the root starts with two dots, `hashwalk` takes
  its mirror to be outside the backup, and files of partitions are signed twice
  (`TheiaSignatures.SignedOnceExactly`). Otherwise files of a mirrored partition that is not exported
  any more are in no signature (`TheiaSignatures.SignedAllExactly`).
- A path outside the root may be restored to another place (`TheiaPaths.RoundTrip`).
- Sections that publish different values for a key make the result depend on the order of a Python
  set (`Publish.OrderMattersOnlyForConflicts`).
- When two keys of a section take their values from one option, a run may give the first of them the
  published value of the second. With sections that keep what is overridden, this happens in no
  history if and only if each such second key can be generated nowhere, or the first one has its
  value from a later section (`PublishEarlyHistory.AlwaysKeptExactly`); so it never does when no key
  is read from two sections.
- The mimetype comparison reports an entry and its own beginning each greater than the other
  (`Mimetypes.ComparableExactly`).

## Model

| member | source | states |
|---|---|---|
| Wrapper.QuoteReadsBack | slapos/recipe/librecipe/shlex.py:10-21 | a POSIX shell, between or inside words, reads a quoted string as exactly its characters, and rejects it if and only if it holds a NUL |
| Wrapper.QuotesOnlyWhenNeeded | slapos/recipe/librecipe/shlex.py:10-21 | a string is printed as it is if and only if it is not empty and consists of ASCII letters, digits and `_@%+=:,./-` |
| Wrapper.EscapeExactly | slapos/recipe/librecipe/shlex.py:18-21 | within the quotes each single quote becomes a double-quoted one between two quoted parts, and every other character is kept |
| Wrapper.FoldText | slapos/recipe/librecipe/generic.py:185-190 | folding inserts only a separator before the next word: a blank after a line of less than 40 characters, otherwise a blank, an escaped newline and a tab |
| Wrapper.AddExports | slapos/recipe/librecipe/generic.py:177-178 | the loop over the environment appends one export line per key, in the order given |
| Ordering.LessExactly | slapos/recipe/librecipe/generic.py:177 | strings are ordered by the first difference in code points, a proper start first |
| Wrapper.AddArguments | slapos/recipe/librecipe/generic.py:182-190 | the loop over arguments extends or folds the last line once per quoted argument |
| Wrapper.CreateWrapper | slapos/recipe/librecipe/generic.py:172-192 | the printed text is the script with the keys of the environment in ascending order, which the kernel runs with `/bin/sh` and `-e`, and which the shell reads as its commands, or rejects when a string holds a NUL |
| Wrapper.ScriptNamesShell | slapos/recipe/librecipe/generic.py:172 | the first line of every script, as `execve` on Linux reads it, names the interpreter `/bin/sh` and gives it the argument `-e` |
| Wrapper.ExportReads | slapos/recipe/librecipe/generic.py:177-178 | an export line is read as `export` and the single word `key=value`, whatever the value holds |
| Wrapper.ArgumentsRead | slapos/recipe/librecipe/generic.py:180-190 | wherever lines are folded, the words of the exec line are the words before it and then exactly the arguments |
| Wrapper.ScriptReadsBack | slapos/recipe/librecipe/generic.py:172-192 | a shell reads the script as the trap, one export per entry in key order, and `exec` of exactly the arguments and `"$@"`, if and only if no argument or value holds a NUL; otherwise it rejects the script |
| Wrapper.SameScriptSameArguments | slapos/recipe/librecipe/generic.py:172-192 | two calls that print the same script have the same arguments and ignored signal and, with identifiers as keys, the same environment |
| Text.LowerExactly | slapos/recipe/re6stnet/re6stnet.py:61-62 | in lower case, each capital ASCII letter is the small one at its place in the alphabet, and every other character is kept |
| Re6stSite.NumberExactly | slapos/recipe/re6stnet/__init__.py:109 | a reference has a number, without which `install` fails, if and only if it has a dash |
| Re6stSite.TokenExactly | slapos/recipe/re6stnet/__init__.py:109-110 | a token is what stands between the first two dashes of the reference, or after its only one, followed by the letters drawn |
| Re6stSite.AddMissing | slapos/recipe/re6stnet/__init__.py:106-112 | a token is drawn for exactly the references that have none, and it fails exactly when one of those has no number |
| Re6stSite.PopUnlisted | slapos/recipe/re6stnet/__init__.py:114-117 | exactly the unlisted references leave the dictionary and are returned with their tokens |
| Re6stSite.GenerateSlaveTokenList | slapos/recipe/re6stnet/__init__.py:99-119 | which references are added, removed and kept, with their tokens |
| Re6stSite.Site.WriteAdds | slapos/recipe/re6stnet/__init__.py:162-166 | new `.add` files appear and existing ones are kept |
| Re6stSite.Site.WriteRemoves | slapos/recipe/re6stnet/__init__.py:168-176 | new `.remove` files appear, existing ones are kept, and a `.add` file goes exactly when its `.remove` file is written |
| Re6stSite.Site.Install | slapos/recipe/re6stnet/__init__.py:152-178 | `install` is one install step of the protocol, with a token drawn for exactly the new references, or changes nothing when a new reference has no number |
| Re6stSite.Site.AddOne | slapos/recipe/re6stnet/re6stnet.py:55-77 | one request to add, for every answer, exception and effect of the registry; the status file is named without the suffix of the reference |
| Re6stSite.Site.RequestAddToken | slapos/recipe/re6stnet/re6stnet.py:45-77 | the loop over `.add` files is a run of the protocol |
| Re6stSite.Site.RemoveOne | slapos/recipe/re6stnet/re6stnet.py:86-121 | one request to remove, for every answer, exception and effect of the four calls, which status file is unlinked, and that the exception leaves the manager exactly when `isToken` is reached and raises |
| Re6stSite.Site.RequestRemoveToken | slapos/recipe/re6stnet/re6stnet.py:79-121 | the loop over `.remove` files is a run of the protocol, and it is left early exactly after the first pass in which `isToken` raises |
| Re6stSite.Site.CheckOne | slapos/recipe/re6stnet/re6stnet.py:130-180 | one status check reads and writes the status file without the suffix of the reference, sends the status to the master, and lets an exception out exactly when `isToken` is reached and raises |
| Re6stSite.Site.CheckService | slapos/recipe/re6stnet/re6stnet.py:123-180 | the loop over token.json is a run of the protocol, and it is left early exactly after the first check in which `isToken` raises |
| Re6stSite.Site.ServeRequests | slapos/recipe/re6stnet/re6stnet.py:183-193 | the two loops over request files serve all requests to add and then all requests to remove, up to the first `isToken` that raises |
| Re6stSite.Site.Manage | slapos/recipe/re6stnet/re6stnet.py:183-200 | one whole pass of the manager is a run of the protocol that serves every request and checks every reference, unless the first `isToken` that raises ends it, or `getComputerPartition` before the checks; it keeps the invariant and leaves token.json alone |
| Re6stPasses.InstallPassExactly | slapos/recipe/re6stnet/__init__.py:152-178 | file by file: token.json lists exactly the references it was given, known ones with their old token; a new one has a `.add` file, one that is gone a `.remove` file in its place, and no request file is written twice |
| Re6stPasses.AddPassExactly | slapos/recipe/re6stnet/re6stnet.py:55-77 | a request to add is done, and its status written, exactly when `addToken` returned nothing or the token; the registry has the token exactly when the call took effect |
| Re6stPasses.RemovePassExactly | slapos/recipe/re6stnet/re6stnet.py:86-121 | a request to remove is done, and its status file gone, exactly when no call that is made raises and the registry no longer accepts the token; which token and which certificate are gone |
| Re6stPasses.CheckPassExactly | slapos/recipe/re6stnet/re6stnet.py:130-180 | a check sends the status of an accepted token as it is and that of another one as used, and writes what it sent |
| Re6stPasses.AddsAreServed | slapos/recipe/re6stnet/re6stnet.py:45-77 | when the registry answers, one pass over `.add` files leaves none of them |
| Re6stPasses.RemovalsAreServed | slapos/recipe/re6stnet/re6stnet.py:79-121 | when all calls are answered, one pass over `.remove` files leaves none of them |
| Re6stSite.StemOfRequest | slapos/recipe/re6stnet/re6stnet.py:115-116 | a request to remove unlinks the status file that has the whole reference in its name |
| Re6stSite.EmailExactly | slapos/recipe/re6stnet/re6stnet.py:61-62 | an e-mail is the reference in lower case followed by `@slapos` |
| Re6stSite.StemExactly | slapos/recipe/re6stnet/re6stnet.py:73 | a status file is named after what precedes the last dot of the reference, or after the whole of it when there is no dot or nothing on one side |
| Re6stSite.SameEmailExactly | slapos/recipe/re6stnet/re6stnet.py:61-62 | two references have the same e-mail if and only if they differ at most in case |
| Re6stSite.CleanExactly | slapos/recipe/re6stnet/re6stnet.py:73 | where references may come back, none meets a status file that is not its own if and only if none has a suffix |
| Re6stSite.NoSuffixIsEnough | slapos/recipe/re6stnet/re6stnet.py:73 | references without a suffix meet every condition on status files |
| Re6stSite.CaseCollision | slapos/recipe/re6stnet/re6stnet.py:61-110 | for any letters drawn, from the files that `install` of `A-1` and `a-1` writes, a run reaches a state in which a request to remove revokes the certificate of a live reference, and one in which it leaves a certificate for the e-mail of the removed one |
| Re6stSite.DottedCollision | slapos/recipe/re6stnet/re6stnet.py:73-177 | for any letters drawn, from the files that `install` of `a-1` and `a-1.x` writes, runs reach states in which `a-1.x` is live without a `.add` or status file, in which the master is told a wrong status, and in which a finished removal leaves a certificate |
| Re6stSafety.InstallKeepsBaseExactly | slapos/recipe/re6stnet/__init__.py:152-178 | `install` keeps the agreement of files if and only if no new reference still waits for its removal |
| Re6stSafety.StepKeepsBase | slapos/recipe/re6stnet/re6stnet.py:45-180 | every step, for any references, keeps that request files hold the tokens drawn last for their references and that the registry has the e-mail of the reference with each token and certificate |
| Re6stSafety.InstallKeepsStatuses | slapos/recipe/re6stnet/__init__.py:152-178 | `install` keeps the invariant of status files |
| Re6stSafety.InstallKeepsTokens | slapos/recipe/re6stnet/__init__.py:152-178 | `install`, for any references, keeps that the files answer for every accepted token |
| Re6stSafety.AddKeepsStatuses | slapos/recipe/re6stnet/re6stnet.py:55-77 | every outcome of a request to add keeps the invariant of status files |
| Re6stSafety.AddKeepsTokens | slapos/recipe/re6stnet/re6stnet.py:55-77 | every outcome of a request to add, for any references, keeps that the files answer for every accepted token |
| Re6stSafety.RemoveKeepsStatuses | slapos/recipe/re6stnet/re6stnet.py:86-121 | every outcome of a request to remove keeps the invariant of status files |
| Re6stSafety.RemoveKeepsTokens | slapos/recipe/re6stnet/re6stnet.py:86-121 | every outcome of a request to remove, for any references, keeps that the files answer for every accepted token |
| Re6stSafety.CheckKeepsStatuses | slapos/recipe/re6stnet/re6stnet.py:129-180 | every outcome of a status check keeps the invariant of status files |
| Re6stSafety.RunKeepsTokens | slapos/recipe/re6stnet/re6stnet.py:45-180 | so does every run |
| Re6stSafety.EveryRunKeepsTokens | slapos/recipe/re6stnet/re6stnet.py:45-121 | in every reachable state, for any references: `.add` files belong to live references and hold their tokens, no reference has both request files, and every accepted token is in token.json or in a pending `.remove` file |
| Re6stSafety.RunKeepsStatuses | slapos/recipe/re6stnet/re6stnet.py:183-200 | every run over references of which none meets a status file that is not its own keeps the invariant of status files, whatever the interleaving |
| Re6stCertificates.FinishKeepsBalance | slapos/recipe/re6stnet/re6stnet.py:97-119 | when a request file goes, its e-mail loses a reference and, if it has any, a certificate |
| Re6stCertificates.ClientUseKeepsBalance | slapos/recipe/re6stnet/re6stnet.py:138-141 | a client that uses a token adds a certificate and spends the reference of the token |
| Re6stCertificates.StepKeepsInv | slapos/recipe/re6stnet/re6stnet.py:45-180 | every step keeps, besides, that no e-mail has more certificates than references whose tokens are used up and that the files answer for |
| Re6stCertificates.RunKeepsInv | slapos/recipe/re6stnet/re6stnet.py:183-200 | so does every run over references of which none meets a status file that is not its own, also when e-mails are shared |
| Re6stCertificates.EveryRunIsSafe | slapos/recipe/re6stnet/re6stnet.py:45-121 | in every reachable state: when no status file is named after another reference, each live one has a `.add` or a status file; when none meets a status file that is not its own, each certificate has a live or pending reference with its e-mail; when besides no e-mail is shared, an e-mail has at most one certificate |
| Re6stSafety.RunKeepsCovered | slapos/recipe/re6stnet/re6stnet.py:69-75 | in every run over references that have no status file named after another, each reference in token.json has a `.add` or a status file |
| Re6stSafety.LiveTokenNeverChanges | slapos/recipe/re6stnet/__init__.py:106-112 | a reference that is live now and later has the same token, unless it came back after its removal and the first token is retired |
| Re6stSafety.ManagerKeepsTokenJson | slapos/recipe/re6stnet/__init__.py:178 | without `install`, no run changes token.json |
| Re6stSafety.RemovalIsFinal | slapos/recipe/re6stnet/re6stnet.py:97-119 | when a `.remove` file vanishes its token is never accepted again, for any references and in every continuation |
| Re6stCertificates.RemovalLeavesNoCertificate | slapos/recipe/re6stnet/re6stnet.py:97-119 | nor is there a certificate for its e-mail until the reference comes back, when no e-mail is shared and no reference meets a status file that is not its own |
| Re6stSafety.InstallSeparatesExactly | slapos/recipe/re6stnet/__init__.py:162-176 | after `install` no reference has both request files if and only if no new reference still waits for its removal |
| Re6stLimits.RemovalHitsLiveExactly | slapos/recipe/re6stnet/re6stnet.py:97-110 | some truthful outcome of a request to remove revokes a live certificate if and only if a live certificate is for the e-mail of the reference that is removed |
| Re6stLimits.LiveCertificatesExactly | slapos/recipe/re6stnet/re6stnet.py:61-110 | no run over a set of references revokes a certificate of a live one if and only if no two of them have the same e-mail |
| Re6stLimits.StatusesTellTruthExactly | slapos/recipe/re6stnet/re6stnet.py:132-177 | in every run over a set of references each check of a live one tells the master that the token is ready exactly when the registry accepts it, if and only if none of them meets a status file that is not its own |
| Re6stLimits.OneCertificateExactly | slapos/recipe/re6stnet/re6stnet.py:61-119 | in every run over a set of references an e-mail has at most one certificate if and only if no two share an e-mail and none meets a status file that is not its own |
| Re6stLimits.RemovalLeavesNoneExactly | slapos/recipe/re6stnet/re6stnet.py:97-119 | in every run over a set of references a `.remove` file that vanishes leaves no certificate for its e-mail if and only if no two share an e-mail and none meets a status file that is not its own |
| Re6stLimits.AnsweredExactly | slapos/recipe/re6stnet/re6stnet.py:61-119 | in every run over a set of references each certificate has a live or pending reference with its e-mail if and only if none meets a status file that is not its own |
| Re6stLimits.NoneForgottenExactly | slapos/recipe/re6stnet/re6stnet.py:73-117 | every run over a set of references leaves each live one a `.add` or a status file if and only if no status file of one is named after another |
| SupervisorSafety.CloseKeepsInv | slapos/recipe/librecipe/execute.py:181 | the close of a log within `reopen` keeps the invariant |
| SupervisorSafety.OpenOneKeeps | slapos/recipe/librecipe/execute.py:182-183 | the open of a log within `reopen` makes a new opening of its own path, later than every signal, and leaves streams, the other logs and the bytes already written unchanged |
| SupervisorSafety.StepKeepsInv | slapos/recipe/librecipe/execute.py:178-228 | each event (a signal, `select`, a read, what is done with the data, the close or the open of one log) keeps the invariant |
| SupervisorSafety.EveryRunIsAligned | slapos/recipe/librecipe/execute.py:174-228 | in every reachable state `rfds` has no duplicates and one element more than `logs`, `rfds[j+1]` is the pipe feeding `logs[j]`, and the bytes appended for each path over all openings are the bytes read from its pipe, in order, up to the data in hand |
| SupervisorSafety.ReturnsWhenAllEnded | slapos/recipe/librecipe/execute.py:216-228 | the loop returns only when every redirected stream has ended; each log then holds exactly the bytes of its stream, and no pipe or log is left open |
| SupervisorProgress.ReturnsExactly | slapos/recipe/librecipe/execute.py:208-228 | in every run with a redirected stream, the program has returned if and only if no log is left, and if and only if every redirected stream has ended and its end has been dealt with |
| SupervisorProgress.SelectServesAll | slapos/recipe/librecipe/execute.py:216-228 | when the program is back in `select`, each descriptor that was ready has been read once |
| SupervisorSafety.NoRotationIsLost | slapos/recipe/librecipe/execute.py:178-220 | at every moment of every run, with signals at any point, also between the close and the open of a log, and any number of them per read: the trigger pipe holds a byte, or `reopen` is next, or every log that the current or last `reopen` has got to was opened after the last signal; in `select` these are all logs |
| SupervisorProgress.TriggerBytes | slapos/recipe/librecipe/execute.py:217 | one read takes 1024 bytes from the trigger pipe, or all if there are fewer |
| SupervisorProgress.RotationIsServed | slapos/recipe/librecipe/execute.py:178-220 | when `select` finds at most 1024 signals, and none follows, one turn opens every log again, later than each of them, and leads back to `select` with the trigger pipe empty |
| SupervisorSafety.RunKeepsTidy | slapos/recipe/librecipe/execute.py:178-228 | no run leaks a descriptor or closes one that the loop does not own |
| SupervisorSafety.StartIsReady | slapos/recipe/librecipe/execute.py:174-197 | the set-up establishes the invariant, with one log per distinct redirected path |
| SupervisorSafety.WriteEndsAreHigh | slapos/recipe/librecipe/execute.py:174-190 | the write ends of the pipes are above the standard descriptors, whichever of those are closed |
| SupervisorSafety.ChildIsWired | slapos/recipe/librecipe/execute.py:163-197 | after the recorded `dup2` calls each redirected standard stream of the child writes to the pipe of its log, both to one pipe when the paths are the same |
| SupervisorProcess.Process.constructor | slapos/recipe/librecipe/execute.py:174-197 | the set-up statements give the start state of the machine |
| SupervisorProcess.Process.SetUp | slapos/recipe/librecipe/execute.py:185-190 | `setup` adds a pipe, a log and a descriptor to wait for |
| SupervisorProcess.Process.RenewLog | slapos/recipe/librecipe/execute.py:180-183 | one pass of the loop of `reopen` is a close and an open of the machine, with signals before each |
| SupervisorProcess.Process.ReopenLogs | slapos/recipe/librecipe/execute.py:178-184 | the loop that builds the new list is a run of the machine, for any signals that arrive in it |
| SupervisorProcess.Process.Enter | slapos/recipe/librecipe/execute.py:207 | the first `reopen` leads to `select` |
| SupervisorProcess.Process.Signal | slapos/recipe/librecipe/execute.py:202-206 | the signal handler is the machine's signal event |
| SupervisorProcess.Process.ReadReady | slapos/recipe/librecipe/execute.py:217 | reading a ready descriptor is the machine's read event |
| SupervisorProcess.Process.WriteLog | slapos/recipe/librecipe/execute.py:222 | the data goes to the end of the file open for that log |
| SupervisorProcess.Process.DropLog | slapos/recipe/librecipe/execute.py:224-225 | popping at i and i+1 removes a log together with its own pipe |
| SupervisorProcess.Process.ServeTrigger | slapos/recipe/librecipe/execute.py:219-220 | after a read of the trigger, `reopen` is a run of the machine |
| SupervisorProcess.Process.ServeData | slapos/recipe/librecipe/execute.py:221-222 | data read is written, as in the machine |
| SupervisorProcess.Process.ServeEnd | slapos/recipe/librecipe/execute.py:223-228 | at the end of a stream its log is dropped, and the program returns if and only if no log is left |
| SupervisorProcess.Process.Serve | slapos/recipe/librecipe/execute.py:217-228 | the loop body after the read is a run of the machine and keeps the invariant; it returns if and only if this was the end of a stream and no log is left |
| WaitFiles.CheckIfFilesExist | slapos/recipe/librecipe/execute.py:19-24 | the map has exactly the awaited files, each with its state |
| WaitFiles.AllCachedMeansAllExist | slapos/recipe/librecipe/execute.py:26-27 | while the map agrees with the file system, it is all true exactly when every awaited file exists |
| WaitFiles.ProcessBatch | slapos/recipe/librecipe/execute.py:44-47 | processing events keeps the map equal to the state after the processed prefix |
| WaitFiles.WaitFilesCreation | slapos/recipe/librecipe/execute.py:24-47 | with watches: it returns at the first batch of events after which all files exist together, and not before; by `ExistsExactly` and `WaitSeesFiles` this is what exists in the file system |
| WaitFiles.PollFilesCreation | slapos/recipe/librecipe/execute.py:24-41 | without watches: it returns at the first check that sees all files |
| WaitFiles.UpdateAllAgrees | slapos/recipe/librecipe/execute.py:44-47 | for every list of events the map follows the file system |
| WaitFiles.ExistsExactly | slapos/recipe/librecipe/execute.py:44-47 | after some events a file is taken to exist if and only if the last one of it is its creation or its move to this place, or there is none and it existed before |
| WaitFiles.EventsTell | slapos/recipe/librecipe/execute.py:29-47 | whatever is created, deleted and renamed, in watched directories and between them and others, the events tell which files of watched directories exist |
| WaitFiles.WaitSeesFiles | slapos/recipe/librecipe/execute.py:29-47 | the wait for files of watched directories is over after exactly those operations after which all of them exist in the file system |
| WaitFiles.RenamedIntoPlace | slapos/recipe/librecipe/execute.py:44-47 | a file that is renamed into place, from a watched directory or not, ends the wait for it |
| WaitFiles.GapMustBeQuiet | slapos/recipe/librecipe/execute.py:24-34 | the map follows the file system through all later events if and only if no awaited file changed between the test and the watches |
| WaitFiles.CreatedInGapIsMissed | slapos/recipe/librecipe/execute.py:24-47 | a file created in that gap and left alone since exists and is waited for without end |
| Paths.NamesExactly | software/theia/theia_export.py:61-63 | the names of a path, component by component: two dots leave the directory unless it is the root, a dot or nothing stays, any other component enters |
| Paths.AbspathExactly | software/theia/theia_export.py:61-63 | `abspath` is each of these names after one slash, or a slash alone |
| Paths.RelpathMeans | software/theia/theia_export.py:61-63 | `relpath` goes up from the start to the common names and down the rest |
| Paths.RelpathExactly | software/theia/theia_export.py:61-63 | the components of `relpath` are two dots for each name of the start after the common ones and then the other names of the path, or a dot alone for the directory itself |
| Paths.JoinMeans | software/theia/theia_export.py:61-63 | `join` of an absolute path and such a relative one resolves it by names |
| Paths.SubpathMeans | slapos/recipe/simplehttpserver/__init__.py:36-40 | a path counts as inside a directory if and only if it goes through all its names and the next name does not start with two dots |
| TheiaPaths.MoveMeans | software/theia/theia_import.py:72-78 | both path maps, in terms of names |
| TheiaPaths.MoveBack | software/theia/theia_import.py:72-78 | moving names to the backup and back gives them back if and only if they are below the root, or leave it by no more names than the backup has without meeting one of its names |
| TheiaPaths.RoundTrip | software/theia/theia_import.py:72-78 | `dst_path(mirror_path(p))` is `p`, normalised, if and only if the names of `p` come back, as those of every path below the root do |
| TheiaPaths.MirrorInjective | software/theia/theia_export.py:61-63 | no two paths that come back share a place in the backup |
| TheiaPaths.MirrorStaysInBackup | software/theia/theia_export.py:61-63 | what is below the root is kept below the backup, under the same relative names |
| TheiaWalk.WalkLists | software/theia/theia_common.py:110-116 | the plain walk lists exactly the regular files of the tree, each once, with path and content |
| TheiaWalk.WalkExceptLists | software/theia/theia_common.py:119-133 | the pruned walk lists exactly the files that do not lie in a partition, each once |
| TheiaWalk.FilesComeFirst | software/theia/theia_common.py:119-133 | each directory is walked from the top: its own files are listed before those below its sub-directories |
| TheiaExport.SignaturesList | software/theia/theia_export.py:98-112 | the signatures of the root and of the partitions list exactly the files of the backup, except those of partitions that the walk of the root leaves out and that have no signature |
| TheiaExport.CoveredExactly | software/theia/theia_common.py:136-140 | they list every file if and only if partitions are not excluded from the root or no partition that is not signed holds a file |
| TheiaExport.OnceExactly | software/theia/theia_common.py:136-140 | no file is listed twice if and only if partitions are excluded from the root or hold no file |
| TheiaSignatures.PartitionNameExactly | software/theia/theia_common.py:131 | a directory is taken for a partition if and only if its name starts with `slappart` |
| TheiaSignatures.ExcludesExactly | software/theia/theia_common.py:136-140 | partitions are excluded from the root walk if and only if the first name of the instance directory below the root does not start with two dots |
| TheiaSignatures.SignedOnceExactly | software/theia/theia_export.py:98-112 | for any configured paths, no file is signed twice if and only if that name does not start with two dots or no partition holds a file |
| TheiaSignatures.SignedAllExactly | software/theia/theia_export.py:98-112 | for any configured paths, every file of the backup is signed if and only if that name starts with two dots or no mirrored partition that is not exported holds a file |
| TheiaSignatures.SignatureNameExactly | software/theia/theia_export.py:114-121 | the names to be removed are those that hold `backup.signature` and do not start with a dot |
| TheiaExport.Backup.RemoveSignatures | software/theia/theia_export.py:114-121 | exactly the entries with a name of a signature that are no directories go |
| TheiaSignatures.NewAfterRemovalExactly | software/theia/theia_export.py:103-121 | after that, when copies bring no such name, every signature file has a new name if and only if none of their names is that of a directory |
| TheiaExport.Backup.SignRoot | software/theia/theia_export.py:98-101 | the root walk sees the backup without its signature file, which is then replaced |
| TheiaExport.Backup.SignPartition | software/theia/theia_export.py:103-112 | the partition walk is that of the backup before signing, and only its signature file is replaced |
| TheiaExport.Backup.SignPartitions | software/theia/theia_export.py:186-187 | every partition signature is that of the backup before signing |
| TheiaExport.Backup.SignAll | software/theia/theia_export.py:182-187 | the signatures list files as they were before signing and no signature file, which ones exactly and when none twice; nothing but signature files is added, and each of them holds its own list |
| TheiaSignatures.ImportFindsSignatures | software/theia/theia_import.py:137-146 | the import finds each signature under the name that the export gave it, and takes none for that of a custom script |
| TheiaVerify.WriteLines | software/theia/theia_export.py:93-95 | the file holds each line and a newline, in order |
| TheiaVerify.ReplaySignatures | software/theia/theia_import.py:114-128 | one replayed line or error line for each line of the signature file |
| TheiaVerify.Verify | software/theia/theia_import.py:148-165 | the proof file that is written, and that verification without a custom script succeeds exactly when it equals the signature file |
| Text.StripExactly | software/theia/theia_import.py:118 | `strip` takes off exactly the characters of Python's white space, at both ends |
| TheiaLines.DigestExactly | software/theia/theia_common.py:100-107 | a digest is written with the digits `0` to `9` and `a` to `f` |
| TheiaLines.UniversalExactly | software/theia/theia_import.py:115-116 | a carriage return, with a newline that follows it, is read as a newline, and nothing else changes |
| TheiaLines.LinesExactly | software/theia/theia_import.py:116 | a text is read line by line, each with its newline, and no line is left out |
| TheiaLines.FileTextExactly | software/theia/theia_export.py:93-95 | a file of lines without newlines is those lines, each ended by one newline |
| TheiaLines.LineExactly | software/theia/theia_common.py:116-127 | a signed line cut at its blanks is the digest and then the name, whatever the name holds |
| TheiaLines.ReplayExactly | software/theia/theia_import.py:117-128 | a line with two words is replayed as the digest of the named file, a blank and the name, or as the message that the path could not be read, whatever white space surrounds or separates its words |
| TheiaLines.ReplayOfOneWord | software/theia/theia_import.py:117-121 | a line with one word or none is replayed as the message that it could not be parsed, with the line itself |
| TheiaVerify.ParseOfLine | software/theia/theia_import.py:117-118 | a signed line is parsed as its digest and its name without white space at the ends |
| TheiaVerify.ReplayOfLine | software/theia/theia_import.py:114-128 | a replayed line equals the signed one if and only if the file is readable with the same digest and its name has no white space at an end |
| TheiaVerifyText.SameLines | software/theia/theia_import.py:153-158 | a file with at least as many entries as another has lines is the same only if its entries are those lines, although error messages may hold newlines |
| TheiaVerifyText.ReplayOfAnyLine | software/theia/theia_import.py:114-128 | any line, signed or not, is replayed as itself if and only if it is a digest, a blank and the trimmed name of a readable file with that digest; an error message never equals its line |
| TheiaVerifyText.VerifyTextExactly | software/theia/theia_import.py:114-165 | verification of any text whatever succeeds if and only if it has no carriage return, ends with its last line and has only such lines |
| TheiaVerifyText.VerifyNamesExactly | software/theia/theia_import.py:114-165 | verification of a file written by the export, whatever the names, succeeds if and only if no name has a carriage return and each line that a signed line is broken into is such a line |
| TheiaVerifyText.VerifyExactly | software/theia/theia_import.py:148-165 | without line breaks in names, it succeeds if and only if every signed file is still readable with the same digest under a name without white space at an end |
| Publish.PopKeepsPushedAbove | slapos/recipe/publish.py:44-47 | one turn keeps that every name done has its successors done or above it on the stack |
| Publish.SecondPopPushesNothing | slapos/recipe/publish.py:44-47 | a name popped a second time pushes nothing, so that the worklist ends on cycles and duplicates |
| Publish.ExtendSet | slapos/recipe/publish.py:42-47 | the worklist ends, with exactly the sections reachable through `-extends`, and fails exactly when one of them is missing |
| Publish.PublishSection | slapos/recipe/publish.py:52-59 | all keys of a section are set, or it fails exactly when one has no option |
| Publish.Install | slapos/recipe/publish.py:49-59 | the dictionary has exactly the keys that some section names in `-publish`, or has as options that are not hidden if it has no such list, each with the value of a section that names it; and it fails exactly when a section lacks one of its keys |
| Publish.PublishAllIs | slapos/recipe/publish.py:50-59 | every key of a visited section is published, and only with a value that a visited section gives it |
| Publish.PublishedIs | slapos/recipe/publish.py:49-59 | a key is published if and only if some section names it, and with its value in such a section |
| Publish.PublishedByName | slapos/recipe/publish.py:53-56 | with real names: a section without `-publish` publishes exactly its options other than `recipe` that do not start with a dash |
| Publish.OrderMattersOnlyForConflicts | slapos/recipe/publish.py:51-59 | what is published is independent of the order of sections if and only if no two give a key different values |
| PublishEarlyRuns.SilentRunAgrees | slapos/recipe/publish_early.py:117-145 | a run that does not publish has generated what is published |
| PublishEarlyRuns.PublishesExactlyChanges | slapos/recipe/publish_early.py:117-145 | if sections keep what is overridden or no key is read twice, a run publishes if and only if what it generated differs from what is published |
| PublishEarlyRuns.GroupKeepsPublishedExactly | slapos/recipe/publish_early.py:121-138 | every section that keeps what is overridden gives all published keys their values if and only if no key is published whose option belongs to an earlier key |
| PublishEarlyRuns.KeepsPublishedExactly | slapos/recipe/publish_early.py:119-140 | every run whose sections keep what is overridden keeps every published value, if and only if there is no such key in any section |
| PublishEarlyRuns.SharedOption | slapos/recipe/publish_early.py:121-138 | of two keys with one option, publishing the second gives the first its value and loses it, and publishing the first is kept |
| PublishEarlyRuns.RunGenerates | slapos/recipe/publish_early.py:120-138 | a run generates exactly the keys that are published and those that are the first with an option their section has |
| PublishEarlyHistory.ValueIsOfLast | slapos/recipe/publish_early.py:119-140 | a generated value is that of the last section that can generate it |
| PublishEarlyHistory.AlwaysKeptExactly | slapos/recipe/publish_early.py:81-145 | in every history from an empty dictionary each run gives every published key its value, if and only if each key whose option belongs to an earlier key can be generated nowhere or the earlier key has its value from a later section |
| PublishEarlyHistory.StaysSettled | slapos/recipe/publish_early.py:119-145 | when a key that can be generated in one section can be in each it is read from, no key is ever published whose option belongs to an earlier one |
| PublishEarlyHistory.PublishedForever | slapos/recipe/publish_early.py:81-145 | under that condition on sections, in every history of runs, failing ones included, a published value never changes |
| PublishEarlyHistory.PublishesOnce | slapos/recipe/publish_early.py:139-145 | after the first run that succeeds no run publishes, and each that succeeds generates the same values |
| PublishEarly.Buildout.GetItem | slapos/recipe/publish_early.py:110-115 | the hook restores the original class before the section is made, and overrides its options |
| PublishEarly.Buildout.GenerateAll | slapos/recipe/publish_early.py:119-140 | the loop gives the result of the run, or fails when a section was initialised before its turn |
| PublishEarly.InTimeExactly | slapos/recipe/publish_early.py:119-130 | all groups get their turn, as far as this depends on sections, if and only if each section is then not initialised: neither before the recipe, nor by or for an earlier group |
| PublishEarly.Buildout.Initialise | slapos/recipe/publish_early.py:100-142 | `buildout.Options` is as before on every exit |
| Utf8.DecodeEncode | software/simpleran/ru/xbuildout.py:69-70 | UTF-8 decoding (section 3 of RFC 3629) gives back every string of Unicode scalar values |
| Utf8.EncodeDecode | software/simpleran/ru/xbuildout.py:132-133 | what decodes is the encoding of the result: no overlong form, surrogate or value out of range decodes |
| Utf8.EncodeCharExactly | software/simpleran/ru/xbuildout.py:69-70 | the octets of a character are those with the length for its number, the mark of that length and its bits (section 3 of RFC 3629) |
| XBuildout.EncodeName | software/simpleran/ru/xbuildout.py:69-92 | the loop over bytes computes the escaped text |
| XBuildout.DecodeName | software/simpleran/ru/xbuildout.py:95-134 | the loop over the rest of the text computes the decoded string, or fails |
| XBuildout.EncodeText | software/simpleran/ru/xbuildout.py:69-92 | octet by octet, the encoding is an allowed character itself, two underscores for an underscore, and otherwise an underscore and two lower-case hexadecimal digits |
| XBuildout.AllowedExactly | software/simpleran/ru/xbuildout.py:79-84 | the characters that are kept are ASCII letters, digits, dots and dashes |
| XBuildout.ParseHexExactly | software/simpleran/ru/xbuildout.py:118-128 | an escape is read as two hexadecimal digits of either case, or as one with white space beside it or a plus before it, or as `-0`, and as nothing else |
| XBuildout.DecodeEncode | software/simpleran/ru/xbuildout.py:69-134 | decoding gives back every string that was encoded |
| XBuildout.EncodeInjective | software/simpleran/ru/xbuildout.py:69-92 | different strings have different encodings |
| XBuildout.EncodeAlphabet | software/simpleran/ru/xbuildout.py:69-92 | an encoding has only ASCII letters, digits, dots, dashes and underscores |
| XBuildout.EncodeConcat | software/simpleran/ru/xbuildout.py:69-92 | the encoding of a concatenation is the concatenation of the encodings |
| XBuildout.EncodeDecodeExactly | software/simpleran/ru/xbuildout.py:102-134 | among texts that decode, encoding gives a text back if and only if its escapes are `__` or lower-case hexadecimal of a byte that needs one |
| Decimal.DigitsExactly | slapos/recipe/librecipe/filehash.py:59 | a number is printed as the one text of digits that has its value and no leading zero |
| HashStream.GenerateHash | slapos/recipe/librecipe/filehash.py:54-61 | the hasher is fed each length, a newline and the content, file after file |
| HashStream.ParseOfStream | slapos/recipe/librecipe/filehash.py:56-60 | the stream parses back to the list of contents |
| HashStream.StreamExactly | slapos/recipe/librecipe/filehash.py:56-60 | the first line of a stream is the length of the first content, without leading zeros, and the content and the stream of the others follow |
| HashStream.StreamInjective | slapos/recipe/librecipe/filehash.py:54-61 | two lists of contents give the same stream only if they are equal |
| Flatten.JoinedKeyExactly | slapos/recipe/slapconfiguration.py:490-492 | the key of a leaf is its path joined by dashes, with a dash for each underscore |
| Flatten.Fill | slapos/recipe/slapconfiguration.py:486-495 | the loop with its recursive call fills the flattened dictionary |
| Flatten.FlattenGivesLeaves | slapos/recipe/slapconfiguration.py:486-495 | the result is the dictionary of the leaves under their joined keys, later ones winning |
| Flatten.FlattenIsBijective | slapos/recipe/slapconfiguration.py:486-495 | there are as many entries as leaves if and only if no two leaves have the same joined key, and then each leaf keeps its value |
| Flatten.PrefixGoesInFront | slapos/recipe/slapconfiguration.py:490-494 | a prefix goes in front of every key and changes nothing else |
| Sorting.OneSortingExactly | slapos/recipe/generic_cloudooo/__init__.py:121 | a list has one sorting if and only if its different elements are comparable |
| Mimetypes.CompareEntries | slapos/recipe/generic_cloudooo/__init__.py:31-47 | the comparison depends on the first difference, with the star last, and on an index left at the last one compared when there is none |
| Mimetypes.FirstDifferenceDecides | slapos/recipe/generic_cloudooo/__init__.py:31-41 | at the first difference a star is greater than any other character, and otherwise the smaller code point comes first |
| Mimetypes.NestedEntries | slapos/recipe/generic_cloudooo/__init__.py:42-47 | of an entry and its own start the first argument is reported greater, and the empty entry less |
| Mimetypes.EntryLessIsStrictOrder | slapos/recipe/generic_cloudooo/__init__.py:31-47 | the induced less-than is a strict partial order on all strings |
| Mimetypes.ComparableExactly | slapos/recipe/generic_cloudooo/__init__.py:37-47 | different entries are ordered if and only if one is empty or neither starts with the other |
| Mimetypes.OneOrderExactly | slapos/recipe/generic_cloudooo/__init__.py:115-121 | the sorted list is independent of the input order if and only if no entry is a proper start of another |
| Mimetypes.StarsComeLater | slapos/recipe/generic_cloudooo/__init__.py:32-36 | an entry is placed before every entry that first differs from it by a star there |
| Mimetypes.SortEntries | slapos/recipe/generic_cloudooo/__init__.py:121 | the list is sorted: the same entries, and none after one it is less than |
| CronFields.ConvertField | slapos/recipe/dcron.py:126-140 | the loop over elements, assigning to the field as it goes, computes the converted field or fails |
| CronFields.IntExactly | slapos/recipe/dcron.py:129 | `int` reads digits in groups separated by single underscores, after an optional sign and between white space, and rejects every other text |
| CronFields.AcceptsExactly | slapos/recipe/dcron.py:130-140 | a field is accepted if and only if each element is in its bounds and has, if stepped, at least two values |
| CronFields.RangeMeans | slapos/recipe/dcron.py:134-138 | the range that replaces a stepped element has exactly its values up to the field's end |
| CronFields.ConvertMeans | slapos/recipe/dcron.py:126-140 | the converted field has the values of the field, or of its last stepped element if it has one |
| CronFields.CoversExactly | slapos/recipe/dcron.py:128-139 | the values of a field are all in its last stepped element if and only if each first value is one of that element's and each step a multiple of its step |
| CronFields.PreservesExactly | slapos/recipe/dcron.py:128-139 | conversion keeps the values if and only if the written numbers fit in this way, as in a star, a plain list or one stepped element |
| Dcron.SystemdToCron | slapos/recipe/dcron.py:87-141 | the statements compute the translation, every exception being a failure |
| DcronMeaning.DayOfWeekExactly | slapos/recipe/dcron.py:77-79 | a name has the number of a weekday if and only if it is that one, or its first three letters, of the list from sunday to saturday, in any case of letters |
| DcronMeaning.WeekdayIsNumber | slapos/recipe/dcron.py:96-101 | a single weekday is translated to its place in that list |
| DcronMeaning.ShorthandsExactly | slapos/recipe/dcron.py:80-85 | there are exactly six shorthands |
| DcronMeaning.TranslatedShape | slapos/recipe/dcron.py:93-122 | every text that is translated and no shorthand consists of weekdays, a date and a time, some of them left out, with no year but a star and no seconds but zero |
| DcronMeaning.TranslatesExactly | slapos/recipe/dcron.py:87-141 | exactly the specifications of any year, without seconds, without day of month next to weekdays, and with accepted fields are translated, to the five converted fields in cron's order |
| DcronMeaning.LineMeans | slapos/recipe/dcron.py:123-141 | the line matches a minute, hour, day, month and weekday exactly when each of its fields has it |
| DcronMeaning.MeaningKeptExactly | slapos/recipe/dcron.py:87-141 | the line matches the same minutes as the specification if and only if the weekday readings agree and the written numbers of each field fit into its last stepped element, or the weekdays exclude every day |
| DcronMeaning.SimpleMeaningIsKept | slapos/recipe/dcron.py:87-141 | specifications with regular weekday ranges and fields that are a star, plain values or one stepped value keep their meaning |
| DcronMeaning.RangeAgreesExactly | slapos/recipe/dcron.py:96-101 | a weekday range keeps its days if and only if Sunday is both of its ends or neither |
| DcronMeaning.ShorthandMeaning | slapos/recipe/dcron.py:80-85 | a shorthand matches what systemd.time(7) says if and only if it is not `weekly` |
| DcronMeaning.EmptyWeekdaysExactly | slapos/recipe/dcron.py:93-103 | for every text translated that is not a shorthand, the last of the five fields is empty if and only if the first word has nothing but commas |
| DcronMeaning.LeadingBlankLosesWeekdays | slapos/recipe/dcron.py:93-103 | a blank before a date and time gives a line whose last field is empty |

## Left out

- `createWrapper` with keyword arguments (the Python-script branch), and `createFile`, which is I/O.
- Wrapper.ScriptReadsBack: keys of the environment and the ignored signal are made of the characters that need no quotes; the code prints them as they are, and documents identifiers and signal names.
- Wrapper.ScriptNamesShell: the limit on the length of the first line is left out, as this one has 12 characters.
- Shell constructs that no wrapper script uses: the lexer rejects operators and other expansions, so that accepted text has the meaning given. What the commands do is not modelled.
- Re6stCertificates.EveryRunIsSafe: like the lemmas of `Re6stLimits`, assumes that drawn tokens are new, that `getNodePrefix` is truthful and a `revoke` that returns has revoked, and that no reference comes back while its `.remove` file is pending, where `Re6stSafety.InstallKeepsBaseExactly` shows what fails. `install` is one step, and so is one pass of a loop over request files or token.json: reading the file, all calls of the registry (four for a removal) and the file operations between and after them; a client uses its token between such steps. A reference is the name of a file, without a slash.
- Re6stSite.SameEmailExactly: lowers ASCII letters only; the code lowers all of Unicode.
- Re6stSite.Site.CheckOne: leaves out the `.ipv6` files and the addresses sent with the status, which come from two registry calls whose failure changes nothing else; so do Re6stSite.Site.CheckService and Re6stSite.Site.RemoveOne.
- The holder of a token is assumed to use only a token that was sent to it. Two managers at once, certificates of the registry itself, `getSerialFromIpv6` and `genHash` are left out.
- SupervisorSafety.EveryRunIsAligned: does not model a full trigger pipe, short writes or errors of system calls; two paths that name one file are two logs; the child's own behaviour is any sequence of reads; the two closes that drop a log are one event.
- SupervisorProcess.Process.Signal: does not model the signal that the handler forwards to the child.
- `generic_exec` without redirection, the pid file, CPU affinity, private tmpfs and mount namespaces.
- WaitFiles.EventsTell: a rename over an existing file is a rename, and directories that are removed or renamed themselves are left out.
- WaitFiles.WaitFilesCreation: an overflow of the event queue is left out; directories that are one under two names are watched once by the kernel and are two keys here.
- WaitFiles.PollFilesCreation: one check of all files is one moment.
- Paths.RelpathMeans: paths are absolute; the current directory and a leading double slash are left out, and so are symbolic links, as the functions ignore them.
- Rsync, sqlite and the restore steps of the Theia scripts; digests are any function of the content, and a file's digest is text without white space.
- TheiaWalk.FilesComeFirst: says nothing about the order of files in one directory, or of its sub-directories, which is that of the directory on disk.
- TheiaExport.Backup.SignPartition: leaves out the branch with a custom signature script, whose output is arbitrary; so does TheiaVerify.Verify.
- TheiaExport.Backup.SignRoot: takes the answer of `hashwalk` on the paths as a parameter, which `TheiaSignatures.ExcludesExactly` determines.
- TheiaExport.Backup.SignAll: takes as given that no entry has the name of a signature, which `TheiaSignatures.NewAfterRemovalExactly` derives from `remove_signatures` when what is copied in between brings no such name; the copying itself is left out.
- TheiaVerifyText.VerifyTextExactly: the backup directory has no carriage return in its path.
- Publish.ExtendSet: a missing section is a failure, as buildout reports it; the serialised and failsafe variants of the recipe are left out.
- PublishEarlyHistory.PublishesOnce: assumes that a section keeps an overridden option and otherwise always has the same ones, and that a key that can be generated in one section can be in each it is read from; parsing `-init`, `volatileOptions` and the value of `-publish` are left out, and an option already set in the section is simply not among the keys.
- PublishEarlyRuns.KeepsPublishedExactly: is about keys that, if they can be generated in one section, can be in each they are read from; other keys are covered over whole histories by `PublishEarlyHistory.AlwaysKeptExactly`.
- XBuildout.DecodeEncode: strings of lone surrogates, for which Python's own encoding step raises, are not strings here.
- Mimetypes.SortEntries: requires that no entry is a proper start of another one; otherwise the comparison is not a weak order and the result is that of Python's algorithm, which is not modelled. That the default list has this property, and the building of the configuration, are left out.
- Flatten.FlattenIsBijective: keys are strings; other keys make the code raise.
- DcronMeaning.TranslatesExactly: is about specifications built from weekdays, date and time; other text is translated or rejected by `Dcron.SystemdToCron`, without a meaning. Numbers that `int` reads with signs, blanks or underscores are modelled there; digits and letters outside ASCII are not.
- DcronMeaning.MeaningKeptExactly: compares all values of the five fields, also days that a month does not have.
- `DefaultValidator`, `dirhash`, `filehash`, template recipes, port allocation and user interface code: jsonschema and buildout internals, or single expressions.
