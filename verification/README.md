# Prismdrake verification

A Dafny model of the parts of Prismdrake where state, parsing or concurrency carries a theorem, with proofs of
what these parts promise. `dafny verify dfyconfig.toml` checks the whole project.

Code that changes fields is modelled as a class whose methods are proved to follow a step function on values;
loops are methods with invariants; the theorems are lemmas about the step functions and about whole runs.
Every induction is written out, so every lemma carries `{:induction false}`.

- **Settings.** `SettingsEngine` models the transactions of the settings engine and their publication.
  `SettingsRequests` says what each request makes current. `SettingsDaemon` models the dispatcher and the worker
  thread as atomic steps over one job slot, a mutex and an eventfd, and proves its invariants over every interleaving.
  The bus is a log of replies and signals; `SettingsAnswers` reads off each schedule which answer every call gets.
- **Applications.** `Discovery` is one unit of work of the pull-based scanner for desktop entries and its iteration;
  `DiscoveryEnumeration`, `DiscoveryCandidates`, `DiscoveryClaims`, `DiscoveryRuns` and `DiscoveryResult` hold the
  theorems about whole scans, and `DiscoveryScanner` the scanner itself. `ApplicationCatalog` is the eligibility pass
  over a discovery snapshot, `ApplicationSearch` the streaming search. Each stage is proved to feed the next, and each
  is proved equal to a simple batch specification. `Ordering` holds the facts about sorting they share.
- **Text.** `Alphabets` writes out the characters behind the tests of the other modules. `Utf8` relates the three
  hand-written validators to RFC 3629; `EntryText` the escape and list decoding and the slicing of lines to a grammar;
  `DesktopExec` the tokenizer and expander of the Exec key to quoting and to templates, and `DesktopExecLines` to the
  meaning of each letter; `ThemeBounds` the event automaton of theme documents to the recursive tree pass.
- **Session.** `RestartPolicy` is the bounded recovery policy, `RestartHistory` the policy without its bookkeeping.
  `SessionSupervisor` is the supervisor over an abstract platform, `SessionLog` what the platform sees of it, and
  `SessionReading` what such a log says event by event.
- **Notifications and launching.** `Notifications` relates the mutable model to its independent validator and
  `NotificationBoard` to a board of cards, `NotificationInputs` says which inputs are accepted, `ProcessLaunch` the
  planner to the launcher that receives its plans, and `ProcessLaunchPlans` the plan to what the entry asks for.

## What the proofs show to be otherwise

- The restart bound of the recovery policy does not hold for every accepted budget: it holds in all runs exactly
  when the healthy interval is at least the rolling window (`RestartPolicy.WindowHoldsExactly`).
- The notification validator is stricter than the model about the clock. Every publication of every run passes it
  while the clock stays twenty-four hours before its end, and no later bound suffices
  (`Notifications.EveryPublicationIsValid`, `Notifications.ClockBoundIsExact`): a card is accepted exactly when it
  never expires or is presented by then (`Notifications.UpsertedCardIsValidExactly`). Later, a plain card is published
  and rejected (`Notifications.LateCardIsRejected`), although `src/notifications/NotificationModel.hpp:191` says that
  publications satisfy the validator by construction.
- A session announces readiness without a live shell exactly when the shell was last seen to exit cleanly
  (`SessionSupervisor.Supervisor.Run`, `SessionLog.ReadyFitsAt`), and a concrete session does so
  (`SessionSupervisor.ReadyWithoutShell`).
- A component that misses its readiness deadline is recovered as if launched after it was stopped, because stopping
  has cleared its launch time (`SessionSupervisor.Supervisor.StopAndRecover`). The decision differs exactly when
  the component had been up for its healthy interval and earlier exits still lie in the window
  (`RestartPolicy.LaunchTimeMattersExactly`); `SessionSupervisor.StallForgetsLaunchTime` is a start that ends in safe
  mode for that reason.
- An accepted settings call can stay unanswered. It is answered exactly when the bus takes everything that the step
  which closes it sends for it: the signal of its publication and its reply, or its rejection at shutdown
  (`SettingsDaemon.CallIsAnsweredExactly`, `SettingsDaemon.FailedSendLosesCall`).
- A published discovery snapshot can lack the truncation flag, exactly when truncation came up since the last
  publication and nothing else did, which takes diagnostics that are already cut off
  (`DiscoveryScanner.Scanner.Publish`, `DiscoveryScanner.PublishedWithoutFlag`); the final snapshot never does.
- List decoding does not read back every list that the list escaping can write: a list with an empty item is refused
  (`EntryText.DecodeListUndoesEncodeList`, `EntryText.EmptyItemIsRefused`).

## Model

| member | source | states |
|---|---|---|
| `Utf8.ValidateUtf8` | src/launcher/DesktopEntryParser.cpp:149-191 | The verdict on a desktop-entry text is the one that RFC 3629 (sections 3 and 4) gives: the longest readable row of code points explains exactly why reading stopped or that nothing is left |
| `Utf8.ValidateQueryUtf8` | src/launcher/ApplicationSearch.cpp:62-109 | The same reference verdict for search queries, with their limit and their control characters |
| `Utf8.ValidateText` | src/notifications/NotificationModel.cpp:32-87 | The same reference verdict for notification text, with its byte limit and its whitespace rule |
| `Utf8.VerdictIsUnique` | src/launcher/DesktopEntryParser.cpp:149-191 | A byte string has at most one verdict under given limits, so two validators that meet the reference agree |
| `Utf8.VerdictMeansWellFormed` | src/launcher/DesktopEntryParser.cpp:149-191 | The verdict is valid exactly on encodings of Unicode scalar values within the limit and without unsafe controls; where neither can matter it is valid exactly on well-formed text and invalid exactly on the rest |
| `Alphabets.ControlsAre` | src/launcher/ApplicationSearch.cpp:98-101 | Queries may hold the five ASCII spacing controls, bodies of notifications tabs and line feeds, other texts no control character |
| `Utf8.EncodingIsPrefixFree` | src/launcher/DesktopEntryParser.cpp:149-191 | No encoding of a code point starts with the encoding of another, so a text is read in one way only |
| `Utf8.ReadingIsUnique` | src/launcher/DesktopEntryParser.cpp:149-191 | Two rows of code points with the same bytes are the same row |
| `Utf8.CodePointCountIsExact` | src/theme/ThemeParser.cpp:60-63 | Counting the bytes that do not continue a code point counts the code points of well-formed text |
| `Utf8.WellFormedAroundAscii` | src/launcher/DesktopEntryParser.cpp:620-716 | Cutting well-formed text at an ASCII byte leaves two well-formed texts, as line and value slicing needs |
| `Utf8.HasUnsafeControl` | src/launcher/DesktopEntryParser.cpp:193-218 | On well-formed text the scan stays within bounds and is true exactly when a control code point occurs |
| `EntryText.DecodeString` | src/launcher/DesktopEntryParser.cpp:220-266 | The loop computes the unescaping function, with its one error |
| `EntryText.DecodeStringIsTheGrammar` | src/launcher/DesktopEntryParser.cpp:220-266 | A value decodes to a text exactly when it is written as plain bytes and known escapes that mean this text |
| `EntryText.DecodeList` | src/launcher/DesktopEntryParser.cpp:268-326 | The loop computes the list scan, with its errors and item limit |
| `EntryText.DecodeListIsTheGrammar` | src/launcher/DesktopEntryParser.cpp:268-326 | A value decodes to items exactly when it is written as those items closed by semicolons, within the item limit |
| `EntryText.DecodeListUndoesEncodeList` | src/launcher/DesktopEntryParser.cpp:268-326 | Decoding undoes the list escaping of section 4 of the Desktop Entry Specification 1.5 exactly for the lists within the limit that hold no empty item, and refuses the encoding of every other list |
| `EntryText.EmptyItemIsRefused` | src/launcher/DesktopEntryParser.cpp:268-326 | The list of one empty item is written as a lone semicolon, which is refused |
| `EntryText.DecodedValueIsWellFormed` | src/launcher/DesktopEntryParser.cpp:220-266 | Unescaping keeps well-formed UTF-8 well formed |
| `EntryText.DecodedItemsAreWellFormed` | src/launcher/DesktopEntryParser.cpp:268-326 | The items of a well-formed list value are well-formed UTF-8 |
| `EntryText.CutLine` | src/launcher/DesktopEntryParser.cpp:620-631 | One line is cut at its terminator, without the terminator and without losing a byte |
| `EntryText.CheckLine` | src/launcher/DesktopEntryParser.cpp:632-643 | A line is refused exactly when it is too long or holds a byte that lines may not hold, the length being checked first |
| `EntryText.SliceLines` | src/launcher/DesktopEntryParser.cpp:620-643 | Slicing succeeds exactly when there are not too many lines and all are clean; the lines with their terminators put together are then the file, and every cut is a line end |
| `EntryText.SliceEntry` | src/launcher/DesktopEntryParser.cpp:690-705 | Key and value are what stands before and after the first equals sign, without the blanks around it |
| `EntryText.EntrySliceIsUnique` | src/launcher/DesktopEntryParser.cpp:690-705 | A line splits into key, blanks and value in one way only |
| `EntryText.ScanDocument` | src/launcher/DesktopEntryParser.cpp:597-705 | Validating, slicing into lines and entries, decoding and scanning for controls fit together: the text passes exactly when it is well formed within its limits with few and clean lines, and then every scan stays inside its decoded value and is true exactly when that value holds a control code point |
| `DesktopExec.ParseQuoted` | src/launcher/DesktopExec.cpp:156-221 | The loop inside quotes computes the quoted-argument function |
| `DesktopExec.ParseUnquoted` | src/launcher/DesktopExec.cpp:222-280 | The loop outside quotes computes the unquoted-argument function, with the target code observed |
| `DesktopExec.ParseExec` | src/launcher/DesktopExec.cpp:119-312 | The tokenizer computes the parse function, with every error in the order of the source |
| `DesktopExec.ParsedIsWellParsed` | src/launcher/DesktopExec.cpp:105-117 | A parsed value has a fixed nonempty executable, stand-alone multi-argument codes, and its target code is exactly the sequence of target codes written |
| `DesktopExec.ParseUndoesWriting` | src/launcher/DesktopExec.cpp:119-312 | Any printable arguments, each quoted or bare where allowed, are read back as exactly those arguments |
| `DesktopExec.ExpansionUndoesQuoting` | src/launcher/DesktopExec.cpp:505-573 | Quoting a bounded list of printable arguments by section 7 of the Desktop Entry Specification 1.5 and expanding it without targets gives one invocation with exactly that list, empty arguments included |
| `DesktopExec.AppendArgument` | src/launcher/DesktopExec.cpp:366-395 | Appending computes the bounded append, and the room left is never negative |
| `DesktopExec.BuildArgument` | src/launcher/DesktopExec.cpp:435-500 | The loop over the parts computes the argument with its removal and preservation flags |
| `DesktopExec.ExpandArgument` | src/launcher/DesktopExec.cpp:402-501 | Expanding one argument computes the expansion function |
| `DesktopExec.ValidateExpansionContext` | src/launcher/DesktopExec.cpp:314-364 | The context is refused with its first fault, and the byte room never goes negative |
| `DesktopExec.ExpandDesktopExec` | src/launcher/DesktopExec.cpp:505-573 | The whole expansion computes the expansion function, with every error in order; what that function means for lines is said by DesktopExecLines |
| `DesktopExec.ExpansionFillsTemplates` | src/launcher/DesktopExec.cpp:397-501 | A successful expansion fills templates that depend on the number of targets but not on their text; with targets the templates name every target exactly once and in order, over one invocation for %F and %U and one per target for %f and %u |
| `DesktopExec.ExecutableIsFixed` | src/launcher/DesktopExec.cpp:556-569 | The first expanded argument is the fixed text of the first Exec argument and is not empty |
| `DesktopExec.ParsingRulesOutFaults` | src/launcher/DesktopExec.cpp:474-569 | The stand-alone check and the empty-executable check repeated during expansion never fail |
| `DesktopExecLines.LineParses` | src/launcher/DesktopExec.cpp:119-312 | A line of words, quoted or bare or with one letter after a percent sign between bare texts, is read as exactly these arguments |
| `DesktopExecLines.ExpansionIsTheMeaning` | src/launcher/DesktopExec.cpp:505-573 | Such a line expands to what its words mean, letter by letter, once or once for each target as its target letter demands, or fails for targets without a target letter or for targets that are not local files |
| `DesktopExecLines.TargetLettersRun` | src/launcher/DesktopExec.cpp:55-86 | For an executable and n targets within the limits, %f and %u give n invocations with one target each, %F and %U one invocation with all of them |
| `DesktopExecLines.OtherLettersShow` | src/launcher/DesktopExec.cpp:55-86 | %i gives --icon with the icon, %c the name, %k the location, and the deprecated letters nothing |
| `ThemeBounds.ThemeBoundsSax.Handle` | src/theme/ThemeParser.cpp:66-216 | Each reader event changes stack, node count and first failure as the step function says |
| `ThemeBounds.ThemeBoundsSax.Key` | src/theme/ThemeParser.cpp:114-131 | A key is counted, measured and remembered, and refused for the first reason that applies |
| `ThemeBounds.ThemeBoundsSax.StartContainer` | src/theme/ThemeParser.cpp:100-112 | Entering a container counts it, then checks nesting and announced size |
| `ThemeBounds.ThemeBoundsSax.StringValue` | src/theme/ThemeParser.cpp:88-94 | A string is refused when it is too long and otherwise counted as a scalar |
| `ThemeBounds.ValueFeeds` | src/theme/ThemeParser.cpp:66-216 | Feeding the events of a value from any state completes the value or is refused, exactly as the bounds say |
| `ThemeBounds.SaxAcceptsExactlyBounds` | src/theme/ThemeParser.cpp:66-216 | The automaton accepts a document exactly when node count, nesting, sizes, distinct keys, lengths and finite numbers are within bounds |
| `ThemeBounds.CheckEvents` | src/theme/ThemeParser.cpp:1039-1075 | Reading a document through the automaton accepts exactly the documents within bounds |
| `ThemeBounds.ValidateTreeBounds` | src/theme/ThemeParser.cpp:218-260 | The recursive pass accepts exactly the trees within its bounds and hands on the exact node count |
| `ThemeBounds.FitsSplits` | src/theme/ThemeParser.cpp:218-260 | The bounds of the automaton are those of the tree pass together with clean keys and numbers |
| `ThemeBounds.DomKeepsBounds` | src/theme/ThemeParser.cpp:218-260 | Sorting object members by key, as the tree does, changes neither the node count nor the bounds |
| `ThemeBounds.PassesAgree` | src/theme/ThemeParser.cpp:218-260 | The automaton accepts exactly when the tree pass accepts the tree and the text is clean, so the tree pass never rejects an accepted document |
| `Ordering.SortIgnoresOrder` | src/launcher/DesktopEntryDiscovery.cpp:311-318 | Sorting forgets the order in which names came |
| `Ordering.KeepSmallestKeeps` | src/launcher/DesktopEntryDiscovery.cpp:210-221 | Replacing the largest kept element keeps exactly the k smallest of all that were offered |
| `DiscoveryScanner.Scanner.KeepLexicallySmallest` | src/launcher/DesktopEntryDiscovery.cpp:210-221 | A candidate is pushed, or replaces the largest one if it is smaller, and the root is marked truncated |
| `DiscoveryScanner.Scanner.InspectDirectoryEntry` | src/launcher/DesktopEntryDiscovery.cpp:223-258 | One name is inspected as the step function says, with its limits and diagnostics |
| `DiscoveryScanner.Scanner.OpenNextDirectory` | src/launcher/DesktopEntryDiscovery.cpp:260-309 | The pending directory with the smallest path is opened, or the scan of the root ends |
| `DiscoveryScanner.Scanner.ReadNextName` | src/launcher/DesktopEntryDiscovery.cpp:311-352 | One name is read, or the root is dropped for its node limit or a read error |
| `DiscoveryScanner.Scanner.ProcessCandidate` | src/launcher/DesktopEntryDiscovery.cpp:363-416 | One candidate claims its identifier and is read, or is passed over |
| `DiscoveryScanner.Scanner.StepOnce` | src/launcher/DesktopEntryDiscovery.cpp:418-432 | One work unit is one step of the step function and keeps every bound; what finished runs of steps yield is said by DiscoveryResult |
| `DiscoveryScanner.Scanner.Publish` | src/launcher/DesktopEntryDiscovery.cpp:434-440 | The published snapshot is the current one up to the truncation flag, which it lacks exactly when nothing was noticed as new since the last publication and only truncation came up; that happens only while diagnostics are cut off and the scan goes on |
| `DiscoveryScanner.Scanner.Pull` | src/launcher/DesktopEntryDiscovery.cpp:451-489 | A pull does at most its budget of steps, stops early exactly for the end or a cancelled token, reports exactly the positions added, and publishes a snapshot that lacks the truncation flag exactly as said for publishing |
| `DiscoveryScanner.CreateScanner` | src/launcher/DesktopEntryDiscovery.cpp:491-520 | Limits, the number of roots and every root path are checked, in that order, before a scanner exists |
| `DiscoveryScanner.TraversalIsAComponent` | src/launcher/DesktopEntryDiscovery.cpp:55-60 | A root path is refused for dots exactly when one of its components between slashes is a dot or two |
| `Discovery.StepKeepsBounds` | src/launcher/DesktopEntryDiscovery.cpp:260-432 | Every step keeps the limits of the root and lowers a natural number computed from limits, root count and position |
| `Discovery.ScanTerminates` | src/launcher/DesktopEntryDiscovery.cpp:260-432 | Every scan is finished after a number of steps computed from the limits and the number of roots |
| `Discovery.ResultIgnoresBudgets` | src/launcher/DesktopEntryDiscovery.cpp:451-489 | However the work is split, a finished scan has one result |
| `DiscoveryScanner.IterateAlike` | src/launcher/DesktopEntryDiscovery.cpp:434-489 | Publishing between pulls does not influence the scan |
| `DiscoveryScanner.PullsAreSteps` | src/launcher/DesktopEntryDiscovery.cpp:434-489 | Any row of pulls, with a publication after each, does what their steps do together |
| `DiscoveryEnumeration.ResultIgnoresEnumerationOrder` | src/launcher/DesktopEntryDiscovery.cpp:311-361 | Every snapshot of a scan, and so the final one, is the same for every order in which directories enumerate their names |
| `DiscoveryCandidates.StepKeepsSmallest` | src/launcher/DesktopEntryDiscovery.cpp:210-221 | At every step, also after the candidate limit is hit, the kept candidates are the k smallest paths offered, and exceeding k marks the root truncated |
| `DiscoveryCandidates.ScanMissesNothing` | src/launcher/DesktopEntryDiscovery.cpp:223-361 | When nothing is left to open in a root that was never cut short, the paths offered are exactly the desktop files reachable beneath it |
| `DiscoveryResult.OffersEndSo` | src/launcher/DesktopEntryDiscovery.cpp:223-258 | What is offered is a regular file whose path is something followed by .desktop |
| `DiscoveryCandidates.StepKeepsComplete` | src/launcher/DesktopEntryDiscovery.cpp:223-361 | While no step cuts a subtree off, every opened directory is covered and everything known is really there, whether or not candidates had to be dropped |
| `DiscoveryClaims.StepKeepsClaims` | src/launcher/DesktopEntryDiscovery.cpp:363-416 | At every step the published entries are the first claims of the candidates processed, up to the entry limit |
| `DiscoveryClaims.FirstClaimsAre` | src/launcher/DesktopEntryDiscovery.cpp:363-416 | Identifiers of entries are distinct, and the entries are exactly what first claimants yield, a failing claimant leaving its identifier without an entry |
| `DiscoveryClaims.StepKeepsOrder` | src/launcher/DesktopEntryDiscovery.cpp:170-187 | Candidates are processed in order of root and then of path |
| `DiscoveryRuns.EveryRunIsGood` | src/launcher/DesktopEntryDiscovery.cpp:118-441 | After any number of steps of any scan all of the above hold together; in particular the candidates of a root that was not cut short are the k smallest of exactly the desktop files beneath it |
| `DiscoveryResult.FinishedScanIsExact` | src/launcher/DesktopEntryDiscovery.cpp:188-432 | A finished scan that is not marked truncated has found every root readable or missing, and its entries are, in order of root and path, exactly those of the first owners of their identifiers among all desktop files beneath all present roots |
| `DiscoveryResult.TruncatedExactly` | src/launcher/DesktopEntryDiscovery.cpp:148-432 | A scan is marked truncated exactly when it has come to something that it must leave out: a root, directory or name that cannot be read, or more names, directories, levels, candidates or entries than a limit allows |
| `DiscoveryScanner.PublishedWithoutFlag` | src/launcher/DesktopEntryDiscovery.cpp:434-489 | A concrete scanner publishes, after two pulls, a snapshot without the truncation flag while its current one has it |
| `DiscoveryRuns.EverySnapshotFeedsCatalog` | src/launcher/ApplicationCatalog.cpp:42-77 | Every snapshot that any scan holds passes the checks with which a catalog starts |
| `DiscoveryScanner.EveryPublicationFeedsCatalog` | src/launcher/ApplicationCatalog.cpp:42-77 | What is published after any row of pulls, with or without its truncation flag, passes the checks with which a catalog starts |
| `ApplicationCatalog.Catalog.Examine` | src/launcher/ApplicationCatalog.cpp:147-172 | One visible entry is decided unless the token is cancelled by then, which is reported, or its evaluation fails, with that error |
| `ApplicationCatalog.Catalog.Pull` | src/launcher/ApplicationCatalog.cpp:123-179 | A pull examines its budget of entries in order. It fails with cancellation exactly when the token is found cancelled, and otherwise only with the error of the entry at the cursor; failure is final and publishes nothing, and what is published passes the checks of a search |
| `ApplicationCatalog.Catalog.Publish` | src/launcher/ApplicationCatalog.cpp:97-108 | The published snapshot is what the fields amount to and passes the checks of a search |
| `ApplicationCatalog.EligibleAreDistinct` | src/launcher/ApplicationSearch.cpp:488-506 | Eligible entries are exactly the entries of eligible decisions, each once |
| `ApplicationSearch.MatchShape` | src/launcher/ApplicationSearch.cpp:122-140 | The find loop gives the best shape: exact, prefix, at the start of a word, anywhere, or none |
| `ApplicationSearch.BestMatch` | src/launcher/ApplicationSearch.cpp:155-180 | The best rank over all fields is computed exactly when the token is not found cancelled |
| `ApplicationSearch.BestIsLeast` | src/launcher/ApplicationSearch.cpp:142-180 | The best rank is the least one that a field attains, below sixteen, and absent exactly when no field matches |
| `Alphabets.FoldingIgnoresCase` | src/launcher/ApplicationSearch.cpp:111-120 | Two texts fold alike exactly when they differ in nothing but the case of letters |
| `ApplicationSearch.ParseQuery` | src/launcher/ApplicationSearch.cpp:257-306 | A text within the byte limit gets the one answer that its verdict as UTF-8 demands: refused, too large, or split into folded tokens and joined to a phrase |
| `ApplicationSearch.QueryIsNormal` | src/launcher/ApplicationSearch.cpp:275-305 | A query has at most the maximum of tokens, its phrase splits back into them, and it is empty exactly for blank text |
| `ApplicationSearch.ScoreIsStrictOrder` | src/launcher/ApplicationSearch.cpp:191-208 | Scores are in a strict total order |
| `ApplicationSearch.RankMeans` | src/launcher/ApplicationSearch.cpp:122-180 | A best rank is at most a bound exactly when some text of the application hits the text in one of the ways, and kinds of field, up to it: exact, prefix, start of a word, anywhere, each with name, generic name, keyword and category |
| `ApplicationSearch.LexLessIsTextBefore` | src/launcher/ApplicationSearch.cpp:191-208 | Text order is: a proper prefix, or a smaller byte at the first difference |
| `ApplicationSearch.ScoresCompare` | src/launcher/ApplicationSearch.cpp:191-208 | Of two matching applications the one with the smaller score is the one that comes before, said of their texts: by best rank of the phrase, sum and worst of the best ranks of the tokens, folded name, identifier and index |
| `ApplicationSearch.RankTokens` | src/launcher/ApplicationSearch.cpp:227-235 | Sum and worst rank of the tokens are computed exactly when the token of the caller is not found cancelled, and the sixteen-bit sum never wraps |
| `ApplicationSearch.ScoreEntry` | src/launcher/ApplicationSearch.cpp:210-236 | An entry is scored exactly when the token is not found cancelled |
| `ApplicationSearch.MatchesWhenAllTokensOccur` | src/launcher/ApplicationSearch.cpp:210-236 | An application matches exactly when every token occurs in one of its folded fields |
| `Ordering.SmallestOfMore` | src/launcher/ApplicationSearch.cpp:324-335 | Inserting into the k smallest and keeping k gives the k smallest of one more |
| `ApplicationSearch.Search.Retain` | src/launcher/ApplicationSearch.cpp:324-335 | Inserting at the lower bound and dropping the last keeps the first results of the sorted matches, and notes when more matched |
| `ApplicationSearch.Search.Publish` | src/launcher/ApplicationSearch.cpp:337-359 | The snapshot shows the kept entries, and its state says whether the catalog is complete, empty, or without matches |
| `ApplicationSearch.Search.ExamineNext` | src/launcher/ApplicationSearch.cpp:388-412 | One more application is examined, and the kept matches stay the best of those examined, exactly when the token is not found cancelled |
| `ApplicationSearch.Search.Advance` | src/launcher/ApplicationSearch.cpp:372-421 | A batch of a search that was not cancelled before succeeds exactly when the token is not found cancelled. Then, for any batch sizes, the results are ranked among the applications examined: each matches, each comes before the next, every match left out comes after all of them and is left out only because they fill the limit, and truncation is marked exactly when one is left out. Cancellation is final |
| `ApplicationSearch.Search.ExactNameComesFirst` | src/launcher/ApplicationSearch.cpp:191-208 | An application whose name is the query stands before every result in which no searched text equals the query |
| `ApplicationSearch.Search.HeldIsRanked` | src/launcher/ApplicationSearch.cpp:324-421 | What a search holds is ranked: it stands in the order of coming before, and no matching application left out comes before one that is kept |
| `RestartPolicy.BackoffFor` | src/session/RestartPolicy.cpp:25-35 | The delay is the initial delay times a power of two, cut at the maximum, and no doubling passes the maximum |
| `RestartHistory.DelayGrows` | src/session/RestartPolicy.cpp:25-35 | The delay never falls below the initial one, grows with the number of restarts in the window, and never passes the maximum |
| `RestartHistory.DecisionIsTheSimpleOne` | src/session/RestartPolicy.cpp:51-93 | In every chronological history the policy decides as one that remembers every restart since the component was last healthy and counts those within the window |
| `RestartPolicy.PruningFilters` | src/session/RestartPolicy.cpp:75-78 | On exits in order, popping from the front is filtering the whole history |
| `RestartPolicy.SessionRecoveryPolicy.ObserveExit` | src/session/RestartPolicy.cpp:51-93 | An exit is answered, and the history and flags changed, as the policy function says |
| `RestartPolicy.SessionRecoveryPolicy.ActivateSafeMode` | src/session/RestartPolicy.cpp:95-105 | Activation needs an offer, happens once and clears the histories |
| `RestartPolicy.CreatePolicy` | src/session/RestartPolicy.cpp:13-49 | A policy exists exactly for valid budgets |
| `RestartPolicy.WindowHoldsExactly` | src/session/RestartPolicy.cpp:51-93 | At most the maximum of restarts fall into any rolling window in every chronological run, exactly when the healthy interval is at least the window |
| `RestartPolicy.ShortHealthBreaksWindow` | src/session/RestartPolicy.cpp:71-73 | With a shorter healthy interval a run that exits repeatedly at one instant and once more after the healthy interval breaks the bound |
| `RestartPolicy.ChronologicalIsSpaced` | src/session/RestartPolicy.cpp:51-93 | In one chronological history restarts are spaced if the healthy interval covers the window, which is how every supervised run holds the bound |
| `RestartPolicy.LaunchTimeMattersExactly` | src/session/RestartPolicy.cpp:51-93 | Taking a later launch time changes the decision exactly when the exit is a failure outside safe mode, the true uptime is healthy and the assumed one is not, and earlier exits still lie in the window |
| `RestartPolicy.SafeModeOnce` | src/session/RestartPolicy.cpp:87-105 | In every run safe mode is offered at most once and activated at most once, after the offer |
| `RestartPolicy.SafeModeIsFinal` | src/session/RestartPolicy.cpp:64-67 | While safe mode is active every failure is final |
| `SessionSupervisor.WaitSliceIsBounded` | src/session/SessionSupervisor.cpp:98-110 | A wait slice is positive exactly before the deadline, within its maximum, and overshoots by less than a millisecond |
| `SessionSupervisor.Supervisor.WaitInterruptibly` | src/session/SessionSupervisor.cpp:727-738 | A completed wait lasts at least as long as asked, and a wait is given up exactly when shutdown has been requested |
| `SessionSupervisor.Supervisor.StopComponent` | src/session/SessionSupervisor.cpp:651-711 | A stop without error leaves the component not running; only events of this stop are logged, from its beginning to its end; it touches nothing else and clears the launch time |
| `SessionSupervisor.Supervisor.ShutdownAll` | src/session/SessionSupervisor.cpp:713-725 | A shutdown without error leaves no child running, the shell having been stopped before the settings service |
| `SessionSupervisor.Supervisor.Recover` | src/session/SessionSupervisor.cpp:560-590 | The policy is told of exactly this exit, observed at the next look at the clock; its decision is obeyed, never fails on a monotonic clock, and in safe mode restarts nothing; a restart is granted only after the whole delay since the exit was observed |
| `SessionSupervisor.Supervisor.StartUntilStable` | src/session/SessionSupervisor.cpp:459-558 | A start launches only what does not run, ends with a component that runs and has answered a probe since its launch or with one that does not run and the reason why, leaves the other component alone, and launches once in safe mode |
| `SessionSupervisor.Supervisor.StopAndRecover` | src/session/SessionSupervisor.cpp:507-520 | A child that is not ready in time is stopped before it is recovered. The policy is told of one exit whose launch time is not before the stop began and which is observed one look at the clock later, and its decision is obeyed; if stopping takes no time the exit has no uptime at all |
| `SessionSupervisor.StallForgetsLaunchTime` | src/session/SessionSupervisor.cpp:507-520 | A concrete start: a settings service that was up for five seconds misses its deadline and drives the session into safe mode, where recovery from its recorded launch time would have restarted it |
| `SessionSupervisor.Supervisor.HandleExit` | src/session/SessionSupervisor.cpp:592-605 | An exit is recovered from the recorded launch time, which becomes the launch time of the exit the policy is told of, and the component is started again; without a recorded time it fails |
| `SessionSupervisor.Supervisor.EnterSafeMode` | src/session/SessionSupervisor.cpp:607-649 | Everything is stopped, activation cannot fail, and success means that both components run in safe mode |
| `SessionSupervisor.Supervisor.StartSession` | src/session/SessionSupervisor.cpp:320-388 | After a successful start the shell runs exactly when its start did not report a clean stop |
| `SessionSupervisor.Supervisor.MonitorOnce` | src/session/SessionSupervisor.cpp:406-453 | A round that succeeds without entering safe mode has polled each child that was up when it began, the shell first; a poll that fails ends the session; every exit has been handed to recovery |
| `SessionSupervisor.Supervisor.Run` | src/session/SessionSupervisor.cpp:320-457 | In every run no running child is launched, safe mode is activated at most once and never in vain, each component is launched at most once afterwards, readiness is announced with a running shell unless the shell was last seen to exit cleanly, and success leaves no child running with the shell stopped first. In its log nothing is left undone, as the lemmas of SessionReading say event by event, and a session in which an error broke off does not end with success. The policy is told of a chronological history, so restarts are spaced when the healthy interval covers the window |
| `SessionLog.ReadyFitsAt` | src/session/SessionSupervisor.cpp:357-392 | Wherever such a log announces readiness, the shell is up, or it was last seen to exit cleanly |
| `SessionReading.NewsIsToldNext` | src/session/SessionSupervisor.cpp:406-453 | In such a log, the event right after an exit that a poll saw outside of a stop, or after a failed launch, tells the policy of exactly this component and reason |
| `SessionReading.OnlyNewsIsTold` | src/session/SessionSupervisor.cpp:459-558 | The policy is told of nothing else, but for a component that was just stopped because it did not become ready |
| `SessionReading.ToldIsLogged` | src/session/SessionSupervisor.cpp:560-605 | What the policy was told and what it decided are exactly what the log says, in order |
| `SessionReading.RoundsLook` | src/session/SessionSupervisor.cpp:406-453 | Every round of the monitor that ends without entering safe mode has polled each child that was up when it began, and the shell before it polled the settings service |
| `SessionReading.RestartsWait` | src/session/SessionSupervisor.cpp:560-590 | A component is launched no earlier than the delay of the last restart granted to it, counted from the exit it was granted for |
| `SessionReading.MarksAreProbed` | src/session/SessionSupervisor.cpp:474-556 | When readiness is announced, and at the end of every round, each child that is up has answered a readiness probe since its last launch, and at the announcement the settings service always has |
| `SessionReading.KillsComeLate` | src/session/SessionSupervisor.cpp:651-711 | A child is killed only inside a stop in which it was told to terminate, and then only after its grace or after a poll of it failed since |
| `SessionReading.NoneIsLeftUnkilled` | src/session/SessionSupervisor.cpp:651-711 | A stop that leaves its child up has tried to kill it |
| `SessionReading.ErrorsEndTheSession` | src/session/SessionSupervisor.cpp:320-457 | After a failed poll, a permanent readiness error, a failed stop or a failed marker nothing happens but stops |
| `SessionSupervisor.ReadyWithoutShell` | src/session/SessionSupervisor.cpp:357-392 | A concrete session announces readiness while no shell runs |
| `Notifications.ValidateSnapshot` | src/notifications/NotificationModel.cpp:381-411 | The validator accepts exactly the snapshots with few, distinct and valid cards whose images fit |
| `Notifications.ImagesFit` | src/notifications/NotificationModel.cpp:519-529 | The running image total accepts exactly the cards whose images fit, and its room is never negative |
| `Notifications.NotificationModel.Upsert` | src/notifications/NotificationModel.cpp:445-540 | An upsert changes counters and cards, or fails, as the upsert function says |
| `Notifications.NotificationModel.Dismiss` | src/notifications/NotificationModel.cpp:542-579 | A dismissal removes the card with the expected content, or fails |
| `Notifications.NotificationModel.AdvanceTimeouts` | src/notifications/NotificationModel.cpp:581-616 | Exactly the expired cards are removed and reported |
| `Notifications.GrantedExpiry` | src/notifications/NotificationModel.cpp:222-277 | A granted expiry lies after now, within the maximum timeout and within the clock |
| `Notifications.RunKeepsGood` | src/notifications/NotificationModel.cpp:413-616 | After any run on a monotonic clock, at the time of its last operation, cards are few, distinct, valid and within the image limit, and counters match |
| `Notifications.EveryPublicationIsValid` | src/notifications/NotificationModel.cpp:344-354 | While the clock stays a maximum timeout before its end, every snapshot published in any run passes the validator |
| `Notifications.UpsertedCardIsValidExactly` | src/notifications/NotificationModel.cpp:344-354 | In any reachable state, the card that an upsert publishes passes the validator exactly when its timeout never expires or the clock is a maximum timeout before its end; the other cards are those held before |
| `Notifications.ClockBoundIsExact` | src/notifications/NotificationModel.cpp:344-354 | For runs that may start a maximum timeout before the end of the clock, a bound on the clock makes every publication of every run pass the validator exactly when the bound is no later than that |
| `Notifications.ValidatorAgreesExactly` | src/notifications/NotificationModel.cpp:344-354 | However late the clock is, the published snapshot passes the validator exactly when no expiring card was updated within the last twenty-four hours of the clock |
| `NotificationInputs.UpsertSucceedsExactly` | src/notifications/NotificationModel.cpp:445-540 | An upsert succeeds exactly for presentable content whose timeout the clock can hold, while there is a generation, a card to replace or room and an identifier for a new one, and the images fit |
| `NotificationInputs.ContentIsAccepted` | src/notifications/NotificationModel.cpp:89-220 | The checks of an input pass exactly for presentable content: texts present and valid within their limits, identifiers of few plain characters, packed images of bounded size, at most eight distinct actions |
| `NotificationInputs.CardIsAcceptedExactly` | src/notifications/NotificationModel.cpp:381-411 | The validator accepts a card exactly when its content is presentable, its times are in order and its deadline lies within a day after an update that is itself a day before the end of the clock |
| `Notifications.LateCardIsRejected` | src/notifications/NotificationModel.cpp:344-354 | Within the last twenty-four hours of the clock, up to its last millisecond, a plain card is published that the validator rejects |
| `Notifications.StepPublishesNext` | src/notifications/NotificationModel.cpp:366-377 | A failed call changes nothing; a publication takes the next, larger generation |
| `Notifications.RemovedStaysRemoved` | src/notifications/NotificationModel.cpp:505-534 | An identifier that was given out and is no longer live never becomes live again |
| `NotificationBoard.UpsertPosts` | src/notifications/NotificationModel.cpp:445-540 | A successful upsert puts exactly one card on the board of cards by identifier: under the identifier to be replaced, keeping when it was first presented, or under a new one, with the given content and a deadline that is now plus the duration asked for, in milliseconds |
| `NotificationBoard.DismissalTakesDown` | src/notifications/NotificationModel.cpp:542-579 | A successful dismissal takes exactly the named card off the board, and that card showed the expected content |
| `NotificationBoard.TimeTakesDown` | src/notifications/NotificationModel.cpp:581-616 | The passing of time takes down exactly the cards whose deadline has come and reports exactly those; it fails exactly when there are some and no generation is left |
| `NotificationBoard.RunIsHeard` | src/notifications/NotificationModel.cpp:445-616 | After any run the board is what the successful operations, applied one by one to a board, add up to |
| `ProcessLaunch.AddWithin` | src/launcher/ProcessLaunch.cpp:24-30 | An amount is added exactly when the total stays within the limit, and the room left is never negative |
| `ProcessLaunch.CheckEntries` | src/launcher/ProcessLaunch.cpp:130-162 | The entries are refused with their first fault |
| `ProcessLaunch.NormalizedEnvironment` | src/launcher/ProcessLaunch.cpp:121-204 | The environment is checked and rewritten as the normalization function says |
| `ProcessLaunch.NoFaultMeans` | src/launcher/ProcessLaunch.cpp:130-162 | No fault means well-formed entries, explicit names once and a bounded total, and conversely |
| `ProcessLaunchPlans.WellFormedMeans` | src/launcher/ProcessLaunch.cpp:130-162 | An entry is well formed exactly when it is a nonempty name without an equals sign, such a sign and a value, and holds no null byte |
| `ProcessLaunch.NormalizingNormalizes` | src/launcher/ProcessLaunch.cpp:164-204 | A normalized environment has unique names and exactly one PWD, which matches the directory, within all limits |
| `ProcessLaunch.NormalizingTwice` | src/launcher/ProcessLaunch.cpp:121-204 | Normalizing again for the same directory succeeds and changes nothing |
| `ProcessLaunch.WorkingDirectoryIsNormalized` | src/launcher/ProcessLaunch.cpp:32-85 | The selected directory is absolute, bounded, free of null bytes and normalized |
| `ProcessLaunchPlans.DirectoryIsFoundExactly` | src/launcher/ProcessLaunch.cpp:32-85 | A working directory is found exactly when the default directory, the one that the entry names, and what normalizing makes of them are absolute, bounded and free of null bytes |
| `ProcessLaunch.ValidateFinalEnvelope` | src/launcher/ProcessLaunch.cpp:206-244 | The envelope is accepted exactly when arguments and total fit |
| `ProcessLaunch.MakePlan` | src/launcher/ProcessLaunch.cpp:248-324 | A plan is made exactly when all parts are acceptable and the envelope fits; it is the expected plan and the launcher will accept it. Otherwise the answer is the first fault of the parts, and when these are acceptable the plan can only be too large |
| `ProcessLaunch.PrepareLaunch` | src/launcher/DetachedApplication.cpp:93-203 | The launcher accepts exactly the launchable plans, up to the limit on open descriptors |
| `ProcessLaunch.CheckEnvironment` | src/launcher/DetachedApplication.cpp:157-203 | The environment is accepted exactly when names are unique, totals fit and the one PWD matches |
| `ProcessLaunch.PlanAndPrepare` | src/launcher/DetachedApplication.cpp:93-203 | Whatever is planned passes the launcher |
| `ProcessLaunchPlans.EntryChoosesDirectory` | src/launcher/ProcessLaunch.cpp:32-85 | The working directory is the default one when the entry names none, and otherwise the one the entry names, relative to the default one where it is not absolute |
| `ProcessLaunchPlans.NamedDirectoryIsUsed` | src/launcher/ProcessLaunch.cpp:32-85 | An absolute, normalized and bounded directory that the entry names is used as it is |
| `ProcessLaunchPlans.NormalizingKeepsEntries` | src/launcher/ProcessLaunch.cpp:164-204 | Normalizing an environment keeps every entry but those of PWD, in order, and adds the one that names the directory |
| `ProcessLaunchPlans.PlanRunsTheInvocation` | src/launcher/ProcessLaunch.cpp:248-324 | A plan runs the invocation with its resolved executable, behind the terminal and its arguments exactly when the entry asks for one |
| `ProcessLaunchPlans.PlanKeepsTheEnvironment` | src/launcher/ProcessLaunch.cpp:248-324 | A plan runs in the directory that the entry chooses, with every variable of the given environment and PWD naming that directory |
| `SettingsEngine.ChangedDomains` | src/settings/SettingsSnapshot.cpp:21-60 | The comparisons collect the domains that differ |
| `SettingsEngine.ChangedDomainsSuffice` | src/settings/SettingsSnapshot.cpp:21-60 | The changed domains are exactly those that differ, in order, and copying them reproduces the new configuration and theme |
| `SettingsEngine.FollowingKeepsUp` | src/settings/SettingsSnapshot.cpp:21-118 | A client that takes from each publication only the domains it names holds the current configuration and theme after every run |
| `SettingsEngine.NoChangedDomain` | src/settings/SettingsSnapshot.cpp:93-118 | The change list is empty exactly when configuration and theme are equal, so such a publication changed only provenance or warnings |
| `SettingsEngine.PublicationState.PublishCandidate` | src/settings/SettingsSnapshot.cpp:93-118 | A candidate equal to the current one publishes nothing; otherwise the next generation is published and the current one becomes the previous, or nothing changes |
| `SettingsEngine.Engine.BuildCandidate` | src/settings/SettingsEngine.cpp:92-118 | A candidate is resolved from the held bundle, with integrations off in safe mode and a matching profile |
| `SettingsEngine.Engine.RequestProfileChange` | src/settings/SettingsEngine.cpp:120-142 | A profile change follows the step function |
| `SettingsEngine.Engine.ReloadConfiguration` | src/settings/SettingsEngine.cpp:144-184 | A reload follows the step function, with the bundle restored on failure |
| `SettingsEngine.Engine.ValidateCandidate` | src/settings/SettingsEngine.cpp:186-205 | A validation answers as the step function says and changes nothing |
| `SettingsEngine.Start` | src/settings/SettingsEngine.cpp:45-90 | A start fails exactly when a bundle, the startup configuration or its resolution fails, with that error; a started engine is coherent and has published generation one from the startup configuration |
| `SettingsEngine.RunKeepsCoherent` | src/settings/SettingsEngine.cpp:92-184 | In every reachable state the current theme is what the held bundle and the current configuration resolve to, and the previous snapshot is the one published just before |
| `SettingsEngine.FailureChangesNothing` | src/settings/SettingsEngine.cpp:144-184 | A failed reload or profile change, and any validation, leaves bundle, current and previous as they were |
| `SettingsEngine.RunCountsPublications` | src/foundation/Generation.hpp:31-38 | The generation counts the publications and never wraps |
| `SettingsEngine.ProfileChangeKeepsDomains` | src/settings/SettingsEngine.cpp:120-142 | A published profile change changes the profile and no other domain |
| `SettingsEngine.ReloadIsIdempotent` | src/settings/SettingsEngine.cpp:144-184 | Repeating a reload with the same inputs publishes nothing more |
| `SettingsEngine.ValidationForeseesReload` | src/settings/SettingsEngine.cpp:186-205 | A validation accepts exactly what the held bundle can build, and such a reload then succeeds |
| `SettingsRequests.ReloadIsExact` | src/settings/SettingsEngine.cpp:144-184 | A reload succeeds exactly when the loaded configuration and the replacement bundle can be read, resolved and published, and then exactly this configuration, without integrations in safe mode, is current with the theme of that bundle; a failed promotion is the only warning |
| `SettingsRequests.ProfileChangeIsExact` | src/settings/SettingsEngine.cpp:120-142 | A change to lustre or forge changes exactly the profile of the current configuration, or does nothing when it is held already, and fails exactly when that cannot be resolved or published |
| `SettingsRequests.ValidationIsExact` | src/settings/SettingsEngine.cpp:186-205 | A validation answers that a candidate is valid exactly when it can be read and has a theme of its profile, and otherwise names a syntax error, an unsupported version or an invalid configuration; it changes nothing |
| `SettingsRequests.OtherProfilesAreRefused` | src/settings/SettingsEngine.cpp:120-142 | Any other profile name is refused |
| `SettingsRequests.CurrentIsWhatWasGranted` | src/settings/SettingsEngine.cpp:92-184 | After any run, configuration and bundle are what the requests that succeeded add up to, and the theme is what the one resolves from the other |
| `SettingsDaemon.ServiceWorker.TrySubmit` | src/settingsd/ServiceWorker.cpp:69-77 | A job is accepted exactly when the slot is free and stopping has not begun |
| `SettingsDaemon.ServiceWorker.TakeCompletion` | src/settingsd/ServiceWorker.cpp:79-88 | The waiting completion is taken and the slot released |
| `SettingsDaemon.ServiceWorker.Wake` | src/settingsd/ServiceWorker.cpp:128-141 | The worker exits when stopping, and otherwise moves the pending job to execution |
| `SettingsDaemon.ServiceWorker.Emplace` | src/settingsd/ServiceWorker.cpp:145-156 | A finished result updates the snapshot and becomes the completion, unless stopping |
| `SettingsDaemon.ServiceWorker.NotifyCompletion` | src/settingsd/ServiceWorker.cpp:161-168 | The notification counter goes up by one |
| `SettingsDaemon.SettingsService.Submit` | src/settingsd/SettingsService.cpp:351-368 | A call is refused or accepted; an identifier is consumed once the pending check has passed |
| `SettingsDaemon.SettingsService.Dispatch` | src/settingsd/SettingsService.cpp:150-194 | A taken completion is matched, signalled if it published, and then answered with its own answer if the signal went out; a failed send ends the epoch |
| `SettingsDaemon.SettingsService.RejectPendingForShutdown` | src/settingsd/SettingsService.cpp:196-201 | The pending call is rejected |
| `SettingsDaemon.RunKeepsInv` | src/settingsd/ServiceWorker.cpp:69-159 | In every interleaving at most one of pending job, executing job and untaken completion exists, and pending call and slot agree outside submit and dispatch |
| `SettingsDaemon.ReachableIsSafe` | src/settingsd/SettingsService.cpp:155-160 | The unmatched-completion branch is unreachable |
| `SettingsDaemon.NoLostWakeup` | src/settingsd/ServiceWorker.cpp:79-109 | A waiting completion is announced: the counter is one, or the worker is about to raise it, or the dispatcher has just cleared it and will take |
| `SettingsDaemon.NothingStartsAfterStop` | src/settingsd/ServiceWorker.cpp:96-109 | Once the stop flag is raised no job starts and no completion appears |
| `SettingsDaemon.SignalsAreConsecutive` | src/settingsd/SettingsService.cpp:164-176 | The signalled generations are 2, 3, 4 and so on without gap or repeat |
| `SettingsDaemon.FetchesAndReplies` | src/settingsd/SettingsService.cpp:164-176 | A fetch returns the last signalled generation or the next, never less than before; a publication is replied to right after its signal |
| `SettingsDaemon.AnsweredOnce` | src/settingsd/SettingsService.cpp:150-201 | A call is accepted at most once; then it is open, or was answered exactly once by a message that went out, or was lost exactly once |
| `SettingsDaemon.DispatchSettles` | src/settingsd/SettingsService.cpp:150-194 | A dispatch answers its call exactly when the bus takes the signal of a publication and the reply, and loses it otherwise |
| `SettingsDaemon.CallIsAnsweredExactly` | src/settingsd/SettingsService.cpp:150-201 | An accepted call that is no longer open was closed by one dispatch or one rejection, and was answered exactly when everything that this step sent for it went out |
| `SettingsDaemon.FinishedAnswersAll` | src/settingsd/SettingsService.cpp:501-541 | After the end of an epoch no call is open, and every accepted one was answered exactly once or lost exactly once in a failed send |
| `SettingsDaemon.SuccessfulSendsAnswerAll` | src/settingsd/SettingsService.cpp:150-201 | In every schedule in which the bus takes every message, every accepted call is answered exactly once by the end of the epoch |
| `SettingsDaemon.FailedSendLosesCall` | src/settingsd/SettingsService.cpp:150-194 | Concrete schedules: an accepted call is lost when the signal of its publication fails, and also when only its reply fails |
| `SettingsDaemon.OpenCallProgresses` | src/settingsd/ServiceWorker.cpp:128-178 | An open call can always be brought one step closer to its answer, and only the start of shutdown takes it further away |
| `SettingsDaemon.OpenCallCloses` | src/settingsd/ServiceWorker.cpp:128-178 | From every reachable state in which the dispatcher serves, some continuation closes the open call within the steps counted, all sends succeeding |
| `SettingsDaemon.EngineStepsAreAllowed` | src/settingsd/ServiceWorker.cpp:111-126 | Every step of the settings engine is one that the protocol allows |
| `SettingsAnswers.ReplyIsTheEnginesAnswer` | src/settingsd/SettingsService.cpp:150-194 | In every schedule, each reply carries the answer that the engine gave when it executed this very call, for the operation that was asked for when the call was accepted, which came before |
| `SettingsAnswers.SignalIsTheEnginesPublication` | src/settingsd/SettingsService.cpp:164-176 | Each signal names a call that the engine executed, and the generation that this execution published |
| `SettingsAnswers.CallGetsItsAnswer` | src/settingsd/SettingsService.cpp:150-194 | Conversely, whatever is logged for an executed call carries the answer of that execution: a reply repeats it, and a signal its generation |
| `SettingsAnswers.ExecutionWasAskedFor` | src/settingsd/ServiceWorker.cpp:111-159 | Every job that the engine executes was accepted before, with the same identifier and operation |
| `SettingsAnswers.FailedSendIsLast` | src/settingsd/SettingsService.cpp:150-194 | Nothing is sent after a message that the bus did not take |

## Left out

- Error messages and recovery hints; only the error codes, and in `DesktopExec` the distinct failures, are kept.
- Groups, keys, locales and field assignment of desktop entries (`src/launcher/DesktopEntryParser.cpp:328-581`): long but local to each branch; also the byte limit and the check for NUL bytes of a whole document (`src/launcher/DesktopEntryParser.cpp:593-602`).
- The schema readers of configuration and theme documents, theme colour arithmetic and snapshot serialization: deterministic functions that may fail, passed as parameters. Of the configuration reader only its version check (`src/config/ConfigurationParser.cpp:399-403`) is kept, in the type of configurations.
- D-Bus marshalling, credentials and authorization; handlers that only read the current snapshot are one fetch step.
- A failure to retain a message reference in `submit`, and failures of `eventfd` other than a full counter.
- Lexical path operations, executable lookup and identifier derivation: parameters. `ProcessLaunch` uses of them what `Lawful` states, which is how `src/launcher/DesktopExecutable.cpp:135-185` builds its candidates.
- A file system that changes during a discovery scan; the second look at a directory before it is opened is part of `opens`.
- The absolute paths and locations of discovered files: `locatable` stands for the check of `src/launcher/DesktopEntryDiscovery.cpp:79-104`.
- The moved-from checks of owner objects, and enumerators outside their type's range.
- Durations and clock points are unbounded integers in one unit, except that `Notifications` keeps the end of the clock.
- Pixels of notification images count only by their number; `activateAction` and `focusTargets` are lookups without further state.
- The log lines of the session supervisor, and what a child process does: answers of the platform are arbitrary functions of the number of calls.
- Real sorting, minimum, maximum, lower-bound and find algorithms of the C++ library are functions here; only the library's `find` over text is a loop.
- Promotion of the last known valid configuration is an input that says whether it worked; `startupWarnings` is an input of `SettingsEngine.Start`.
- PrepareLaunch: does not model the limit on open descriptors, which is read from the process.
