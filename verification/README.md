# Verified models of baybo's recovery, redaction, caches and text machines

This project models the parts of the repository whose correctness is hardest to see from the
code, and proves what their comments, tests and callers rely on.

* **Crash recovery** (`TraceModel`, `TraceStore`, `TraceRecovery`, `RecoveryLaws`,
  `RecoveryConvergence`, `RecoveryCounts`, `BootRecovery`).
  Turns, steps and spans left half-open by a crash are closed bottom-up in a store whose every call
  may work, be refused, or write and still report an error. `Settle` is the state an uninterrupted
  pass leaves; `PartOf` is what a pass may leave wherever it stops. The code's loops are proved to stay
  in `PartOf` after every single call, and `RecoveryConvergesIff` says for exactly which turns any number
  of interrupted passes followed by one without failing calls always ends where an uninterrupted one does.
* **Secret redaction** (`Redaction`, `Sanitizing`, `Utf8`, `SecurityGateway`). Detected secrets are masked one
  after the other under minted placeholders and vaulted; revealing puts them back in any order. Texts
  are sequences of characters and placeholder tokens.
* **Sidecar build cache** (`SidecarManifest`, `ManifestCuts`, `CacheFiles`, `SidecarBuild`,
  `CacheFileLaws`, `Fingerprint`, `FingerprintLaws`, `FingerprintTells`). The TSV manifest printer and parser, what a manifest write that stops
  half-way loads as, the rule that only a run that lost nothing may write the manifest, when the cached
  files hold the bytes their sidecars were hashed from, the directory walks that feed the fingerprint, and what the hashed stream tells apart.
* **Text machines**: the code-fence printer and the Markdown reader (`Fences`, `FenceLaws`), the streaming diff
  filter and its block-splitting twin (`DiffSections`) with the two parsers that feed them
  (`DirtyPaths`), the escape-sequence stripper and error-line
  extractor (`ErrorLines`, `ErrorLineLaws`), the one-shot answer writer and its two event loops
  (`AnswerStream`, `AnswerEvents`).
* **Tool-count sidecars** (`ToolCounts`, `ToolSidecars`, `ToolSidecarLaws`): counting, sweeping, and
  when a count file that looks current can be trusted, over whole histories of sweeps and changes.
* **Token F1 and punch pacing** (`TokenF1`, `PunchPacing`).

`Wrappers`, `Lines`, `Ordering` and `Counting` hold what several of these share. `dafny verify dfyconfig.toml`
checks the whole project.

## Conventions

* Code that updates state is a class or a method with the source's loops, tied to a function of the
  old state; laws are lemmas about those functions. Hash-map and directory order is an arbitrary
  choice (`:|`), so a result that is a function of the input holds for every order.
* Crash points and failing calls are a plan fixed in advance and otherwise arbitrary: a process killed
  before a store call leaves what a plan refusing every later call leaves.
* The leak detector, the minter, regular-expression character classes, JSON text, file contents and the
  clock are parameters. What is assumed of them is written in one predicate each: `Sanitizing.Trusted`
  (matches are non-empty, the keyed minter is injective), `Fences.Usual`, `TokenF1.Sane`,
  `ToolSidecarLaws` through `ToolSidecars.Faithful` (parsing what was serialised gives it back),
  `PunchPacing.Allowed` (the timer does not fire early, the clock does not run back).

## Where the code and its descriptions differ

* Boot recovery is described as idempotent and convergent. `RecoveryConvergence.RecoveryConvergesIff`
  proves exactly which due turns every interrupted recovery finishes. Three things stand in the way:
  * A live turn row that does not decode. The listing of live turns fails as a whole
    (`crates/turn/src/lifecycle.rs:287-294`), so no boot does anything for *any* turn
    (`UndecodableTurnStopsRecovery`, with a concrete store in `UndecodableTurnBlocksAnother`). `Listable`
    is the condition.
  * A turn with a span row, or an event of a pending span, that does not decode. Undecodable *steps* are
    skipped so that they cannot hold a turn open (`crates/agent/src/recovery.rs:351-353`); an undecodable
    span under a decodable step still fails the whole turn, which stays live at every boot
    (`UnreadableTurnStaysLive`, with a concrete store in `UndecodableSpanBlocksItsTurn`). A detached turn
    whose own row does not decode fails in the same way. `Readable` is the condition.
  * A turn already terminal that owns an open row (a *detached* turn), if a step of it is Pending but
    already carries an end time, or a span is so under a step that has one. The listing finds rows by a
    missing end time, so such a row is reached only through an open one beside it, and is lost when a pass
    is cut between the two (`UnpairedTurnCanBeLost`, with a concrete store in `UnpairedDetachedRowIsLost`).
    `Paired` is the condition. That such a turn *can* be lost needs rows listed in any order, which is what
    the storage trait allows; the SQLite adapter sorts them by start (`crates/storage/src/sqlite/trace.rs:74`
    and `:172`), so there an unpaired row that starts before every open row of its turn is closed first.
* The recovery summary falls short of what was closed when a turn fails half-way: the rows closed before
  the failing span are not counted (`RecoveryCounts.CountersCanFallShort`). `CountersExactIff` says when
  the counters are exact.
* The unfinished-step listing is modelled as the SQLite adapter does it: a step is listed when its end
  column or that of one of its spans is null, whatever its outcome says.
* A diff section is said to be kept if and only if its `b/` path is not excluded. The streaming filter
  takes the header's last token, so the promise holds exactly for paths without a space
  (`DiffSections.KeptAsPromisedIff`); any other path is never excluded itself, and its section is dropped
  when the unrelated file that token may name is. The Python twin names the path exactly when the old
  path holds no ` b/` and the new one trims to itself (`FirstSideNamesPathIff`). The two agree on a diff for
  every exclusion set exactly when both conditions hold for each of its headers (`GitDiffFiltersAgreeIff`).
* The paths to exclude come from two parsers of the same listing, one taking what follows the last ` -> `
  of a line and one what follows the first. They name the same path for a rename exactly when no other
  arrow stands in, or overlaps, either path's side and the new path is not all quotes
  (`DirtyPaths.RenamesAgreeIff`).
* The fingerprint's stream separates its fields with NUL characters and does not escape them. A file whose
  content spells another file's record gives the stream of both files (`FingerprintTells.NulHidesAFile`). For
  names without slashes, backslashes and NULs and contents without NULs the stream determines what was
  walked (`FilesAreToldApart`, `TreesAreToldApart`); one edited file always shows, whatever it holds
  (`FingerprintLaws.EditIsSeen`).
* A count sidecar "no older than its trace" counts as current. A trace rewritten within the same
  clock tick keeps its old counts (`TraceChangeKeepsHonestIff`), one rewritten between its reading and the
  write of its counts gets the old ones (`MidSweepChangeKeepsHonestIff`), and a sidecar write that stops
  half-way leaves text that later sweeps never repair (`SpoiledStaysSpoiled`). The `...Iff` lemmas give the
  exact conditions under which every current sidecar is right.
* "No partial cache" rests on how the manifest write ends. Cut inside the first word of a row, or right
  after the truncation, it loads as a smaller well-formed cache; cut inside the last field of a row, as one
  with a shortened hash or asset file name. Cut anywhere else it is refused, or loads as what was written
  (`ManifestCuts.CutServesIff`). Over any sequence of builds the cache is sound at every point exactly when
  every write was of the harmless kind (`SidecarBuild.SoundOverRunsIff`).
* The cached files are overwritten in place before the manifest is. A rebuild that stops in the middle of a
  file the older manifest names leaves a stump that the next run serves under the old hash
  (`CacheFileLaws.CutAssetIsServed`). `CacheFiles.GenuineOverHistoryIff` and `GenuineUnlessLeftShort` say
  exactly when every listed file holds what was hashed.
* Cache file names join the sidecar's name, a number and the asset's name with dots, so a sidecar named like
  another one's aux file shares a file with it (`CacheFiles.FilesCollideIff`).
* The printed text of a one-shot answer can differ from the returned answer when a final text replaces
  streamed deltas; `AnswerStream.ShownIsAnswered` says exactly when.

## Model

| member | source | states |
|---|---|---|
| TraceStore.Store.ListUnfinishedSteps | crates/storage/src/sqlite/trace.rs:93-124 | lists, once each and in any order, the steps that are open or own an open span; a failing call lists nothing |
| TraceStore.Store.ListRecoverable | crates/turn/src/lifecycle.rs:287-294 | lists the live turns, once each and in any order; fails as a whole when the call fails or any of their rows does not decode |
| TraceStore.Store.CancelAt | crates/turn/src/lifecycle.rs:231-248 | a live turn becomes cancelled for the crash at the given instant, a terminal turn is left as it is and reported as done, a row that does not decode fails; a lost reply still writes |
| TraceRecovery.PickSpanCloseTime | crates/agent/src/recovery.rs:462-479 | the latest of the span's start and all its event times, whatever their order; fails only on a failing call or an undecodable event |
| TraceRecovery.CloseSpan | crates/agent/src/recovery.rs:425-453 | one span ends up as it was or closed for good; on success it is closed, its end is reported, and it was counted exactly when it left the Pending set |
| TraceRecovery.CloseStepSpans | crates/agent/src/recovery.rs:410-456 | on success every span of the step is closed and the floor is the exact maximum of the step's start, crash instant and span ends, and every span could be read; with fine calls and readable spans it succeeds; a failure leaves some of the same writes |
| TraceRecovery.EndStep | crates/agent/src/recovery.rs:373-397 | a step is ended only over closed spans: Pending becomes cancelled at the floor, a Done row without an end gets the floor, any other row is kept |
| TraceRecovery.CloseTurnSubtree | crates/agent/src/recovery.rs:341-405 | on success all steps and spans of the turn are closed and the floor is the exact maximum over them; undecodable steps are skipped without failing, while an unreadable span fails it; nothing outside the turn is touched; the counts equal the drop in Pending rows |
| BootRecovery.RecoverTurn | crates/agent/src/recovery.rs:107-145 | one live turn: with its own calls fine and its spans readable it ends cancelled for the crash at its subtree's end, with nothing open or pending under it; with a span that cannot be read it stays as it was, whatever the calls; a lost reply may cancel it uncounted; other turns are untouched |
| BootRecovery.RecoverListed | crates/agent/src/recovery.rs:107-145 | the loop of both entry points: each readable turn whose own calls worked is finished whatever happened to the others; the counters never exceed what left the Pending and live sets |
| BootRecovery.RecoverPanickedSession | crates/agent/src/recovery.rs:189-261 | wherever it stops, every changed row is as a crash leaves it; without failing calls exactly the session's live turns that can be read are cancelled for the crash, at the crash instant or later, with nothing open under them, and the counters are exact for what was closed under them; one live row of the session that does not decode stops it before anything is written; other sessions are untouched; a failing turn does not affect the others |
| BootRecovery.RecoverDetachedTurn | crates/agent/src/recovery.rs:288-332 | a terminal turn's open trace is closed without touching its status or end; it is counted only when something Pending was closed |
| BootRecovery.RecoverDetached | crates/agent/src/recovery.rs:263-335 | the second pass reaches every detached turn and none of the turns the first pass handled, in any hash-set order; each readable one whose own calls worked is finished |
| BootRecovery.BusyAre | crates/agent/src/recovery.rs:312-328 | counted are the readable detached turns with a Pending step or a Pending span under a decodable one |
| BootRecovery.CollectedAreDetached | crates/agent/src/recovery.rs:269-286 | the turns named by the second listing are, among those that exist, exactly the terminal turns that owned an open row before the sweep |
| BootRecovery.RecoverOrphans | crates/agent/src/recovery.rs:92-166 | stopped anywhere it has done part of a sweep and every changed row is as a crash leaves it; without failing calls it is a clean sweep that cancels for the crash exactly the live turns it can read, leaves nothing open under them or under a readable detached turn, and counts exactly the rows closed under turns it can read; when a live turn row does not decode, or nothing is due, it writes nothing and returns zeroes; a readable turn of either pass whose own calls worked is finished whatever happened to the others |
| RecoveryLaws.PassLeavesACrash | crates/agent/src/recovery.rs:341-479 | however far a pass got: a changed turn was live and is cancelled with the crash as its reason, a changed Pending step or span is cancelled likewise, a Done row without an end keeps its outcome, each ends at the exact latest of its start, the ends that stand below it and the crash instant, and nothing else has changed |
| RecoveryLaws.DoneTurnsAreClosedForGood | crates/agent/src/recovery.rs:107-145 | under a finished turn nothing is pending or without an end, and it was cancelled for the crash if it was live |
| RecoveryLaws.LiveAre | crates/turn/src/lib.rs:116-121 | live are exactly the pending, in-progress and stuck turns |
| RecoveryLaws.LiveInAre | crates/agent/src/recovery.rs:189-203 | a session's are the live ones that carry its id |
| RecoveryLaws.DetachedAre | crates/agent/src/recovery.rs:263-286 | detached are exactly the ended turns with a decodable step that has no end, or a span under it that has none |
| RecoveryCounts.CountersMean | crates/agent/src/recovery.rs:119-143 | the counters of a pass number the Pending steps and spans of readable turns, and the turns, that it changed |
| RecoveryCounts.CountersExactIff | crates/agent/src/recovery.rs:119-143 | the step and span counters equal the whole drop in Pending rows exactly when nothing was closed under a turn that cannot be read |
| RecoveryCounts.AllReadIsExact | crates/agent/src/recovery.rs:119-143 | they are exact whenever every turn of the pass can be read |
| RecoveryCounts.CountersCanFallShort | crates/agent/src/recovery.rs:119-143 | a concrete store and row order where a clean sweep closes a span it does not count |
| RecoveryLaws.LatestIsUnique | crates/agent/src/recovery.rs:472-477 | the explicit running maximum is the one latest instant |
| RecoveryLaws.StepFinalStable | crates/agent/src/recovery.rs:373-397 | what a step will be closed to does not change while a pass is under way |
| RecoveryLaws.TurnFinalStable | crates/agent/src/recovery.rs:119-136 | the end time a turn will be cancelled at does not change while a pass is under way |
| RecoveryLaws.PassesCompose | crates/agent/src/recovery.rs:84-91 | an interrupted pass followed by a later one is itself part of one pass over the first store |
| RecoveryConvergence.DroppedTurnsAreDone | crates/agent/src/recovery.rs:263-286 | a turn the next boot no longer lists was finished by an earlier pass |
| RecoveryConvergence.InterruptedRecoveryConverges | crates/agent/src/recovery.rs:84-166 | any number of boots cut short anywhere, then one without a failing call, leave every row and turn end of a due turn that can be read and resumed exactly as a single uninterrupted sweep of a listable store does |
| RecoveryConvergence.CleanSweepIsIdempotent | crates/agent/src/recovery.rs:88-91 | after a clean sweep over readable turns nothing is due and a further sweep changes no row |
| RecoveryConvergence.CleanSweepsAgree | crates/agent/src/recovery.rs:106-145 | when every due turn can be read the final store does not depend on turn, row or hash-set order; under a turn that cannot be read, which rows are closed does depend on it |
| RecoveryConvergence.UnpairedDetachedRowIsLost | crates/agent/src/recovery.rs:263-286 | a concrete store where an interrupted pass hides a detached row for good |
| RecoveryLaws.ReadableStable | crates/agent/src/recovery.rs:416-421 | what can be read does not change while a pass is under way |
| RecoveryConvergence.CleanSweepFinishesIff | crates/agent/src/recovery.rs:107-145 | a sweep without failing calls finishes a live turn exactly when every live turn row decodes and this turn's spans can be read |
| RecoveryConvergence.UnreadableTurnStaysLive | crates/agent/src/recovery.rs:416-421 | over any number of boots a live turn with a span that cannot be read keeps its row |
| RecoveryConvergence.UndecodableSpanBlocksItsTurn | crates/agent/src/recovery.rs:416-421 | a concrete store with such a turn, which a clean sweep leaves as it is |
| RecoveryConvergence.UndecodableTurnStopsRecovery | crates/turn/src/lifecycle.rs:287-294 | while one live turn row does not decode, any number of boots leave the whole store as it is |
| RecoveryConvergence.UndecodableTurnBlocksAnother | crates/turn/src/lifecycle.rs:287-294 | a concrete store where such a row keeps another turn, with nothing wrong about it, live |
| RecoveryConvergence.SettlingIsClean | crates/agent/src/recovery.rs:92-166 | from every store whose live turn rows decode a sweep without failing calls exists: it settles what it can read |
| RecoveryConvergence.UnpairedTurnCanBeLost | crates/agent/src/recovery.rs:263-286 | with rows listed in any order, every readable detached turn of a listable store that is not paired has an interruption after which no later boot finishes it |
| RecoveryConvergence.RecoveryConvergesIff | crates/agent/src/recovery.rs:84-166 | every interrupted recovery of a due turn finishes it exactly when every live turn row decodes, this turn can be read, and it is live or paired |
| RecoveryLaws.EndsAreExactMaxima | crates/agent/src/recovery.rs:66-73 | a pending span ends at the latest of start and events, a step at the latest of start and span ends, a turn at the latest of start and step ends, each joined by the crash instant when known |
| RecoveryLaws.ClosedRowsNest | crates/agent/src/recovery.rs:337-340 | every row a pass closes starts before it ends and ends no earlier than its children |
| RecoveryLaws.ObservedClockInventsNothing | crates/agent/src/recovery.rs:58-60 | boot recovery writes only instants already recorded in the turn's subtree |
| RecoveryLaws.PassFrame | crates/agent/src/recovery.rs:341-405 | rows of other turns, closed rows, terminal turns, payloads and start times are never changed |
| Redaction.RevealOneMore | crates/agent/src/security.rs:367-381 | sequential replacement, one placeholder at a time, equals replacing all known placeholders at once, so order is irrelevant |
| Redaction.MaskThenExpand | crates/agent/src/security.rs:704-705 | masking a secret under a placeholder that stands for it loses nothing |
| Redaction.MaskRemoves | crates/agent/src/security.rs:705 | after replacing a secret it no longer occurs anywhere |
| Redaction.MaskAddsNothing | crates/agent/src/security.rs:705 | replacing a secret never brings another into being |
| Sanitizing.SanitizedFaithful | crates/agent/src/security.rs:689-712 | sanitise then reveal is the identity on placeholder-free text, also when one secret is part of another; no detected secret is left; every new placeholder resolves |
| Sanitizing.SanitizedValueFaithful | crates/agent/src/security.rs:714-734 | the same for every nested JSON value, with keys, shape and non-string leaves unchanged |
| Sanitizing.RevealKeepsShape | crates/agent/src/security.rs:758-779 | revealing keeps the tree, its keys and its non-string leaves |
| Sanitizing.SameShapeIff | crates/agent/src/security.rs:714-734 | two trees have the same shape exactly when they are the same once their strings are emptied |
| Sanitizing.FirstsJoin | crates/agent/src/security.rs:699-711 | first matches come in order, each secret under the rule of its first match |
| SecurityGateway.Gateway.SanitizeString | crates/agent/src/security.rs:689-712 | the in-place loop with its seen-set masks each distinct original once, in first-match order, and mints exactly those |
| SecurityGateway.Gateway.SanitizeValue | crates/agent/src/security.rs:714-734 | the tree walk mints exactly the secrets detected in some string leaf |
| SecurityGateway.Gateway.Sanitize | crates/agent/src/security.rs:328-354 | on success the result reveals to what the input reveals to, holds no detected secret, and the vault gained exactly the detected secrets; it fails only when a vault call does |
| SecurityGateway.Gateway.SanitizeJson | crates/agent/src/security.rs:259-286 | the same for a tool's JSON output |
| SecurityGateway.Gateway.Redact | crates/agent/src/security.rs:845-860 | on success every known value of five UTF-8 bytes or more is gone, so every one of five characters or more; ASCII values shorter than five leave text and vault alone; the result reveals to what the text reveals to and only such values are vaulted |
| Utf8.Utf8LenIs | crates/agent/src/security.rs:849 | a string's bytes are its characters, one more for each from U+80, from U+800 and from U+10000 on |
| Redaction.OccursMeans | crates/agent/src/security.rs:849 | a value occurs in a text exactly when the text is something, the value's characters, and something |
| SecurityGateway.RedactOneMore | crates/agent/src/security.rs:848-858 | vaulting and masking one more value undoes no earlier masking |
| SecurityGateway.Gateway.RevealText | crates/agent/src/security.rs:358-384 | every placeholder the vault knows is replaced by its secret and no other changes, in any set order |
| SecurityGateway.Gateway.RevealValue | crates/agent/src/security.rs:388-415 | the same on every string leaf of a JSON tree, each placeholder resolved once; it fails only when a vault call does |
| SecurityGateway.SubstituteInText | crates/agent/src/security.rs:758-766 | substituting in any map order, skipping absent placeholders, equals substituting all at once |
| SecurityGateway.SubstituteInValue | crates/agent/src/security.rs:758-779 | the in-tree substitution reveals every string leaf |
| SecurityGateway.Gateway.ApplyMatchesToBlocks | crates/agent/src/security.rs:452-483 | one mint per distinct original, in order, applied to every text block; other blocks are untouched |
| SecurityGateway.RecordMints | crates/agent/src/security.rs:499-501 | the audit map gains each minted placeholder under its rule, the last one winning, and keeps every other entry |
| SecurityGateway.Gateway.PersistMints | crates/agent/src/security.rs:487-518 | the session map records every mint, the vault every secret, or an initial part of them when a call fails |
| SecurityGateway.Gateway.SanitizeInput | crates/agent/src/security.rs:63-93 | a blocked message is replaced wholesale, vaulting and recording nothing; any other is free of every secret found in any of its blocks, even when a vault call fails, and on success reveals block for block to what it was |
| SecurityGateway.MaskedBlocksConceal | crates/agent/src/security.rs:472-480 | applying all matches to all blocks conceals each of them |
| SecurityGateway.ScanBlocksMean | crates/security/src/leak_detector.rs:122-143 | a message is blocked exactly when one of its text blocks' own scans blocks, and is masked for what any of them matches |
| SecurityGateway.MaskedStaysRevealable | crates/agent/src/security.rs:358-384 | a text masked in one call reveals to what it was after any number of later calls, to itself when it held no placeholder |
| SecurityGateway.MaskedValueStaysRevealable | crates/agent/src/security.rs:388-415 | the same for JSON trees |
| SecurityGateway.OneEntryPerSecret | crates/agent/src/security.rs:487-518 | vault entries number exactly the distinct secrets taken, over all calls and sessions |
| SidecarManifest.WriteManifest | crates/gateway/build.rs:1312-1337 | the text is the sidecar and aux rows in order, each newline-terminated |
| SidecarManifest.LoadManifest | crates/gateway/build.rs:1242-1310 | no manifest is a miss and one that cannot be read an error; otherwise the line loop over a sorted map yields the parser's outcome: a miss, one of three errors, or the values in name order |
| SidecarManifest.RowsMean | crates/gateway/build.rs:1254-1305 | each way a row of four fields is refused, missed, filed or passed over |
| SidecarManifest.ManifestRoundTrip | crates/gateway/build.rs:1242-1337 | loading what was written gives the same sidecars, aux lists in order, sorted by name, or a miss when a file is gone; never an error |
| SidecarManifest.HitFilesPresent | crates/gateway/build.rs:1265-1288 | every file a hit names was there when it was loaded |
| ManifestCuts.IntactLoads | crates/gateway/build.rs:1336 | a manifest that lost at most its final newline loads as the whole one |
| ManifestCuts.ShorterLoads | crates/gateway/build.rs:1251-1305 | cut inside a row's first word, it loads as the sidecars of its whole lines, their last aux list cut short |
| ManifestCuts.RejectedLoads | crates/gateway/build.rs:1259-1289 | cut between a row's first word and its last field, it is an error or a miss, never a hit |
| ManifestCuts.AlteredLoads | crates/gateway/build.rs:1265-1303 | cut inside a row's last field, it loads with that hash or file name shortened, or is a miss when the named file is absent |
| ManifestCuts.CutServesIff | crates/gateway/build.rs:1336 | a cut manifest can only load as what was written exactly when it lost at most the final newline or was cut between a row's first word and its last field |
| ManifestCuts.EmptyManifestIsServed | crates/gateway/build.rs:1309-1336 | a write cut right after the truncation is served as no sidecars at all |
| SidecarBuild.FirstDuplicateDirName | crates/gateway/build.rs:803-814 | the first name seen a second time, or none exactly when all names differ |
| SidecarBuild.EligibleAre | crates/gateway/build.rs:618-625 | exactly the directories with either entry file are to be packaged |
| SidecarBuild.EligibleJoins | crates/gateway/build.rs:611-625 | they come in the order of the listing |
| SidecarBuild.BuiltAre | crates/gateway/build.rs:611-738 | exactly those whose every stage worked and all of whose files were written are emitted |
| CacheFiles.AuxFileIsClean | crates/gateway/build.rs:707-713 | generated aux file names hold no tab or newline whatever the asset is called |
| CacheFiles.SanitizedMeans | crates/gateway/build.rs:1167-1177 | ASCII letters, digits, `.`, `-` and `_` stay, anything else becomes `_` |
| CacheFiles.FilesCollideIff | crates/gateway/build.rs:697-713 | two sidecars can have a cache file in common exactly when one's name is the other's followed by `.aux.`, a number and either nothing or a dot and file-name characters |
| CacheFiles.EventKeepsGenuineIff | crates/gateway/build.rs:696-748 | a run keeps every listed file as hashed exactly when, without a manifest write, each listed file it wrote ends up as listed, or, with one, no file was written with two contents |
| CacheFiles.GenuineOverHistoryIff | crates/gateway/build.rs:568-748 | over any sequence of runs, stopped ones included, and removals, every listed file is as hashed at every point exactly when each event was harmless |
| CacheFiles.GenuineUnlessLeftShort | crates/gateway/build.rs:1018-1023 | when rebuilds repeat the hashed bytes that is so exactly when no run without a manifest write left a listed file short |
| CacheFileLaws.RunsWriteApart | crates/gateway/build.rs:697-713 | with names that do not shadow each other no run, wherever it stops, writes a file twice |
| CacheFileLaws.CutAssetIsServed | crates/gateway/build.rs:696-748 | a concrete directory where a rebuild cut inside a listed file leaves it present and not what was hashed |
| SidecarBuild.PackageAll | crates/gateway/build.rs:611-694 | entries are the eligible directories whose every stage worked, failures count the rest, strict mode stops at the first |
| SidecarBuild.CompressOne | crates/gateway/build.rs:697-730 | a sidecar is dropped exactly when its bundle or one of its aux assets fails to compress; aux assets keep their order and numbers; the directory is as the writes up to the first failing one leave it |
| SidecarBuild.CompressAll | crates/gateway/build.rs:696-738 | what is emitted is made of the packaged directories that compress, in order, over exactly the writes that were tried |
| SidecarBuild.BuildAll | crates/gateway/build.rs:611-748 | the "all bundled" test holds exactly when every eligible directory made it through both loops |
| SidecarBuild.EmbedSidecars | crates/gateway/build.rs:529-764 | every run is one event of `SoundOverRunsIff` and one of `GenuineOverHistoryIff`: the key's manifest is rewritten, with what was emitted, by exactly the runs that emitted the eligible directories in order; each emitted sidecar carries its directory's name, domain, hash and assets; a hit on a sound cache yields what was written, every eligible sidecar once, and in a genuine directory files that hold what was hashed; a whole manifest serves exactly when the named files are present; strict runs never ship a part |
| SidecarBuild.StoredSoundIff | crates/gateway/build.rs:748-761 | storing a complete listing keeps the cache sound exactly when the write is whole, refused, or cut where the parser refuses it |
| SidecarBuild.SoundOverRunsIff | crates/gateway/build.rs:740-761 | over any sequence of builds the cache is sound at every point exactly when no write did harm |
| SidecarBuild.HitIsComplete | crates/gateway/build.rs:574-585 | a hit on a sound cache yields what was written, every eligible name once and no other |
| SidecarBuild.HitHoldsHashed | crates/gateway/build.rs:574-585 | in a genuine directory every file a hit hands out holds the bytes its sidecar was hashed from |
| Fingerprint.CollectFiles | crates/gateway/build.rs:885-898 | sorting the shared list at each level leaves all files exactly once in path order, whatever order directories were read in; one that cannot be listed has none |
| Fingerprint.HashPathState | crates/gateway/build.rs:900-929 | the hashed bytes are a function of the paths and contents under the root; it fails exactly when a file under it cannot be read (what the bytes tell apart: `EditIsSeen`, `FilesAreToldApart`) |
| Fingerprint.ListDirEntries | crates/gateway/build.rs:460-470 | the entries a listing yields in name order, whatever order they were read in; none when it cannot be listed |
| Fingerprint.HashPathStateFiltered | crates/gateway/build.rs:420-458 | the hashed bytes are a function of the unskipped paths and contents, visited in name order; a path that does not exist is recorded as missing; it fails exactly when an unskipped file cannot be read (what they tell apart: `EditIsSeenIff`, `TreesAreToldApart`) |
| FingerprintLaws.EditIsSeen | crates/gateway/build.rs:900-929 | two roots alike but for the content of one file never give the same bytes |
| FingerprintLaws.EditIsSeenIff | crates/gateway/build.rs:420-458 | with exclusions they give the same bytes exactly when the file, or a directory above it, is left out |
| FingerprintTells.FilesAreToldApart | crates/gateway/build.rs:900-929 | for good names and NUL-free contents two roots give the same bytes exactly when they hold the same files with the same contents |
| FingerprintTells.TreesAreToldApart | crates/gateway/build.rs:420-458 | with exclusions exactly when what is not left out is the same: every directory, file and content |
| FingerprintTells.NulHidesAFile | crates/gateway/build.rs:446-456 | a content with NULs: a directory of one file and one of two give the same bytes |
| Fences.ReadMarkdown | bench/swe-baseline/compare_arms.py:21-72 | the index-driven reader with its pending paragraph yields the blocks of the line grammar, and terminates on every input |
| Fences.ReadCoversInput | bench/swe-baseline/compare_arms.py:31-71 | every line of any input belongs to exactly one block or separator, in order |
| FenceLaws.OpenFenceIff | bench/swe-baseline/compare_arms.py:32 | a line opens a fence exactly when it is three or more backticks, a word and blanks |
| FenceLaws.ClosesFenceIff | bench/swe-baseline/compare_arms.py:36 | it closes one exactly when it is at least as many backticks, and blanks |
| FenceLaws.HeadingIff | bench/swe-baseline/compare_arms.py:52 | it is a heading exactly when it is one to four hashes, blanks and a text that begins with none |
| FenceLaws.QuoteReads | bench/swe-baseline/compare_arms.py:58-66 | lines that begin with `>` are one quote, up to the first that does not |
| FenceLaws.ParagraphReads | bench/swe-baseline/compare_arms.py:67-70 | a run of lines with no mark in front and something on each is one paragraph |
| FenceLaws.FenceIsShortest | bench/swe-baseline/export_trajs.py:23-31 | the printed fence is the shortest of three or more backticks that the body does not hold |
| Fences.PiecesHaveShorterRuns | bench/swe-baseline/export_trajs.py:29-30 | no line of a body has a longer backtick run than the body |
| Fences.FenceMarks | bench/swe-baseline/export_trajs.py:30-31 | the printed fence line opens a block with that length and tag, and the printed closing line closes it |
| Fences.FenceReads | bench/swe-baseline/compare_arms.py:33-42 | a printed fence in front of any lines reads as one block followed by what those lines read as |
| Fences.FenceRoundTrip | bench/swe-baseline/export_trajs.py:24-31 | a document of fences, headings and blank lines reads back as one block per part, each fenced text exactly the body that went in |
| DiffSections.StripStreaming | bench/swe/src/agent.rs:686-706 | the keep-flag loop outputs the lines of the sections it keeps |
| DiffSections.SplitSections | bench/swe-claude/run_claude.py:68-77 | the blocks concatenate to the input, each header opens one, no block is empty |
| DiffSections.StripBlocks | bench/swe-claude/run_claude.py:65-84 | the block splitter computes the same filter with its own reading of the header |
| DiffSections.BlocksEqualStream | bench/swe/src/agent.rs:691-704 | a keep flag carried over lines outputs exactly the concatenation of the sections whose target is not excluded |
| DiffSections.StripComposes | bench/swe/src/agent.rs:686-706 | stripping by A then by B is stripping by their union; stripping is idempotent |
| DiffSections.HeaderSurvives | bench/swe/src/agent.rs:681-683 | a header line survives exactly when its target is not excluded |
| DiffSections.LastTokenIsThere | bench/swe/src/agent.rs:693-694 | the last token holds no space and is the whole text or stands behind one |
| DiffSections.NamelessSectionStays | bench/swe/src/agent.rs:694-697 | the section of a header that names no file survives every exclusion |
| DiffSections.FiltersAgreeIff | bench/swe-claude/run_claude.py:80-82 | the two filters agree on a diff for every exclusion set exactly when they name the same file for each header |
| DiffSections.LastTokenNamesPathIff | bench/swe/src/agent.rs:693-698 | the streaming filter names the new path exactly when it holds no space |
| DiffSections.KeptAsPromisedIff | bench/swe/src/agent.rs:681-683 | a section is kept if and only if its path is not excluded, for every exclusion set, exactly when that path holds no space |
| DiffSections.FirstSideNamesPathIff | bench/swe-claude/run_claude.py:80-81 | the block splitter names the new path exactly when the old one holds no ` b/` and the new one trims to itself |
| DiffSections.TargetsAgreeIff | bench/swe-claude/run_claude.py:80-81 | the two filters name the same file for a header exactly when both name its new path |
| DiffSections.GitDiffFiltersAgreeIff | bench/swe-claude/run_claude.py:65-84 | on a diff with git's headers the two filters agree for every exclusion set exactly when every header's paths are plain |
| DiffSections.BlankFreeDiffsAgree | bench/swe-claude/run_claude.py:65-84 | on a diff whose paths hold no blank both filters output the same lines |
| DirtyPaths.ParseDirty | bench/swe-claude/run_claude.py:54-62 | the loop collects the path each line names by its first arrow |
| DirtyPaths.PlainLineReads | bench/swe/src/agent.rs:666-678 | behind two columns and a blank both parsers read a plain path as itself |
| DirtyPaths.RenameReads | bench/swe/src/agent.rs:671-676 | and a rename whose paths hold no other arrow as its new path |
| DirtyPaths.UnquoteMeans | bench/swe-claude/run_claude.py:61 | a quoted path loses its quotes, any other is left alone |
| DirtyPaths.ShortLineReads | bench/swe/src/agent.rs:666-669 | a line of three characters or fewer names nothing |
| DirtyPaths.LastReading | bench/swe/src/agent.rs:671-676 | for a rename the reading by the last arrow is the new path when no later arrow follows or overlaps the separating one, and otherwise less than it |
| DirtyPaths.FirstReading | bench/swe-claude/run_claude.py:57-61 | the reading by the first arrow is the new path when no earlier arrow precedes or overlaps, and otherwise more than it |
| DirtyPaths.RenamesAgreeIff | bench/swe/src/agent.rs:663-679 | the two parsers name the same path for a rename exactly when neither happens and the new path is not all quotes |
| DirtyPaths.PlainLinesAgreeIff | bench/swe/src/agent.rs:663-679 | on a line without an arrow they agree exactly when the path is blank or not all quotes |
| ErrorLines.StripAnsi | bench/swe/src/grader.rs:378-399 | the iterator loop removes control sequences and lone escapes |
| ErrorLines.WithoutAnsiLaws | bench/swe/src/grader.rs:376-399 | no escape is left, the output is a subsequence of the input, and escape-free text is unchanged |
| ErrorLines.WithoutAnsiIdempotent | bench/swe/src/grader.rs:376-399 | stripping twice is stripping once |
| ErrorLineLaws.SequenceIsDropped | bench/swe/src/grader.rs:385-396 | escape, bracket, parameters and one final character from `@` to `~` are dropped whole and what surrounds them stays |
| ErrorLineLaws.OpenSequenceIsDropped | bench/swe/src/grader.rs:388-393 | a sequence that never ends takes the rest of the text with it |
| ErrorLineLaws.LoneEscapeIsDropped | bench/swe/src/grader.rs:383-387 | any other escape is dropped alone |
| ErrorLines.PushCapped | bench/swe/src/grader.rs:359-365 | appends a trimmed, capped text unless empty or present, and reports whether five are held |
| ErrorLines.TakeLine | bench/swe/src/grader.rs:307-323 | what one log line adds to the typed and the untyped list |
| ErrorLines.ExtractErrorLines | bench/swe/src/grader.rs:303-329 | with its early stop and capped fallback the loop returns the first five distinct typed lines of the whole log or, when there are none, the first five distinct untyped ones |
| ErrorLines.EarlyStopIsSafe | bench/swe/src/grader.rs:311-313 | once five distinct typed lines are found no later line changes the result |
| ErrorLines.TextsMean | bench/swe/src/grader.rs:307-323 | the texts of a kind are exactly the non-empty capped contents of the lines of that kind |
| ErrorLines.DistinctMeans | bench/swe/src/grader.rs:361 | removing repetitions keeps every text once and adds none |
| ErrorLines.DistinctGrows | bench/swe/src/grader.rs:361 | later lines never disturb the order or choice of the distinct texts found so far |
| ErrorLines.ErrorLinesBounded | bench/swe/src/grader.rs:293-294 | at most five lines, all different, none empty, none longer than the cap and its ellipsis |
| ErrorLineLaws.LineAtMargin | bench/swe/src/grader.rs:318-323 | a line at the margin is reported, as typed, exactly when its leading token is of letters, digits, underscores and dots and ends in Error, Exception or Failed |
| ErrorLineLaws.LineBehindMarker | bench/swe/src/grader.rs:309-317 | behind `E` and blanks every text is reported: as typed exactly then, otherwise as untyped |
| ErrorLineLaws.IndentedLine | bench/swe/src/grader.rs:318 | a line that begins with a blank reports nothing |
| ErrorLineLaws.FiveAreReported | bench/swe/src/grader.rs:324-328 | of the typed texts, or else of the untyped ones, the first five different ones are the answer, or all when there are fewer |
| AnswerStream.AnswerWriter.AddDelta | crates/baybo/src/prompt_cmd.rs:420-427 | the answer grows by the delta; text mode prints it, JSON mode prints nothing |
| AnswerStream.AnswerWriter.Finalize | crates/baybo/src/prompt_cmd.rs:430-445 | a non-empty final text becomes the answer; it is printed only when nothing was printed before, otherwise only a missing line end is |
| AnswerStream.AnswerWriter.FinishIncomplete | crates/baybo/src/prompt_cmd.rs:453-461 | streamed text is the answer, its absence an error |
| AnswerStream.ConsumeTransportTurn | crates/baybo/src/prompt_cmd.rs:195-224 | outcome, both output streams and the unread events are those of the signals the events stand for; each approval request before the end resolves the head of the queue |
| AnswerStream.ResolvesHeads | crates/baybo/src/prompt_cmd.rs:209-215 | that many queue heads are answered alike and in order, the others stay |
| AnswerStream.ConsumeSessionTurn | crates/baybo/src/prompt_cmd.rs:329-360 | the same meaning for the in-process events, which never fail the stream |
| AnswerStream.OnlyMeansTheSame | crates/baybo/src/prompt_cmd.rs:217-220 | leaving out any events other than deltas, finals and failures changes neither outcome nor output, nor the warnings while notices stay |
| AnswerStream.SameAnswer | crates/baybo/src/prompt_cmd.rs:195-224 | outcome and output are decided by the deltas before the end and what ended the turn |
| AnswerStream.SourcesAgree | crates/baybo/src/prompt_cmd.rs:195-360 | two sources with the same deltas, finals and failures give the same answer or failure and print the same text, whatever notices and other events stand between them |
| AnswerStream.SourcesWarnAlike | crates/baybo/src/prompt_cmd.rs:195-360 | with the same notices in step as well they warn of the same |
| AnswerEvents.BlocksTextJoins | crates/baybo/src/prompt_cmd.rs:547-555 | a message's text is the texts of its text blocks, joined in order |
| AnswerEvents.TransportAnswers | crates/baybo/src/prompt_cmd.rs:195-224 | a gateway turn that ends with a response answers its text or, when that is empty, the streamed text; what is printed and warned of is spelt out over the events |
| AnswerEvents.TransportBreaks | crates/baybo/src/prompt_cmd.rs:198-203 | one that breaks fails with the reason |
| AnswerEvents.TransportRunsDry | crates/baybo/src/prompt_cmd.rs:222-224 | one that just stops answers what was streamed, if anything was |
| AnswerEvents.AsksAre | crates/baybo/src/prompt_cmd.rs:209-215 | the approval requests counted are the places of such events |
| AnswerEvents.BeforeTheEnd | crates/baybo/src/prompt_cmd.rs:205-208 | the events before the end are those in front of the first response or failure |
| AnswerEvents.SessionAnswers | crates/baybo/src/prompt_cmd.rs:329-360 | the same for a session turn that ends with a message |
| AnswerEvents.SessionRunsDry | crates/baybo/src/prompt_cmd.rs:329-360 | and for one that just stops |
| AnswerStream.TailIsIrrelevant | crates/baybo/src/prompt_cmd.rs:205-208 | nothing after the first final or failing event matters |
| AnswerStream.FinalIsNotRepeated | crates/baybo/src/prompt_cmd.rs:396-400 | once any delta arrived the final text is never printed though it is the answer |
| AnswerStream.ShownIsAnswered | crates/baybo/src/prompt_cmd.rs:396-445 | the shown text is the answer up to one line end exactly when nothing streamed or the final text adds nothing to what did |
| ToolCounts.CountToolsInTrace | bench/bench-web/src/trace.rs:48-76 | the listing is the sorted tally; each count is the number of places (turn, step, span) whose span is a tool call of that name, and no called tool is missing |
| ToolCounts.CallsAreByPlace | bench/bench-web/src/trace.rs:53-68 | every tool's calls are as many as the places of the JSON trace that call it |
| ToolCounts.TallyLaws | bench/bench-web/src/trace.rs:44-76 | each called tool once with its number of calls, the counts sum to the named calls, and no other listing is sorted by count descending then name |
| ToolSidecars.SidecarCollision | bench/bench-web/src/trace.rs:37-42 | two names share a sidecar exactly when they are equal or differ by one dropped `.json` |
| ToolSidecars.SidecarsStandApart | bench/bench-web/src/precompute.rs:78-82 | no sidecar is collected as a trace, and two traces never share one |
| ToolSidecars.NamesSpelt | bench/bench-web/src/trace.rs:37-42 | the count file of `x.json` is `x.tools.json`, and traces are the names that end in `trace.json` |
| ToolSidecars.SidecarOfJoinedPath | bench/bench-web/src/precompute.rs:53 | swapping the suffix of the whole path text swaps it in the file name |
| ToolSidecars.RowsRoundTrip | bench/bench-web/src/trace.rs:24-32 | rows survive the file format exactly when every count fits 32 bits |
| ToolSidecars.RowSpelt | bench/bench-web/src/trace.rs:24-32 | a row names its tool under `name` and its calls under `count` |
| ToolSidecars.CollectTraces | bench/bench-web/src/precompute.rs:83-106 | every trace below the directory through listable directories is collected once and symbolic links are skipped, whatever order directories are read in |
| ToolSidecars.ReadTrace | bench/bench-web/src/precompute.rs:57-62 | the text to write is the tally of the trace as read; nothing when it is gone or does not parse |
| ToolSidecars.WriteOne | bench/bench-web/src/precompute.rs:52-65 | only the trace's sidecar may change, and only when it is not current and the trace parses |
| ToolSidecars.WriteToolCountSidecars | bench/bench-web/src/precompute.rs:24-47 | the sidecars of all selected traces are brought up to date as far as writes allow, nothing else changes, one bad trace stops no other, and the count is the number written |
| ToolSidecars.SelectedIff | bench/bench-web/src/precompute.rs:24-33 | a trace is selected exactly when it is below the trace directory of a bench that was asked for; by default all three are |
| ToolSidecars.SweptKeepsTraces | bench/bench-web/src/precompute.rs:78-82 | a sweep leaves the set of traces the next walk finds as it was |
| ToolSidecarLaws.SweepKeepsHonestIff | bench/bench-web/src/precompute.rs:67-76 | after a sweep every current sidecar is right exactly when no torn write left wrong text that looks current |
| ToolSidecarLaws.SweepAgreesWithRecount | bench/bench-web/src/precompute.rs:49-65 | a swept parseable trace reads back as its own counts, which sum to its calls |
| ToolSidecarLaws.RepeatSweepIsIdle | bench/bench-web/src/precompute.rs:49-51 | when every wanted write landed no earlier than its trace's change, sweeping again writes nothing |
| ToolSidecarLaws.SpoiledStaysSpoiled | bench/bench-web/src/precompute.rs:63 | a torn write that looks current is never repaired by later sweeps |
| ToolSidecarLaws.TraceChangeKeepsHonestIff | bench/bench-web/src/precompute.rs:67-76 | every rewrite of a trace at an instant keeps its sidecar trustworthy exactly when the instant is later than the sidecar |
| ToolSidecarLaws.SidecarWriteKeepsHonestIff | bench/bench-web/src/precompute.rs:57-63 | a write of counts read earlier keeps every current sidecar right exactly when they still hold or the write is older than the trace |
| ToolSidecarLaws.MidSweepChangeKeepsHonestIff | bench/bench-web/src/precompute.rs:57-63 | a trace rewritten between reading and writing keeps a trustworthy sidecar, whatever it became, exactly when the write is older than the change |
| ToolSidecarLaws.HonestOverHistory | bench/bench-web/src/precompute.rs:1-8 | over any run of sweeps, trace changes, single count writes between them and removals, each safe when it happens, no current sidecar is ever wrong |
| TokenF1.PunctuationSeparates | bench/memory/src/lib.rs:42-50 | any character that is no letter or digit separates tokens, whichever it is |
| TokenF1.RunIsOneToken | bench/memory/src/lib.rs:42-50 | a run of letters and digits is one token |
| TokenF1.TokensAreRuns | bench/memory/src/lib.rs:42-50 | every token is a non-empty run of letters and digits, and an empty answer has none |
| TokenF1.SharedCount | bench/memory/src/lib.rs:70-78 | the overlap loop over two count maps yields the size of the multiset intersection in any iteration order |
| TokenF1.Rate | bench/memory/src/lib.rs:54-85 | the score is twice the overlap over both lengths, 1 for two empty answers and 0 for one |
| TokenF1.ScoreLaws | bench/memory/src/lib.rs:52-85 | symmetric, within 0 and 1, 1 exactly for equal token multisets, 0 exactly when nothing is shared and something is there |
| PunchPacing.PunchBurst.NextRound | crates/carrier/src/burst.rs:30-41 | releases the next round number and pushes the next one an interval after this release; a cancelled wait leaves the state unchanged |
| PunchPacing.Collect | crates/carrier/src/burst.rs:28-41 | asking again and again yields the releases of the run |
| PunchPacing.BurstIsPaced | crates/carrier/src/burst.rs:17-41 | over any clock and any cancellations: rounds 0, 1, 2, … without gap or repeat, as many as calls went on up to the burst's size, any two spaced by their distance in intervals |
| PunchPacing.WindowHoldsFew | crates/carrier/src/burst.rs:17-20 | any window of width W holds at most W / interval + 1 releases |
| PunchPacing.InWindowIs | crates/carrier/src/burst.rs:17-20 | the releases in a window are those whose instants are in it |
| PunchPacing.FiveRounds | crates/carrier/src/burst.rs:17-41 | a burst is at most five rounds, 200 milliseconds or more apart |
| PunchPacing.PromptBurstIsExact | crates/carrier/src/burst.rs:17-20 | callers who ask at once and wake on time get each round exactly an interval after the one before |

## Left out

- InterruptedRecoveryConverges: assumes no new events or rows between the boots and unchanged decodability; `RecoveryConvergesIff` says which turns it is about.
- RecoveryConvergesIff: an interruption may leave any closed rows over closed children, a superset of the prefixes of one pass; "exactly" is over the storage trait's contract, which fixes no row order. Which rows decode is a flag of the row.
- CancelAt: publishing the terminal event and the load before the update are one call here.
- Sanitize: the three entry points with the same loop (error text, stream fragment, tool text) are one member.
- SanitizeValue: rebuilds the tree instead of rewriting it in place; the same holds for `SubstituteInValue` and the message blocks.
- RevealText: a placeholder is one token, so a secret can neither contain nor overlap a placeholder's spelling; secrets that are not valid UTF-8 are not modelled.
- SanitizeInput: scanning and serialising the session map cannot fail here, and content blocks other than text are opaque.
- EmbedSidecars: equal fingerprints are taken to mean the same eligible directories; `TreesAreToldApart` says for which roots the hashed stream does, and hash collisions and concurrent builds are outside it. Directory names are total strings: the source calls every name that is not UTF-8 `?` and leaves it out of the duplicate test, so two such directories write two rows that load back as one. The laws about soundness are about listings without tabs and newlines in their fields. Each packaging stage is an outcome, not a subprocess.
- CompressOne: an asset is the same when it is hashed and when it is compressed; the uncompressed copies beside the compressed files, which no manifest names, are left out.
- CollectFiles: symbolic links are not modelled.
- ParseDirty: lines come split, and the columns are counted in characters; the two languages' line ends, byte columns and a column inside a multi-byte character are not modelled.
- ReadMarkdown: yields blocks; HTML escaping, bold text and the diff colouring inside a block are not modelled.
- FenceRoundTrip: the trailing blanks rule and tags are as the two files read them; quotes and paragraphs are read but not printed, since the export's fences are the claim.
- StripStreaming: works on lines, so carriage returns and the final newline are not compared.
- ConsumeTransportTurn: the approval queue is the one at the start of the turn, requests arriving meanwhile being part of it; the turn timeout, flushing and logging are not modelled.
- CountToolsInTrace: counts are unbounded; the 32-bit width appears where rows are read back (`RowsRoundTrip`, `SweepAgreesWithRecount`).
- WriteToolCountSidecars: path text is taken to be valid Unicode, and nothing is written through a sidecar path that is itself a symbolic link.
- Rate: over real numbers, so rounding does not appear; lower-casing is done by the caller.
- NextRound: the await is its outcome (cancelled, or woken with a clock reading); task scheduling is not modelled.
- Encryption of the vault, placeholder hashing, leak and injection rule sets, SHA-256 and compression are abstract or absent.
- Outgoing message and model-response sanitising walk more fields with the same string masking and are left out.
- The rest of the trajectory renderer, report tables, Docker, HTTP and model clients, gateway start-up, the web front end and all user-interface code are left out.
