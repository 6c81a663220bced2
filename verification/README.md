# A verified model of the SSH proxy's protocols and stores

An Electron application lets SSH clients reach a remote terminal over WebSocket. Most of it is wiring; the
parts modelled here keep state that must survive crashes, arbitrary chunking, concurrency or long runs.
Each object of the program that updates its fields is a class with those fields, each loop a loop with
invariants, each codec a function with its inverse.

- **Key replacement** (`KeyJournal`, `KeyService`): up to three key files and a settings root are replaced
  with stage files, rollback files and a journal. Every file operation and every root commit may fail, fail
  after it took effect, or be the last thing the process does; a restart finds the visible root, or after a
  power loss the durable one. Two invariants carry the argument: a surviving root either leads back to all
  old files or forward to all new ones. They hold with one exception, which is stated exactly.
- **Exec framing** (`Search`, `Base64`, `ExecWire`, `ExecCodec`): a streaming parser for markers, wrapped
  base64 (sections 3.5 and 4 of RFC 4648) and an end frame inside the decoded bytes. The parser object is
  tied to a whole-input specification, so the chunking does not matter.
- **Session bridge** (`WireFrames`, `Bridge`): JSON frames cut by wire size (section 7 of RFC 8259), queues,
  the readiness gate, end of input, draining and exit. One method an event, any list of events.
- **Legacy SCP** (`Names`, `Numbers`, `Utf8`, `ScpProtocol`, `ScpEndpoint`, `ScpReceiver`, `ScpTree`,
  `ScpRebuild`, `ScpTransfer`, `ScpSession`, `GlobPattern`, `Glob`, `ShellWords`): the record codec over any
  chunks, the receiver's stack machine, the sender's recursion, the lookups of both with all they list against
  the session's limits, both sides in lockstep over every interleaving, a whole upload over the bytes of its
  stream, the glob parser and its table matcher, the shell-word tokenizer and its quoting.
- **Lifecycles** (`ProxyLifecycle`, `ExclusiveActions`): the proxy controller and the application's action
  slot as interleaved steps, each wait a point where anything may happen.
- **Stores and transforms** (`SettingsStore`, `StagedUpload`, `SshConfigText`, `SshConfig`,
  `SshConfigPreview`, `JsonText`, `SessionHistory`, `DiagnosticExport`).

## Where the code does not keep a property

Each of these is stated as it is, with the exact condition or a counterexample:

- A record whose name contains U+2028 or U+2029 passes the writer and is refused by the reader, because the
  dot of its pattern does not match line terminators. `ScpProtocol.RecordRoundTrip` is an equivalence, and
  `ScpProtocol.SeparatorNameIsLost` a concrete name. The same holds of whole trees: an upload that meets every
  limit arrives if and only if no name in it has a line terminator, over the messages of both sides
  (`ScpTransfer.DeliversTree`, `ScpTransfer.DeliversSource`) and over the bytes (`ScpSession.ForestArrives`,
  `ScpSession.UploadInSession`, `ScpSession.UploadOverBytes`); `ScpSession.SeparatorTreeIsLost` is a concrete tree.
- The exec parser counts its prelude in bytes of UTF-8, slice by slice of 65536 UTF-16 units. A surrogate pair
  cut between two slices counts six bytes instead of four, so a prelude within its limit may be refused.
  `ExecCodec.Replay` states exactly when: the text's own bytes and two for every pair cut must be within the
  limit. `ExecCodec.SliceCutsPair` is such a write.
- A destination other than the root that is written with a slash at its end is refused even if it is a directory,
  because the lookup searches its listing for an empty name: `ScpReceiver.TrailingSlashIsRefused`.
- A key recovery can strand an old key. A process that is killed between the rename of the committed root
  and its directory sync leaves a commit that is visible and not durable. The restarted process reads it, and
  an unlocked store does not sync what it reads (`settings-store.js:303`), so the recovery removes the
  rollback copies first and writes a durable root last. If the power fails in between, the root that comes
  back still asks for the old files, and the rollback is refused for good. `KeyJournal.ClientIsStranded` is
  such a run; `KeyJournal.RecoveryStrands` proves when a recovery is safe, both ways: unless the visible root
  is committed, the durable one is unfinished, and some existing target file was changed.
  `KeyService.Service.RunToRecovery` proves that nothing else is ever refused over a whole run, and
  `KeyService.Service.Recover` that a refused recovery stays refused and changes nothing. For a client key the
  copies are not even in the directory that is synced behind their removal.
- `retryLoad` unlocks the store before it inspects existing keys. If that inspection throws, the store stays
  unlocked over a corrupt file and the next save replaces it. `SettingsStore.Store.RetryLoad` shows that this
  is the only way, `SettingsStore.UnlockedOverCorruption` a run. The application cannot get there: its only
  inspection (`main.js:246-252`) calls `inspect` (`ssh-key-service.js:218-242`), which catches every error of
  both keys, and then `SettingsStore.RetryInProgram` keeps the guarantee. It is a weakness of the class under
  another inspection.
- An absent journal does not by itself mean old key files: the last commit of a successful replacement
  removes the journal too. The recorded fingerprints tell which case it is.
- When the bridge's drain deadline fires, the exit code becomes 125 even if another code came first; after
  cleanup the byte counters no longer describe the emptied queues, so the accounting is claimed while the
  bridge is live (input) or its channel open (output).
- The check in `confirmPendingStop` that another action has taken the slot can never fail:
  `ExclusiveActions.App.AdoptPendingStop` shows that the slot is free or held by the action to interrupt.
- The length check between a source path and its pattern can never fail: `ShellWords.SegmentsAgree`.

## Model

| member | source | states |
|---|---|---|
| `KeyService.Service.CheckTransaction` | electron/ssh-key-service.js:378-413 | the reader accepts exactly well-formed journals: the target's roles once each, hashes present iff the file existed, untouched keys unchanged |
| `KeyService.Service.CheckRoot` | electron/settings-store.js:109-119 | a root is accepted iff journal and fingerprints agree: committed with the new ones, otherwise with the old ones |
| `KeyService.Service.RootCommit` | electron/settings-store.js:312-338 | a commit is durable, refused without effect, or uncertain; uncertain locks the store, the old or the new root is visible, and a power loss brings back that one or one before it |
| `KeyService.Service.Decide` | electron/ssh-key-service.js:422-432 | the first rollback pass changes nothing; it is refused only if some file can no longer be restored, and it passes only if every file can |
| `KeyService.Service.Rollback` | electron/ssh-key-service.js:419-442 | wherever it is cut off, every file stays old or restorable; completed, every file is old; if some file can no longer be restored it changes nothing and never completes, and it is refused for no other reason |
| `KeyService.Service.Cleanup` | electron/ssh-key-service.js:414-418 | removes exactly the transaction's own copies: completed, none is left, and no other path changes at any interruption |
| `KeyService.Service.ValidateCommitted` | electron/ssh-key-service.js:443-451 | success means new files, ready keys and recorded new fingerprints; it refuses only if the committed state is not there |
| `KeyService.Service.Recover` | electron/ssh-key-service.js:452-469 | with a crash or fault possible at every step, from a visible root that may not be durable: refused only if files can no longer be restored, and then for good with nothing changed; otherwise it keeps the direction of the visible journal, and completed it leaves exactly the finished files, no copies, no journal and the fingerprints it found; the durable root is stranded only by recovering a visible commit over an unfinished one with old bytes at stake |
| `KeyService.Service.FinishFiles` | electron/ssh-key-service.js:452-460 | the file work of a recovery: both surviving roots keep fitting the files at every interruption, unless a visible commit covers an unfinished root and old bytes are at stake |
| `KeyJournal.RecoveryStrands` | electron/ssh-key-service.js:414-418 | exactly when a recovery is unsafe: once it has finished the files, the root that a power loss brings back fits them if and only if not (it is unfinished, the visible root committed, and some existing file was changed) |
| `KeyJournal.ClientIsStranded` | electron/ssh-key-service.js:452-469 | the counterexample: a replaced client key, a commit visible and not durable, and a recovery that removes the copies; the root that a power loss brings back asks for bytes that are gone |
| `KeyService.Service.Prepare` | electron/ssh-key-service.js:578-617 | a plan exists only with readable identities; kept keys are the ones on disk; a backup is asked for exactly when a working key is about to be replaced |
| `KeyService.Service.StageAll` | electron/ssh-key-service.js:706-710 | writes the stage and rollback copies of every role and leaves the key files alone |
| `KeyService.Service.InstallOne` | electron/ssh-key-service.js:721-726 | one file becomes new while every file stays old or restorable at each interruption |
| `KeyService.Service.AssertInstalled` | electron/ssh-key-service.js:677-682 | success means that every file is what the installed plan says |
| `KeyService.Service.Begin` | electron/ssh-key-service.js:683-720 | up to the prepared journal no key file changes; the visible root leads back to the old keys, and so does the durable one unless it is still the root from before |
| `KeyService.Service.InstallAndStart` | electron/ssh-key-service.js:721-737 | until the commit both surviving roots lead back to the old keys, and the candidate is never open |
| `KeyService.Service.CommitAndFinish` | electron/ssh-key-service.js:739-752 | the commit point: a committed root is paired with all-new files; admission opens only behind it |
| `KeyService.Service.Resolve` | electron/ssh-key-service.js:758-772 | after an uncertain commit the reloaded root decides the direction, and never forgets a commit |
| `KeyService.Service.Undo` | electron/ssh-key-service.js:780-799 | a failed attempt leads back: on success no journal and the old files, otherwise still restorable |
| `KeyService.Service.HandleFailure` | electron/ssh-key-service.js:773-805 | a committed identity is never rolled back; without a failure mark everything is as it was |
| `KeyService.Service.Execute` | electron/ssh-key-service.js:656-807 | at every exit, crashes included, whichever root survives matches the files, or it is the root from before and no key file has changed; committed implies all new; the listener is open only then; a failure without a mark has put files and root back |
| `KeyService.Service.ActivateCandidate` | electron/proxy-controller.js:265-282 | the gate opens only while the root in memory is that transaction in phase committed |
| `KeyService.Service.RunToRecovery` | electron/ssh-key-service.js:452-807 | execute, stop anywhere, and any restarts, each with or without a power loss, each with a recovery that may stop anywhere: a completed recovery always leaves whole files, journal gone; a recovery is refused only if at the first restart a visible commit covered an unfinished durable root with old bytes at stake; an unfinished journal then found leads to all old files, a durable commit, or any commit found without a later power loss, to all new |
| `KeyService.Service.RestartAndRecover` | electron/ssh-key-service.js:452-469 | one restart, with or without a power loss, and its recovery, which may stop anywhere: what is found decides the direction, a completed recovery leaves a root that fits the files, and roots that can no longer be satisfied stay so |
| `Search.LongestTail` | electron/exec-codec.js:79-80 | the carry is the longest proper prefix of the marker that ends the text |
| `Search.TailFindsFirst` | electron/exec-codec.js:60-82 | with that carry the first occurrence across the cut is found where a search of the whole text finds it |
| `Base64.UnpaddedIsCanonical` | electron/exec-codec.js:93-104 | unpadded groups re-encode to themselves |
| `Base64.EncodedPrefix` | electron/exec-codec.js:91-104 | any whole-group part of an encoding decodes to a prefix of the bytes, padded only at the very end |
| `ExecWire.SessionPieces` | electron/exec-codec.js:107-138 | how any beginning of a good transcript is cut at its markers |
| `ExecWire.ReadSuffixExact` | electron/exec-codec.js:64-75 | the bytes behind an end marker are: incomplete, a code 0..255 in canonical digits, or no code at all |
| `ExecWire.TooMuchOutput` | electron/exec-codec.js:53-58 | exceeding the output limit means that no good session begins with this text |
| `ExecWire.BadShape` | electron/exec-codec.js:91-92 | a body that is not base64 in shape begins no good session |
| `ExecWire.BadPadding` | electron/exec-codec.js:97-104 | padding inside, or with non-canonical low bits, begins no good session |
| `ExecWire.NothingFollows` | electron/exec-codec.js:90-90 | nothing follows a finished encoding |
| `ExecWire.TooMuchPrelude` | electron/exec-codec.js:116-126 | exceeding the prelude limit means that no good session begins with this text |
| `ExecWire.ByteLengthParts` | electron/exec-codec.js:120-125 | two parts measured on their own are as long as the whole in bytes, and two longer exactly if a surrogate pair is cut between them |
| `ExecCodec.ExecParser.DecodeOutput` | electron/exec-codec.js:59-83 | across chunks the end frame is found in the decoded bytes exactly where it is in the whole, payload bytes are handed on once and in order |
| `ExecCodec.ExecParser.ConsumeBase64` | electron/exec-codec.js:84-106 | keeps the body explained by what was decoded plus a carry of under four characters, or fails only where no good session can follow |
| `ExecCodec.ExecParser.Consume` | electron/exec-codec.js:107-140 | one slice of text: the parser still explains everything fed, or the text is hopeless |
| `ExecCodec.ExecParser.Write` | electron/exec-codec.js:141-150 | any text, cut internally in chunks: valid afterwards, and a completed parser has a code and no carry |
| `ExecCodec.ExecParser.End` | electron/exec-codec.js:151-155 | the end of the stream is an error exactly if the parser is not complete, a setup error exactly before the ready marker |
| `ExecCodec.ExecParser.CompleteMeansTranscript` | electron/exec-codec.js:29-157 | complete implies that the text fed is a transcript of the very payload and code that the callbacks got, and that its prelude fits as the slices count it |
| `ExecCodec.ExecParser.TranscriptCompletes` | electron/exec-codec.js:29-157 | a transcript whose prelude is within the limit as the slices count it is complete, however it was cut, with its payload and code and the callbacks in order |
| `ExecCodec.ExecParser.CompletesWithin` | electron/exec-codec.js:107-150 | a whole transcript whose payload and body fit is complete if and only if its prelude, with two bytes more for every pair cut between slices, is within the limit |
| `ExecCodec.SliceCutsPair` | electron/exec-codec.js:144-144 | a concrete write whose first slice ends inside a surrogate pair: the pair is counted with six bytes instead of four |
| `ExecCodec.AllCutsAtMostLows` | electron/exec-codec.js:141-150 | a bound that does not depend on the writes: no more pairs are cut than there are low surrogates |
| `ExecCodec.Replay` | electron/exec-codec.js:29-157 | over any list of writes in UTF-16 units: whatever completes is a transcript, delivered with exactly its payload and code; a transcript whose payload and body fit completes if and only if its prelude does, each pair cut between two slices counted with two bytes more |
| `WireFrames.NextDataFrame` | electron/proxy-server.js:98-112 | the frame has its exact JSON size, is within the limit, ends at a code point boundary and is as long as possible; it fails exactly if one code point does not fit |
| `WireFrames.MessageSize` | electron/proxy-server.js:98-111 | the size of a message is that of the empty message plus its escaped text |
| `WireFrames.UnescapeEscape` | electron/proxy-server.js:67-69 | the escaped text of a message reads back as the text (section 7 of RFC 8259), unpaired surrogates included |
| `Bridge.Session.FlushOutput` | electron/proxy-server.js:523-550 | chunks reach the channel in order; exit is sent only behind all output |
| `Bridge.Session.OnDrainDeadline` | electron/proxy-server.js:534-540 | a fired drain deadline ends the session with 125 over whatever code came first |
| `Bridge.Session.Complete` | electron/proxy-server.js:560-577 | only the first completion code counts; the queued output is flushed, waited for, or the channel is closed |
| `Bridge.Session.QueueOutput` | electron/proxy-server.js:578-590 | output beyond the limit ends the session, otherwise it is queued whole and counted |
| `Bridge.Session.SendFront` | electron/proxy-server.js:618-636 | the front frame is sent or kept for later; nothing is lost, repeated or reordered |
| `Bridge.Session.SendDisconnect` | electron/proxy-server.js:646-659 | a disconnect only behind the end of input and an empty queue |
| `Bridge.Session.FlushInput` | electron/proxy-server.js:594-660 | afterwards nothing that could be sent is forgotten: queue, size and disconnect are gone, or a timer is armed that tries again, or the grace period runs |
| `Bridge.Session.Absorb` | electron/proxy-server.js:669-673 | raw bytes are those of the decoded text plus what the decoder still carries |
| `Bridge.Session.OnInput` | electron/proxy-server.js:661-676 | accepted input is queued whole and counted; beyond the limit the session ends |
| `Bridge.Session.OnInputEnd` | electron/proxy-server.js:677-684 | the decoder's rest is queued and the accounting stays exact |
| `Bridge.Run` | electron/proxy-server.js:429-795 | over every run of events: nothing that could be sent is forgotten; sent text is a prefix of startup text and decoded input in whole frames within the limit, none before the first remote data; one disconnect, no data behind it; exact byte accounting while live; output in order within its limit; one exit with the first code after all output, unless the drain deadline fired |
| `Utf8.RoundTrip` | electron/scp/protocol.js:35-37 | what is encoded decodes to itself under a decoder that refuses malformed input |
| `ScpProtocol.RecordRoundTrip` | electron/scp/protocol.js:183-216 | a record the writer accepts comes back, with the rest of the input untouched, if and only if its name has no line terminator |
| `ScpProtocol.SeparatorNameIsLost` | electron/scp/protocol.js:194-198 | the counterexample for one record: a directory named U+2028 is written and then refused |
| `ScpEndpoint.Reader.Line` | electron/scp/protocol.js:197-211 | a line collected over any chunks is the bytes up to the next newline; the limit is checked before the end of the stream |
| `ScpEndpoint.Reader.ReadRecord` | electron/scp/protocol.js:213-240 | reading over any chunks is parsing the whole remaining input |
| `ScpEndpoint.Reader.ReadPayload` | electron/scp/protocol.js:252-267 | exactly the announced bytes in order, or an error iff too many or too few |
| `ScpEndpoint.Writer.Record` | electron/scp/protocol.js:317-345 | the record's bytes appended to the stream in bounded chunks, or nothing |
| `ScpEndpoint.ReadBack` | electron/scp/protocol.js:161-267 | records and payloads that the writer accepts are read back, over any chunks, as they were and with a clean end, if and only if no name has a line terminator; what is read is always a prefix |
| `ScpEndpoint.Deliver` | electron/scp/protocol.js:161-345 | writer and reader together, each with its own chunks: what was given is what is got, under the same exact condition |
| `GlobPattern.PiecesBack` | electron/scp/glob.js:22-78 | printing any well-formed pieces and reading them gives the same pieces |
| `GlobPattern.PiecesForth` | electron/scp/glob.js:22-78 | what is read prints back to the pattern |
| `GlobPattern.ReadsIsPieces` | electron/scp/glob.js:22-78 | a pattern has at most one meaning |
| `Glob.ReadRanges` | electron/scp/glob.js:60-69 | the member loop computes the listed ranges, none if one is reversed |
| `Glob.ReadClass` | electron/scp/glob.js:42-71 | a bracket expression is found with its sign, its members and its closing bracket, or none |
| `Glob.ParsePattern` | electron/scp/glob.js:22-78 | accepts a pattern iff it is the text of some pieces within the limits without two stars in a row, and returns their only meaning |
| `Glob.FillRow` | electron/scp/glob.js:98-111 | one row of the table from the row before it, star, literal, any and class |
| `Glob.MatchTokens` | electron/scp/glob.js:93-116 | the two swapped rows answer true iff the name can be cut into one part a token: any run for a star, one accepted character otherwise |
| `Glob.Test` | electron/scp/glob.js:87-117 | true iff the name is valid, within the limit, its leading dot is named by the pattern, and it splits along the tokens |
| `Glob.LeadingDot` | electron/scp/glob.js:90-92 | a leading dot is matched by the pattern's own dot and the rest by the rest |
| `Glob.EscapedPattern` | electron/scp/command-parser.js:19-22 | a text all of whose characters were quoted is a pattern without magic: its own characters |
| `Glob.EscapedMatchesItself` | electron/scp/glob.js:87-117 | such a pattern matches exactly that text among valid names |
| `ShellWords.Tokenize` | electron/scp/command-parser.js:15-69 | accepts exactly the commands of a grammar of blanks, plain characters, escapes and quotes, and gives the words and patterns that grammar gives |
| `ShellWords.DecidesGrammar` | electron/scp/command-parser.js:31-69 | the same for the function the loop computes |
| `ShellWords.QuotingRoundTrip` | electron/exec-codec.js:11-14 | tokenizing space-joined quoted words gives the words back, empty ones included, with every special character escaped in the pattern |
| `ShellWords.LexRenders` | electron/scp/command-parser.js:19-27 | in every word of every accepted command the pattern is the text with some characters escaped |
| `ShellWords.SegmentsAgree` | electron/scp/download-session.js:26-28 | a word and its pattern have the same number of named path segments, pairwise rendering each other: the length check never fails |
| `ShellWords.EscapedSegments` | electron/scp/download-session.js:26-29 | the segments of a wholly quoted path are wholly quoted |
| `ScpReceiver.Receiver.Receive` | electron/scp/upload-session.js:182-223 | one message has exactly the effect of the specified machine: place, limits, lookups and all they list, storage, acknowledgement, or the error |
| `ScpReceiver.InspectPath` | electron/scp/session.js:191-225 | the loop down from the root: path length and depth are checked first, every directory on the way is listed into the session's set of seen entries, and what is not a directory or too much to list is an error |
| `ScpReceiver.TrailingSlashIsRefused` | electron/scp/upload-session.js:168-171 | a destination other than the root written with a slash at its end is always refused, an existing directory included |
| `ScpRebuild.LookSees` | electron/scp/session.js:191-225 | a lookup whose ancestors exist, whose listings show only safe names and no more than the limit finds what stands there |
| `ScpRebuild.LookFound` | electron/scp/session.js:191-225 | and a lookup that succeeds has seen what stands there and everything it listed |
| `ScpTree.AcceptsForestTexts` | electron/scp/upload-session.js:182-223 | the receiver accepts exactly the well-nested lists: whatever it accepts is the text of a forest, and on such a text it reports no protocol error and waits for nothing more |
| `ScpTree.Decompose` | electron/scp/upload-session.js:182-223 | with directories open, what is accepted to the end is one forest a level, each closed by an end record |
| `ScpTree.ForestRun` | electron/scp/upload-session.js:188-223 | the text of a forest leaves the machine between records at the same level with its roots counted |
| `ScpTree.AcksCounted` | electron/scp/upload-session.js:178-222 | every accepted list is acknowledged once for each message but payload and end of stream |
| `ScpRebuild.AcksOfForest` | electron/scp/upload-session.js:128-163 | that is one for a time, a directory and its end, and two for a file |
| `ScpRebuild.Rebuild` | electron/scp/upload-session.js:120-224 | in a fresh place and within every limit of the session, path length and listed entries included, the whole forest is placed, nothing fails, and every counter and the set of seen entries is exact |
| `ScpRebuild.ShownAtMost` | electron/scp/session.js:191-204 | a bound to count beforehand: the listings show at most their surroundings, one path an entry, and a staging copy a file |
| `ScpRebuild.PlacementIsForest` | electron/scp/upload-session.js:202-221 | the nodes placed are exactly those of the forest: same names, shape and bytes |
| `ScpRebuild.RebuiltTree` | electron/scp/upload-session.js:202-221 | below the place the storage holds exactly the forest, and every other path anywhere holds what it held before |
| `ScpRebuild.RebuildAs` | electron/scp/upload-session.js:205-207 | a single root takes the name of a destination that did not exist |
| `ScpTransfer.CutBlockKeeps` | electron/scp/download-session.js:84-89 | payload writes of bounded size put together are the block |
| `ScpTransfer.Sender.SendFile` | electron/scp/download-session.js:58-106 | a file is looked up, sent and looked up again: its records, payload and acknowledgements in order; it succeeds if the limits allow, listings included, and the bytes read are as many as listed, and only with that many |
| `ScpTransfer.Sender.SendEntries` | electron/scp/download-session.js:108-127 | the recursion over entries writes exactly the text of the tree, waits once for each answer, and lists exactly what its lookups show; it succeeds within the limits, those of paths and listings included |
| `ScpTransfer.Download` | electron/scp/download-session.js:129-136 | the whole session: a look at every root, the client's first acknowledgement, then every root; it succeeds within the limits |
| `ScpTransfer.LookedInStorage` | electron/scp/session.js:191-225 | a download lists nothing but what is stored: the size of the storage bounds its seen entries |
| `ScpTransfer.DownloadInSession` | electron/scp/session.js:11-15 | at the session's own limits: a storage of at most 10000 safely named entries, short and shallow paths and honest sizes are enough for a download to complete |
| `ScpTransfer.SentIsListed` | electron/scp/download-session.js:110-126 | what is sent is what is listed |
| `ScpTransfer.SendsForest` | electron/scp/download-session.js:110-126 | the messages written are the text of the forest |
| `ScpTransfer.NeverDeadlocks` | electron/scp/upload-session.js:178-223 | over every interleaving of sender and receiver a step is possible until everything is sent and read |
| `ScpTransfer.RunsStayConsistent` | electron/scp/upload-session.js:178-223 | along every interleaving nothing is lost or reordered and every acknowledgement is accounted for, until the reader refuses a name with a line terminator |
| `ScpTransfer.ForestPasses` | electron/scp/protocol.js:231-231 | the text of a forest gets through the reader exactly if no name of the forest has a line terminator |
| `ScpTransfer.Delivers` | electron/scp/upload-session.js:166-224 | every run over a script the receiver's machine accepts is bounded; if all names can be read the receiver never fails, and a run that cannot go on has read everything and used every acknowledgement; otherwise such a run has failed at a name |
| `ScpTransfer.DeliversTree` | electron/scp/upload-session.js:166-224 | within the limits a fresh place in a directory then holds the forest, over every interleaving, if no name has a line terminator, and otherwise every run ends refused |
| `ScpTransfer.DeliversSource` | electron/scp/download-session.js:129-136 | end to end: below the destination every path holds what the source lists there and every other path what it held before, or, exactly with a name that cannot be read, the run ends refused |
| `ScpSession.ReceiveSession` | electron/scp/upload-session.js:182-224 | the session's loop over a stream in any chunks has exactly the effect of running the whole input: records, payload, the byte behind it, the end |
| `ScpSession.MessagesBack` | electron/scp/protocol.js:213-267 | over any chunks the reader gives back exactly the messages of a forest, with a clean end, if and only if all its names can be read |
| `ScpSession.ReadableNames` | electron/scp/protocol.js:231-231 | the records and payloads of a forest are readable exactly if its names are |
| `ScpSession.ForestIsSendable` | electron/scp/protocol.js:317-345 | whatever is short enough and small enough for a session is accepted by the writer, the limit of a line included, under any modes and times |
| `ScpSession.StreamOfForest` | electron/scp/upload-session.js:182-224 | the bytes of a forest drive the receiver exactly as its text and its end do, or, with a name that cannot be read, the session fails |
| `ScpSession.ForestArrives` | electron/scp/upload-session.js:166-224 | over the bytes: sent to a fresh place in a directory within the limits, a forest is rebuilt there if and only if all its names can be read; otherwise the session ends as a protocol error |
| `ScpSession.SourceArrives` | electron/scp/download-session.js:129-136 | over the bytes, from a listed source: the session succeeds exactly if all names can be read, and then every path holds what the source lists there or what it held before |
| `ScpSession.UploadInSession` | electron/scp/session.js:11-15 | at the session's own limits: what can be counted beforehand (depth, bytes, path lengths, listed entries with two for a file, records) is enough for an upload's bytes to leave the forest in place, if and only if all its names can be read |
| `ScpSession.UploadOverBytes` | electron/scp/upload-session.js:166-224 | both ends as they run: a client that sends in bounded chunks and a session that reads the same bytes in any chunks, with the same exact condition |
| `ScpSession.SeparatorTreeIsLost` | electron/scp/protocol.js:194-198 | the counterexample for a tree: a directory named U+2028 meets every condition that can be counted, is sent, and is refused |
| `ProxyLifecycle.Controller.AskStop` | electron/proxy-controller.js:287-293 | a stop makes earlier starts obsolete and shuts every gate at once |
| `ProxyLifecycle.Controller.AskCancel` | electron/proxy-controller.js:283-286 | a cancellation interrupts exactly an owned server that has not started or is a candidate |
| `ProxyLifecycle.Controller.AskActivation` | electron/proxy-controller.js:265-270 | an activation is asked for only by a started, uncancelled candidate of that transaction |
| `ProxyLifecycle.Controller.AnswerActivation` | electron/proxy-controller.js:271-282 | the gate opens iff the transaction is committed and owner, generation and scope are as they were when it was asked |
| `ProxyLifecycle.Controller.RunTask` | electron/proxy-controller.js:199-206 | a start of an obsolete generation makes nothing; otherwise the owned server is stopped first |
| `ProxyLifecycle.Controller.AnswerMaterial` | electron/proxy-controller.js:207-223 | a server is made only with none owned and only for the current generation, with its gate shut if it is a candidate |
| `ProxyLifecycle.Controller.AnswerStart` | electron/proxy-controller.js:230-253 | a start that failed or was overtaken is stopped again |
| `ProxyLifecycle.Controller.AnswerStop` | electron/proxy-controller.js:93-112 | a failed stop keeps ownership; a successful one leaves no server running, and none from before the stop |
| `ProxyLifecycle.Run` | electron/proxy-controller.js:5-309 | over every interleaving at most one server is unstopped, none outlives a stop asked for after its start, and none from before the last stop takes connections |
| `ExclusiveActions.ChainBegins` | electron/app-controller.js:823-831 | when the operation before it has settled, all before it have |
| `ExclusiveActions.BodiesNeverOverlap` | electron/app-controller.js:823-849 | two action bodies never run at the same time |
| `ExclusiveActions.App.SupersededNeverPasses` | electron/app-controller.js:93-103 | an operation whose slot was taken never passes the token check again |
| `ExclusiveActions.App.AskAction` | electron/app-controller.js:902-932 | which actions are accepted, and that only a stop may take the slot, only from a start, asking first with unsaved changes or connections |
| `ExclusiveActions.App.RevokeAuth` | electron/app-controller.js:962-992 | after a revocation no operation from before passes, and the shutdown waits behind them |
| `ExclusiveActions.App.DrainAuthentication` | electron/app-controller.js:850-857 | a waiting authentication takes the slot only when nothing acts and nothing asks |
| `ExclusiveActions.App.PrepareToExit` | electron/app-controller.js:1031-1057 | an exit takes the slot, aborts everything before it, and only a fatal one takes it again |
| `ExclusiveActions.App.AdvanceEpoch` | electron/app-controller.js:119-127 | only the acting operation moves the scope, and its token moves with it |
| `ExclusiveActions.App.PersistProfile` | electron/app-controller.js:140-151 | after a save the acting operation moves the scope to the new active profile, its own token with it and in the same epoch; tokens for another profile lose their force; without force nothing changes |
| `ExclusiveActions.App.CaptureDraft` | electron/app-controller.js:178-186 | an operation with force answers for the draft as it is and keeps its force; it is confirmed at once exactly if it was before or there is no reason to ask; no other token changes, and without force none |
| `ExclusiveActions.App.TakeAnswer` | electron/app-controller.js:183-193 | an answer counts only with force and at the revision it was asked about |
| `ExclusiveActions.App.ConsumeDraft` | electron/app-controller.js:194-199 | the draft is marked clean only by the acting operation and only at its captured revision |
| `ExclusiveActions.App.AdoptPendingStop` | electron/app-controller.js:882-900 | a confirmed stop finds the slot free or held by just the start it was to interrupt |
| `ExclusiveActions.Run` | electron/app-controller.js:796-1057 | over every interleaving bodies never overlap and superseded operations have lost their force |
| `SettingsStore.Disk.Replace` | electron/settings-store.js:169-195 | an atomic replacement is durable, or the file is the old one or the new one |
| `SettingsStore.Store.Save` | electron/settings-store.js:312-338 | a locked store writes nothing; committed, not committed and unknown say exactly what became of the file; durable means that a crash cannot undo it |
| `SettingsStore.Store.Load` | electron/settings-store.js:256-311 | afterwards the store agrees with the file or is locked |
| `SettingsStore.Store.RetryLoad` | electron/settings-store.js:339-357 | an unlocked store agrees with its file, if and only if the inspection of existing keys does not throw inside a recovery |
| `SettingsStore.RetryInProgram` | electron/main.js:246-252 | the program's own inspection catches every error, so a retry always keeps the guarantee: it ends locked, or unlocked over a durable file it agrees with |
| `SettingsStore.UnlockedOverCorruption` | electron/settings-store.js:344-349 | a weakness of the class under an inspection that throws, which the program's never does: unlocked over a file that cannot be read, the store saves over it |
| `SettingsStore.DurableSurvives` | electron/settings-store.js:318-321 | a save reported durable is what a crash leaves, with a power loss or without, and a restart loads it |
| `SettingsStore.Run` | electron/settings-store.js:197-358 | saves, loads, recoveries and crashes in any order with any faults keep the agreement |
| `StagedUpload.MergedIsSource` | electron/file-transfer/orchestrator.js:206-221 | the ranges of the chunk loop merge to the source |
| `StagedUpload.TilesFit` | electron/file-transfer/orchestrator.js:206-219 | they are numbered from one, consecutive and do not overlap |
| `StagedUpload.StageChunks` | electron/file-transfer/orchestrator.js:205-222 | the loop cuts the source into full chunks and a last one, and touches nothing but the staging file |
| `StagedUpload.Verify` | electron/file-transfer/orchestrator.js:223-228 | success means that the staging file is byte for byte what was hashed first |
| `StagedUpload.Publish` | electron/file-transfer/orchestrator.js:229-249 | the destination is unchanged, or the whole source, or reported as possibly changed; done means the whole source |
| `StagedUpload.Upload` | electron/file-transfer/orchestrator.js:159-257 | the same for every run of the whole upload with any fault at any call; nothing else changes; without faults it succeeds |
| `SshConfigText.ReadHostPatterns` | electron/ssh-config-service.js:56-83 | the character loop accepts a Host line exactly if its arguments are plain, quoted and escaped pieces with gaps between and perhaps a comment, and gives what these pieces mean |
| `SshConfigText.PatternsAreMeant` | electron/ssh-config-service.js:56-83 | both directions of that grammar: whatever is accepted is the text of pieces, and every text of pieces is accepted as what they mean |
| `SshConfigText.LinesBack` | electron/ssh-config-service.js:96-114 | lines put together are cut into the same lines |
| `SshConfig.BlockLines` | electron/ssh-config-service.js:39-53 | the block's own lines are a block: markers at both ends and none in between, whatever the options |
| `SshConfig.DivideSound` | electron/ssh-config-service.js:96-115 | what is found is a division: the lines before, one block, the lines behind, no conflict outside |
| `SshConfig.DivideComplete` | electron/ssh-config-service.js:96-115 | every division is found: there is at most one |
| `SshConfig.OtherAlias` | electron/ssh-config-service.js:101-112 | which lines are managed does not depend on the alias |
| `SshConfigPreview.UnmanagedBytes` | electron/ssh-config-service.js:87-120 | the offset loop finds the division exactly when there is one and cuts out just the block |
| `SshConfigPreview.KeepsUnmanaged` | electron/ssh-config-service.js:174-184 | every unmanaged byte and the byte order mark are kept, in order |
| `SshConfigPreview.PreviewForgets` | electron/ssh-config-service.js:174-184 | writing for one alias and then for another gives the same bytes, or the same refusal, as writing for the second at once |
| `SshConfigPreview.PreviewIsStable` | electron/ssh-config-service.js:183-183 | previewing what was produced changes nothing |
| `JsonText.ArrSize` | electron/session-history-store.js:22-22 | the pretty-printed size of a list in terms of its items |
| `SessionHistory.FileSizeIs` | electron/session-history-store.js:21-22 | the true size of the file in terms of its records |
| `SessionHistory.RemovalShrinksFile` | electron/session-history-store.js:173-174 | what the loop subtracts is what the file shrinks by, for one record left as for many |
| `SessionHistory.EvictedInOrder` | electron/session-history-store.js:170-176 | no active session is evicted, and the finished ones go from the front in order |
| `SessionHistory.PrunedOldestFirst` | electron/session-history-store.js:166-176 | the evicted sessions and the finished ones left are in order of age |
| `SessionHistory.PrunedKeepsActive` | electron/session-history-store.js:164-180 | pruning keeps every active session |
| `SessionHistory.Store.Prune` | electron/session-history-store.js:164-180 | evicts one by one, each only while a bound is exceeded; the result is true iff both bounds hold of the true size |
| `SessionHistory.PrunedFits` | electron/session-history-store.js:164-180 | a pruning ends within both bounds if and only if the active sessions alone are within them |
| `SessionHistory.Store.Register` | electron/session-history-store.js:182-198 | a session is taken if and only if its id is new and the active sessions fit with it; a known id changes nothing |
| `JsonText.ShiftedPretty` | electron/diagnostic-export-service.js:92-92 | indenting every line of a value printed at the margin is printing it at that indent |
| `DiagnosticExport.EntrySizesAreItems` | electron/diagnostic-export-service.js:92-92 | an entry sized on its own takes what it takes inside the list |
| `DiagnosticExport.EstimateBounds` | electron/diagnostic-export-service.js:90-94 | the estimate is never below the real size of the file and at most sixteen bytes above it |
| `DiagnosticExport.ExportDiagnostics` | electron/diagnostic-export-service.js:88-98 | a written file is within the limit, the logs kept are a suffix, the count dropped is exact, and none is dropped without need |

## Left out

- Cryptography, key parsing and the SSH, TLS, HTTP and WebSocket libraries: fingerprints are uninterpreted functions and hashes are injective (a hash stands for its preimage).
- Operating system details of files (permissions, inode and symlink checks, Windows branches): only create, replace, unlink, read and sync, with their faults and crashes.
- KeyService.Service.RunToRecovery: starts from a root that is durable. From another one `KeyService.Service.Execute` says that the durable root may stay the one from before, with no key file changed; that root's own transaction is then recovered first.
- What a power loss brings back is the visible settings root or one written before it, never one ahead of it, and file operations are durable in their order; the directory sync behind a key file is not counted as making the root durable.
- The dialogs, the encryption of the backup and the messages shown during key replacement: the backup is a step that may be cancelled or fail.
- Timers and the wall clock: each timer is an event that may come at any time; timeouts of single stream operations are not modelled.
- The bridge's stream decoder is any decoder that consumes its input and gives up its carry at the end; ping, pong and session bookkeeping only end a session.
- Text that is not well formed: the exec parser and the frame cutter work on UTF-16 units, unpaired surrogates included; SCP names and the tokenizer work on Unicode characters, where the code refuses unpaired surrogates, and lengths in units are counted explicitly where they limit something.
- The command's own pattern expansion is only what it has listed before the roots are looked up; a random staging name is new, and a portal's own upload directory counts with what it lists (`Setup.portal`), while the length and depth of its paths are not checked. Which of two errors in one listing is reported first is not modelled.
- Backpressure, stalls and buffer limits of the SCP streams: the reader gets arbitrary chunks until the stream ends, the writer's chunks are always taken.
- A payload that runs past its announced size: over messages the receiver's machine takes it as malformed; over bytes `ScpSession.ReceiveSession` takes exactly the announced bytes and refuses what stands behind them unless it is the zero byte.
- Changes of remote files during a download, modification times and their range, file modes, temporary files and the portal's own failures: the SCP storage changes only by the receiver.
- The flags of an SCP command and the checks of its one path (`command-parser.js:71-125`): a list of independent guards.
- Statistics, log lines, notifications and session history calls of the proxy controller.
- The bodies of the application's actions: an action's body is any sequence of the steps that the slot and the token guard.
- Settings field validation and migration rules: a root is accepted or not by an arbitrary predicate, a foreign text reads as an arbitrary function says.
- The private backup copy of a corrupt settings file, and reads of a file while another process writes it.
- The server limits of the upload (disk quota, expiry of temporary directories) and names of chunks that collide with the destination: chunks live apart from the files.
- Writing the SSH configuration and its backup with expected hashes; aliases are compared in lower case as ASCII, with the Kelvin sign as its one non-ASCII match.
- Loading, sampling, finalizing and flushing of the session history, and the redaction of exported logs: a record is its JSON fields, a log entry any JSON value whose scalars have no line break.
- Recovery, health and token timers, transfer queue counters, desktop links, updates, login navigation, the portal's clients and all user interface code.
