# LXPanel: verified models of the panel's stateful core

Dafny models of nine parts of the LXPanel API server, each with the properties the panel relies on:
the audit log and its exports, the TOTP secret codec, terminal WebSockets, the connector command queue,
app deployment revisions, the SQLite state store, approvals, the user directory, and webhook secret
rotation. `dafny verify dfyconfig.toml` checks everything.

Where the program changes something step by step, the model is a class or method that does the same
steps, proved against a function of the old state; what is promised over whole runs is then proved about
that function. Pure code is a function with lemmas.

| file | models |
|---|---|
| `Tar` | the byte-level ustar writer, with an independent reader |
| `AuditChain` | appending to, pruning and checking the hash-chained log |
| `AuditOverlap` | appends and prunes that overlap between their file accesses |
| `AuditExport` | the CSV export, with an independent reader, and cursor pages |
| `Base32`, `Base32Bits` | the base 32 codec on a 32-bit accumulator that wraps, and its bits one by one |
| `CanonicalJson`, `CanonicalJsonProofs`, `CanonicalJsonReader` | the text that commands and results are signed over, with an independent reader |
| `AgentVersion` | agent version order, compatibility, rollout buckets |
| `CommandQueue`, `CommandQueueRuns`, `CommandOperations` | the signed command queue: over every run, and each operation |
| `UpgradeRuns` | bulk upgrades: whom they select and which commands reach the queue |
| `WebSocketFrames` | the client frame parser and the server frame header |
| `SocketAdmission` | connection limits under interleaving |
| `SqliteStore` | `update`, `write`, `read` and archiving interleaved on one connection |
| `Deployments`, `DeploymentUndo`, `DeploymentOperations` | deployment revisions on disk, the undo stack they refine, and refusals |
| `DeploymentOverlap` | updates and rollbacks of one deployment that overlap |
| `DeploymentLocks` | that overlapping is harmless between different deployments |
| `Approvals` | the approval state machine |
| `Users`, `UserOperations` | accounts, owners, and OIDC logins: over every run, and each operation |
| `PasswordLogins` | password logins among the other account operations |
| `SecretRotation`, `ChannelRuns`, `ChannelOperations` | notification channels and re-encrypting their URLs: over every run, and each operation |
| `Numerals`, `Collections`, `Wrappers` | numerals, sequence helpers and options shared by the models |

Hashes, signatures and ciphertexts are free constructors: equal digests mean equal inputs, a signature
is right for one key and payload, and a ciphertext opens under its own key only. Random ids and tokens are
parameters that a run requires to be fresh; times are integers.

## What the proofs found

Places where the code does less than its comments, its interface or the standard it follows suggest. Each
is modelled as the code has it, and the condition under which the expected behaviour holds is a lemma.

- A masked client frame with exactly 127 payload bytes is refused and ends the parsing of its chunk: the
  test for the 64-bit length marker also sees lengths read from the 16-bit field
  (`WebSocketFrames.FrameTaken`, `ParseSent`).
- A server message of 65536 bytes or more is sent under its length modulo 65536 (`ServerFrameRead`).
- The global limit of 500 sockets is checked before an await: with at most m upgrades waiting, the total
  reaches 499 + m and no more (`SocketAdmission.RunSafe`, `BoundReached`).
- `archiveRecords` begins inside its own `try`, so that a call during another call's `update` rolls that
  update's transaction back. The interrupted update then reports failure but its result is stored, and an
  update that reported success can be lost (`SqliteStore.ArchiveInterrupts`, `ArchiveExample`). What is stored
  stays what was reported done, whatever follows, exactly when no transaction is open (`ArchiveKeepsSerial`).
- `write` during an `update` reports success, is visible to readers, and is lost (`WriteLost`, `DirtyRead`).
- The canonical text of an array with an undefined item beside others is no JSON; that of every other value reads
  back as a value that says the same (`CanonicalJsonReader.CanonicalText`).
- In canonical JSON an array holding one undefined prints like an empty array, and a number that is not finite
  like null; command and result payloads never contain either (`CanonicalJsonProofs.TextDecides`).
- A command can be completed again after it finished, and the later result replaces the earlier one
  (`CommandQueueRuns.CompleteOverwrites`).
- The target of an upgrade request never decides whom it selects. A heartbeat that stores a version stores a target
  too, the stored target goes before the requested one, and without a version every target selects alike
  (`UpgradeRuns.TargetIgnored`). So a connector that has reached its stored target, which the first heartbeat sets
  to the recommended version unless an upgrade has set another, is not selected by any later upgrade while its agent does not fall back
  (`NeverAgain`). The requested target would count only for a record with a supported version and no stored target,
  which no run of this version leaves (`RequestedTargetDecides`).
- The queue keeps the last 500 commands, those never handed out not excepted. An upgrade that selects more than 500
  connectors marks all of them as scheduled, and of its commands keeps the last 500 (`CutKeeps`, `UpgradeReaches`).
- The log file is read and written in two accesses with an await between them. Of overlapping appends, each one
  that writes after another has written since its read loses its link, which the check reports; nothing else
  adds an issue (`AuditOverlap.OverlapIssue`, `OverlappedAppends`). Whatever is appended between a prune's read
  and its write is lost, and the check does not notice (`PruneLoses`, `LossUnnoticed`).
- Pruning breaks one link for every retained event whose predecessor went; only when times are in order is
  that at most one (`AuditChain.PruneBreaksGaps`, `PruneFront`).
- Rotating webhook secrets silently changes the destination of a channel that holds both a plain URL and a
  different encrypted one (`SecretRotation.DestinationKept`). Creating, updating and rotating channels never
  leave both in one, so that only a restored backup can bring such a channel in; every other channel keeps its
  destination across a change of key (`ChannelRuns.NeverMisdelivers`, `RotationKeeps`).
- Updating a channel without giving a URL, to rename or disable it, is refused exactly when its stored URL cannot
  be read, which is always so for a channel that never had one, such as an e-mail channel
  (`ChannelRuns.UpdateRefused`).
- An OIDC login matched by e-mail takes the account over to its own subject; the subject it had before is no
  longer linked (`Users.LinkStep`).
- A password login writes back the whole user list it read before the password check, and so undoes whatever
  was done to it meanwhile: a deleted account is back, a role taken away is held again
  (`PasswordLogins.LoginRestores`, `LoginRevives`).
- The stored `revisionCount` of a deployment becomes 21, one too many, with an update that finds the stack of 20
  full, and only then (`DeploymentUndo.CountDrifts`). Clients see the number of stacked revisions instead, which
  is the number of rollbacks available (`RollbackPops`).
- Updates and rollbacks of one deployment read its record, read and write files, and store the record, with an await
  between any two of these. Overlapping calls keep the stacked versions consecutive exactly when every store finds
  the version its call has read, or too little stacked for it to matter (`DeploymentOverlap.OverlappedVersions`).
  The file saved for a version holds its content exactly when the last call to save it read the compose file before
  any call wrote it (`SavedContent`).
- So of two updates that both read the record first, the version they read is stacked twice under one
  file; the content before them survives in that file exactly when at some moment both had read the compose file
  and neither had written it (`TwoUpdates`). Two such rollbacks go back one revision and take two off the stack
  (`TwoRollbacks`). With at most one call per deployment at a time nothing of this happens, however calls for
  different deployments are interleaved (`DeploymentLocks.OneAtATime`).

## Model

| member | source | states |
|---|---|---|
| Tar.WriteTarField | apps/api/src/modules/audit/auditLog.ts:273-275 | in place, the field holds the text cut to its length and every other byte of the header is untouched |
| Tar.ByteSum | apps/api/src/modules/audit/auditLog.ts:268 | the loop adds up every byte of the header |
| Tar.TarHeader | apps/api/src/modules/audit/auditLog.ts:256-271 | the writes, in the source's order, leave exactly the ustar layout, the checksum being taken over spaces |
| Tar.CreateTar | apps/api/src/modules/audit/auditLog.ts:245-254 | the bundle is the padded members and two zero blocks, and an independent reader gets every file back from it |
| Tar.ChecksumFits | apps/api/src/modules/audit/auditLog.ts:268-269 | the byte sum of any header fits the six octal digits reserved for it |
| Tar.StoredChecksum | apps/api/src/modules/audit/auditLog.ts:264-269 | for any name, size and time the stored octal checksum is the byte sum with the field read as spaces |
| Tar.ReadSize | apps/api/src/modules/audit/auditLog.ts:262 | every size below eight to the eleventh reads back from its octal field |
| Tar.ReadMember | apps/api/src/modules/audit/auditLog.ts:247-250 | a reader takes one member off the front, contents intact, and goes on with exactly what follows it |
| Tar.ReadArchive | apps/api/src/modules/audit/auditLog.ts:245-271 | reading the written bundle gives every file's content, in order, under the name its field holds |
| Tar.BundleRoundTrip | apps/api/src/modules/audit/auditLog.ts:245-275 | reading the bundle gives exactly the files that went in, names and contents, if and only if every name has at most 100 characters, none of them NUL or wider than a byte |
| Tar.ArchiveIsBlocks | apps/api/src/modules/audit/auditLog.ts:250-253 | the bundle's length is a multiple of 512 |
| Tar.NameSurvives | apps/api/src/modules/audit/auditLog.ts:258 | a member name is read back if and only if it has at most 100 characters, none of them NUL or wider than a byte |
| Tar.SumOfParts | apps/api/src/modules/audit/auditLog.ts:268 | the byte sum of a whole is that of its parts, and of one byte the byte |
| Tar.StandardHeader | apps/api/src/modules/audit/auditLog.ts:256-271 | a reader of the standard finds octal mode 644, user and group zero, the time, type "0", magic and version in their places, and zeros in every unused byte |
| AuditChain.AuditLog.StartAppend | apps/api/src/modules/audit/auditLog.ts:22-30 | before its write an append has read the log and made the event, chained to the last readable one it saw; the file is unchanged |
| AuditChain.AuditLog.FinishAppend | apps/api/src/modules/audit/auditLog.ts:33 | the write adds that event at the end, whatever was written in between |
| AuditChain.AuditLog.Append | apps/api/src/modules/audit/auditLog.ts:22-33 | an append that nothing interrupts adds one event chained to the last readable one |
| AuditChain.AuditLog.StartPrune | apps/api/src/modules/audit/auditLog.ts:124-126 | before its write a prune has read the log and chosen what to keep; the file is unchanged |
| AuditChain.AuditLog.FinishPrune | apps/api/src/modules/audit/auditLog.ts:128-129 | the write leaves exactly the chosen events, and the counts are those of the log that was read |
| AuditChain.AuditLog.Prune | apps/api/src/modules/audit/auditLog.ts:123-130 | a prune that nothing interrupts keeps exactly the events at most so many days old, in order and unchanged, unreadable lines go, and the counts add up |
| AuditChain.AuditLog.VerifyIntegrity | apps/api/src/modules/audit/auditLog.ts:132-164 | ok if and only if every event is hashed over itself and its predecessor's hash; the issues, the first broken id and the latest hash are those of the log |
| AuditChain.IntactIsNoIssues | apps/api/src/modules/audit/auditLog.ts:137-159 | the issue list is empty exactly for an unbroken chain |
| AuditChain.CheckedEvent | apps/api/src/modules/audit/auditLog.ts:137-159 | one more event adds an issue exactly for having no hash, for not naming the hash before it, or for a hash that is not the one over itself, and says which |
| AuditChain.ReadLine | apps/api/src/modules/audit/auditLog.ts:186-203 | reading takes the lines in order and leaves out exactly those that are no event |
| AuditChain.ChainCommits | apps/api/src/modules/audit/auditLog.ts:132-164 | two non-empty logs reported ok with the same latest hash are equal event for event, length included |
| AuditChain.AppendNeutral | apps/api/src/modules/audit/auditLog.ts:22-30 | an append that nothing interrupts adds no issue and removes none, for any log, broken and legacy ones included |
| AuditChain.AppendAllNeutral | apps/api/src/modules/audit/auditLog.ts:22-30 | nor does any sequence of such appends |
| AuditChain.AppendedEvent | apps/api/src/modules/audit/auditLog.ts:22-30 | an appended event says what was submitted, when and under which id, names the hash of the last event if it has one, and is hashed over itself |
| AuditChain.KeptDays | apps/api/src/modules/audit/auditLog.ts:124-126 | pruning keeps an event exactly if it is at most so many days of 86400 seconds old |
| AuditChain.KeptInOrder | apps/api/src/modules/audit/auditLog.ts:126 | and keeps the order |
| AuditOverlap.WriteIssue | apps/api/src/modules/audit/auditLog.ts:22-33 | for any log, an append's write adds no issue if the hash it was chained to is still the latest, and otherwise exactly one lost link |
| AuditOverlap.RunSound | apps/api/src/modules/audit/auditLog.ts:22-130 | in every interleaving of appends and prunes every event keeps its own right hash |
| AuditOverlap.OverlapIssue | apps/api/src/modules/audit/auditLog.ts:22-130 | in every such interleaving an append adds no issue if and only if the last event at its write is the one it read, and otherwise exactly one |
| AuditOverlap.OverlappedAppends | apps/api/src/modules/audit/auditLog.ts:22-33 | any interleaving of appends with fresh ids adds exactly one lost link per append that writes after another write since its own read |
| AuditOverlap.NewLog | apps/api/src/modules/audit/auditLog.ts:22-33 | in particular in a new log |
| AuditOverlap.TwoAppends | apps/api/src/modules/audit/auditLog.ts:22-33 | two appends that both read before either writes break the chain of every sound log |
| AuditOverlap.PruneLoses | apps/api/src/modules/audit/auditLog.ts:123-130 | whatever is appended between a prune's read and its write, the log afterwards is what it would be without it |
| AuditOverlap.LostEvent | apps/api/src/modules/audit/auditLog.ts:123-130 | what was appended meanwhile is in the log right before the prune's write; after it an event is in the log if and only if it was when the prune read it and is at most so many days old |
| AuditOverlap.LossUnnoticed | apps/api/src/modules/audit/auditLog.ts:123-164 | if nothing was old enough to go, the check reports the log without the lost events as intact |
| AuditChain.PruneBreaksGaps | apps/api/src/modules/audit/auditLog.ts:123-130 | after pruning an intact log the issues are exactly one lost link per retained event whose predecessor was removed |
| AuditChain.PruneFront | apps/api/src/modules/audit/auditLog.ts:123-164 | with times in order that is at most one issue, at the first retained event, and later appends never add another |
| AuditExport.ReadQuotedCell | apps/api/src/modules/audit/auditLog.ts:227-229 | a quoted cell is read back whole before any separator, whatever quotes, commas and line feeds it holds |
| AuditExport.CsvRoundTrip | apps/api/src/modules/audit/auditLog.ts:222-229 | reading the export gives the header and ten intact cells per event, absent ones as empty |
| AuditExport.ExportedCell | apps/api/src/modules/audit/auditLog.ts:222-229 | a reader of the export finds under each of the ten headings, for every event in order, the field of that name, or nothing |
| AuditExport.ExportText | apps/api/src/modules/audit/auditLog.ts:222-229 | the headings are unquoted and every cell is in quotes |
| AuditExport.CursorRoundTrip | apps/api/src/modules/audit/auditLog.ts:56-61 | parsing a printed offset gives the offset |
| AuditExport.CursorNumber | apps/api/src/modules/audit/auditLog.ts:56-57 | a cursor that begins with a number, after spaces and a plus sign perhaps, stands for it |
| AuditExport.CursorOther | apps/api/src/modules/audit/auditLog.ts:56-57 | every other one stands for the start, and so does none |
| AuditExport.NewestFirst | apps/api/src/modules/audit/auditLog.ts:58 | the list the pages show has a new event first, if it matches |
| AuditExport.PageStep | apps/api/src/modules/audit/auditLog.ts:55-62 | for any cursor, a page holds the matching events at its offset, is full with a cursor that reads back as the offset after it if something is left, and has no cursor otherwise |
| AuditExport.FollowCovers | apps/api/src/modules/audit/auditLog.ts:55-62 | following cursors from any cursor, past the end included, ends, and the pages concatenate to the rest of the filtered log, all full but the last |
| AuditExport.PagesCoverLog | apps/api/src/modules/audit/auditLog.ts:55-62 | from the start they show the whole filtered log, newest first, each event once |
| Base32.LetterOfAlphabet | apps/api/src/lib/totp.ts:3 | the letters computed by code are those of the alphabet, in its order |
| Base32.Encode | apps/api/src/lib/totp.ts:47-63 | the loop over the wrapping accumulator regroups the zero-padded bit string by five, for inputs of any length |
| Base32.Decode | apps/api/src/lib/totp.ts:65-83 | the loop gives the whole bytes of the letters' bit string, and an error exactly when a letter of the upper-cased input is not in the alphabet |
| Base32.ShiftInAppends | apps/api/src/lib/totp.ts:52-75 | shifting new bits into the 32-bit accumulator keeps it equal, modulo two to the 32nd, to the number of all bits read so far |
| Base32.Window | apps/api/src/lib/totp.ts:55-78 | whatever wrapped away, the shifted and masked accumulator is the right group of the bit string |
| Base32.LastGroup | apps/api/src/lib/totp.ts:59-61 | the last letter is the remaining bits padded with zeros |
| Base32.DecodeEncode | apps/api/src/lib/totp.ts:47-83 | decoding an encoded byte sequence gives it back, for every byte sequence, and the encoding has eight fifths of the length, rounded up |
| Base32.EncodeDecode | apps/api/src/lib/totp.ts:47-83 | encoding a decoded input gives the input back if and only if it is upper-case alphabet letters with no spare letter and no spare one bit |
| Base32Bits.EncodedBits | apps/api/src/lib/totp.ts:47-63 | every bit of every letter is the bit of the bytes at the same place, highest first, and zero after the last byte |
| Base32Bits.DecodedBits | apps/api/src/lib/totp.ts:65-83 | every bit of the decoded bytes is that of the letters at the same place |
| Base32Bits.DecodedWhen | apps/api/src/lib/totp.ts:65-83 | a text is refused exactly for a character that is no letter of the alphabet after cleaning, and otherwise gives as many bytes as its bits fill |
| Base32Bits.Cleaned | apps/api/src/lib/totp.ts:66 | equals signs at the end do not matter, nor does the case of ASCII letters |
| Base32Bits.UpperSpecial | apps/api/src/lib/totp.ts:66 | outside ASCII ten characters have an ASCII upper case |
| CanonicalJsonProofs.PrintPrefix | apps/api/src/modules/connectors/connectorStore.ts:283-292 | the text of a value ends where it must: equal texts followed by anything a value can be followed by mean equal values and equal rests |
| CanonicalJsonProofs.NormSame | apps/api/src/modules/connectors/connectorStore.ts:283-292 | sorting keys and dropping undefined members identifies exactly the values that say the same |
| CanonicalJsonProofs.TextDecides | apps/api/src/modules/connectors/connectorStore.ts:283-292 | two values have the same text if and only if they say the same, numbers being compared as they print |
| CanonicalJsonProofs.OrderIrrelevant | apps/api/src/modules/connectors/connectorStore.ts:287-290 | key order and undefined members do not reach the text |
| CanonicalJsonProofs.CommandPayloadInjective | apps/api/src/modules/connectors/connectorStore.ts:265-267 | commands with the same payload agree on every signed field |
| CanonicalJsonProofs.ResultPayloadInjective | apps/api/src/modules/connectors/connectorStore.ts:269-271 | so do results, a missing exit code included |
| CanonicalJsonReader.CanonicalText | apps/api/src/modules/connectors/connectorStore.ts:283-292 | a reader of RFC 8259 finds in the text a value that says the same, keys in order; the text is JSON if and only if no array in it has an undefined item beside others |
| CanonicalJsonReader.LessIsBefore | apps/api/src/modules/connectors/connectorStore.ts:289 | keys are sorted by their UTF-16 code units |
| CanonicalJsonReader.EscapeTexts | apps/api/src/modules/connectors/connectorStore.ts:289-291 | inside quotes every character is itself, but for quote, backslash and controls, which have their short escape or four lower-case hexadecimal digits |
| CanonicalJsonReader.CommandPayloadReads | apps/api/src/modules/connectors/connectorStore.ts:265-267 | the text a command is signed over is a JSON object of its six signed fields under their names, and nothing else |
| CanonicalJsonReader.ResultPayloadReads | apps/api/src/modules/connectors/connectorStore.ts:269-271 | that of a result of its five, the exit code only if there is one |
| CanonicalJsonReader.NumberReads | apps/api/src/modules/connectors/connectorStore.ts:291 | an integer prints as its decimal digits, after a minus sign if negative |
| AgentVersion.CompareAgentVersion | apps/api/src/modules/connectors/connectorStore.ts:358-368 | the loop returns the difference at the first part where the versions differ, missing parts counting as zero |
| AgentVersion.ParsePrinted | apps/api/src/modules/connectors/connectorStore.ts:370-374 | a name followed by dotted numbers reads back as the numbers |
| AgentVersion.VersionOrder | apps/api/src/modules/connectors/connectorStore.ts:358-368 | comparison is a total preorder on all texts: antisymmetric in sign and transitive, strictly when a side is strict |
| AgentVersion.CompareZero | apps/api/src/modules/connectors/connectorStore.ts:358-368 | versions compare equal exactly when they agree up to trailing zero parts |
| AgentVersion.CompatibilityMonotone | apps/api/src/modules/connectors/connectorStore.ts:332-340 | a newer version is never classified lower, for any fixed target |
| AgentVersion.CompatibilityAntitone | apps/api/src/modules/connectors/connectorStore.ts:332-340 | raising the target makes no version current |
| AgentVersion.FirstDifference | apps/api/src/modules/connectors/connectorStore.ts:358-368 | the comparison is the difference of the first parts that differ, zero if none do |
| AgentVersion.Classified | apps/api/src/modules/connectors/connectorStore.ts:332-340 | by the numbers: below 0.1 unsupported, else current exactly if no part is lower than the target's without a higher one before it, else an upgrade; without a version unknown |
| AgentVersion.NoVersion | apps/api/src/modules/connectors/connectorStore.ts:370-374 | a text that does not end in a digit counts as version zero |
| AgentVersion.BucketOfMore | apps/api/src/modules/connectors/connectorStore.ts:376-378 | the rollout bucket is the sum of the id's character codes modulo a hundred |
| AgentVersion.RolloutEnds | apps/api/src/modules/connectors/connectorStore.ts:326 | a percentage from a hundred on takes in every connector, zero none, and others those with a lower bucket |
| CommandQueue.ConnectorStore.RecordHeartbeat | apps/api/src/modules/connectors/connectorStore.ts:63-95 | only the connector with this token changes: its version, and the status and target it was judged by |
| CommandQueue.ConnectorStore.CreateCommand | apps/api/src/modules/connectors/connectorStore.ts:97-123 | queues one command signed under its connector's key, keeping the last 500; fails exactly for an unknown connector |
| CommandQueue.ConnectorStore.ClaimCommands | apps/api/src/modules/connectors/connectorStore.ts:125-143 | returns the first queued commands of the token's connector up to the limit and makes exactly these running |
| CommandQueue.ConnectorStore.CompleteCommand | apps/api/src/modules/connectors/connectorStore.ts:145-169 | no match, a wrong signature and a completed command are told apart, and only the last changes anything: the command the result names, and nothing else |
| CommandQueue.ConnectorStore.ScheduleUpgrade | apps/api/src/modules/connectors/connectorStore.ts:185-223 | queues the upgrade commands, marks the selected connectors, and returns who was selected and who skipped |
| CommandQueueRuns.ClaimTakesOldest | apps/api/src/modules/connectors/connectorStore.ts:133-137 | a claim hands out the oldest queued commands, in creation order, and fewer than the limit only when there are no more |
| CommandQueueRuns.KeysKept | apps/api/src/modules/connectors/connectorStore.ts:86-93 | a change that keeps connectors' ids and keys keeps every stored signature right |
| CommandQueueRuns.StepValid | apps/api/src/modules/connectors/connectorStore.ts:25-223 | every operation keeps the queue in creation order, first in first out per connector, at most 500 long, and every signature over its own payload under its own connector's key |
| CommandQueueRuns.RunValid | apps/api/src/modules/connectors/connectorStore.ts:25-223 | so does every run with fresh ids |
| CommandQueueRuns.EveryRun | apps/api/src/modules/connectors/connectorStore.ts:25-223 | in particular every run of a new store |
| CommandQueueRuns.HandedOutOnce | apps/api/src/modules/connectors/connectorStore.ts:125-143 | no command is returned by two claims |
| CommandQueueRuns.PhasesNeverGoBack | apps/api/src/modules/connectors/connectorStore.ts:125-169 | over any run a command only moves from queued to running to finished, and its signed fields and signature never change |
| CommandQueueRuns.ClaimStarts | apps/api/src/modules/connectors/connectorStore.ts:125-143 | a claim makes exactly the commands it returns running, all of which were queued, and leaves every other as it was |
| CommandQueueRuns.CompleteOverwrites | apps/api/src/modules/connectors/connectorStore.ts:145-169 | an acceptable result sets status and output whatever the command's status was, any other changes nothing, and no result touches another command |
| CommandOperations.ClaimHandsOut | apps/api/src/modules/connectors/connectorStore.ts:125-143 | a claim hands a known connector its oldest queued commands, as many as it asked for or all there are, makes exactly these running, and gives an unknown token nothing |
| CommandOperations.EnrollAdds | apps/api/src/modules/connectors/connectorStore.ts:25-43 | a new connector is found by its token, and all others as before |
| CommandOperations.HeartbeatSets | apps/api/src/modules/connectors/connectorStore.ts:63-95 | only the connector with the token changes: the version if one is given, the recommended target if none is stored, and the status that follows |
| CommandOperations.CreateQueues | apps/api/src/modules/connectors/connectorStore.ts:97-123 | the newest command carries exactly what was given, signed under its connector's key, and waits; the 499 before it stay |
| CommandOperations.CompletesIff | apps/api/src/modules/connectors/connectorStore.ts:145-169 | a result completes a command exactly if its token is that of the command's connector and its signature, if any, is right; status and output become the result's |
| CommandOperations.CompletesOne | apps/api/src/modules/connectors/connectorStore.ts:145-169 | and exactly that record changes |
| CommandOperations.CompletesNothing | apps/api/src/modules/connectors/connectorStore.ts:148-152 | an unknown token or command matches nothing |
| UpgradeRuns.UpgradeSplits | apps/api/src/modules/connectors/connectorStore.ts:189-208 | every wanted connector is either selected or skipped, never both, and exactly one command naming the requested target is made for each selected one |
| UpgradeRuns.SplitInOrder | apps/api/src/modules/connectors/connectorStore.ts:189-194 | selected and skipped are in the order of the connectors |
| UpgradeRuns.UpgradeMarks | apps/api/src/modules/connectors/connectorStore.ts:208-216 | an upgrade marks exactly the selected connectors, and nothing else of any changes |
| UpgradeRuns.CutKeeps | apps/api/src/modules/connectors/connectorStore.ts:119-217 | after a creation or an upgrade a command, old or new, is in the queue if and only if fewer than 500 were made after it, handed out or not |
| UpgradeRuns.UpgradeReaches | apps/api/src/modules/connectors/connectorStore.ts:189-217 | every selected connector is marked as scheduled for the requested target, and its command is in the queue if and only if the upgrade made fewer than 500 after it |
| UpgradeRuns.RolloutGrows | apps/api/src/modules/connectors/connectorStore.ts:315-378 | raising the rollout percentage keeps every selected connector selected |
| UpgradeRuns.TargetIgnored | apps/api/src/modules/connectors/connectorStore.ts:63-318 | in every run from a new store the selection of a connector does not depend on the requested target: it is selected exactly when wanted, in the rollout, and not yet at its stored target, if it has one |
| UpgradeRuns.RequestedTargetDecides | apps/api/src/modules/connectors/connectorStore.ts:305-340 | for any record, another requested target gives another answer if and only if the record is wanted, in the rollout, and has a supported version but no stored target |
| UpgradeRuns.StaysReached | apps/api/src/modules/connectors/connectorStore.ts:63-318 | over any run in which its agent does not fall back, a connector that has reached its stored target keeps it, whatever upgrades are requested |
| UpgradeRuns.NeverAgain | apps/api/src/modules/connectors/connectorStore.ts:63-318 | and no later upgrade selects it |
| WebSocketFrames.ParseClientTextFrames | apps/api/src/modules/platform/platformRoutes.ts:820-852 | never reads out of range, ends, and returns the payloads of the text frames found in the chunk, in order |
| WebSocketFrames.Unmask | apps/api/src/modules/platform/platformRoutes.ts:840-845 | the inner loop unmasks the whole payload |
| WebSocketFrames.XorBit | apps/api/src/modules/platform/platformRoutes.ts:843-845 | every bit of an exclusive or is the sum of the two bits modulo two |
| WebSocketFrames.ParsedFrame | apps/api/src/modules/platform/platformRoutes.ts:820-852 | byte by byte: a masked frame of 127 payload bytes ends the parsing; of any other with opcode one the bytes, unmasked bit by bit, are the first message, and the messages of the rest follow |
| WebSocketFrames.MaskedTwice | apps/api/src/modules/platform/platformRoutes.ts:843-845 | masking undoes masking |
| WebSocketFrames.FrameTaken | apps/api/src/modules/platform/platformRoutes.ts:823-846 | a complete masked frame, anywhere in a chunk, is taken as it was sent unless it has exactly 127 payload bytes |
| WebSocketFrames.ParseSent | apps/api/src/modules/platform/platformRoutes.ts:820-852 | of complete frames with up to 65535 bytes all are taken exactly when none has 127, and all texts are returned exactly when no text is such a frame or follows one |
| WebSocketFrames.TakenWasSent | apps/api/src/modules/platform/platformRoutes.ts:823-846 | on arbitrary bytes, every frame taken is encoded there bit for bit |
| WebSocketFrames.ScanSound | apps/api/src/modules/platform/platformRoutes.ts:820-852 | the frames taken are exactly the encoding of a prefix of the chunk, and where it ends no acceptable frame starts |
| WebSocketFrames.MessagesMonotone | apps/api/src/modules/platform/platformRoutes.ts:820-852 | the messages of a chunk are a prefix of those of any longer chunk |
| WebSocketFrames.ServerFrameRead | apps/api/src/modules/platform/platformRoutes.ts:796-800 | a client receives exactly the body if and only if it is shorter than 65536 bytes; otherwise exactly its first bytes, as many as the length modulo 65536 |
| SocketAdmission.Terminals.BeginUpgrade | apps/api/src/modules/platform/platformRoutes.ts:735-745 | the counting loop totals all buckets, and the upgrade goes on to its await exactly below the global limit |
| SocketAdmission.Terminals.FinishUpgrade | apps/api/src/modules/platform/platformRoutes.ts:746-764 | after the await the socket is inserted exactly when the session exists, has room, and a key was sent; otherwise the status says why |
| SocketAdmission.BegunUpgrade | apps/api/src/modules/platform/platformRoutes.ts:735-745 | an upgrade goes on to wait exactly below five hundred sockets |
| SocketAdmission.TotalOfMore | apps/api/src/modules/platform/platformRoutes.ts:736-739 | the total is that of all sessions |
| SocketAdmission.FinishedUpgrade | apps/api/src/modules/platform/platformRoutes.ts:746-764 | it joins its session exactly if that was found, has fewer than ten sockets, and a key was sent; else 404, 429 or 400 in this order; no other session changes |
| SocketAdmission.ClosedSocket | apps/api/src/modules/platform/platformRoutes.ts:772-773 | a close takes this socket from its session, and nothing else from any |
| SocketAdmission.RoomAgain | apps/api/src/modules/platform/platformRoutes.ts:752-773 | after it a session that was full admits another |
| SocketAdmission.StepSafe | apps/api/src/modules/platform/platformRoutes.ts:724-774 | every step keeps sessions at ten sockets or fewer, and either room below the limit or an excess paid for by upgrades that no longer wait |
| SocketAdmission.RunSafe | apps/api/src/modules/platform/platformRoutes.ts:724-774 | in every interleaving with at most m upgrades waiting the total stays within 499 + m |
| SocketAdmission.EveryRun | apps/api/src/modules/platform/platformRoutes.ts:724-774 | from an empty server too, and one upgrade at a time never exceeds 500 |
| SocketAdmission.BoundReached | apps/api/src/modules/platform/platformRoutes.ts:735-764 | for every m some run ends with exactly 499 + m sockets |
| SqliteStore.SqliteStateStore.StartUpdate | apps/api/src/lib/sqliteStateStore.ts:62-66 | opens a transaction and reads, or is refused and changes nothing when one is open |
| SqliteStore.SqliteStateStore.ResumeUpdate | apps/api/src/lib/sqliteStateStore.ts:66-74 | stores the mutator's result and commits, or rolls back, with the same outcome on every path as the source |
| SqliteStore.SqliteStateStore.WriteState | apps/api/src/lib/sqliteStateStore.ts:53-60 | writes into whatever transaction is open, else durably, and always reports success |
| SqliteStore.SqliteStateStore.ArchiveRecords | apps/api/src/lib/sqliteStateStore.ts:76-90 | leaves the state alone when idle, and rolls back the open transaction otherwise |
| SqliteStore.StepSerial | apps/api/src/lib/sqliteStateStore.ts:45-90 | every step, except archiving during a transaction, keeps the committed state the replay of the effects reported as done |
| SqliteStore.RunSerial | apps/api/src/lib/sqliteStateStore.ts:45-90 | over every interleaving the stored state is the composition, in commit order, of exactly the updates that returned normally and the idle writes |
| SqliteStore.EveryRun | apps/api/src/lib/sqliteStateStore.ts:45-90 | in particular from the moment the store is opened |
| SqliteStore.RepliesTell | apps/api/src/lib/sqliteStateStore.ts:45-90 | over every undisturbed run what is stored is the composition of exactly the updates answered as done and the writes answered as done while idle, as told by the calls and their answers alone |
| SqliteStore.Answers | apps/api/src/lib/sqliteStateStore.ts:53-90 | the answer to every call and what it stores: an update that waits is done exactly if its mutator does not throw, and then its result is stored |
| SqliteStore.RunReads | apps/api/src/lib/sqliteStateStore.ts:45-74 | when neither archiving nor writing hits an open transaction, every read at any time returns a committed state |
| SqliteStore.ArchiveKeepsSerial | apps/api/src/lib/sqliteStateStore.ts:76-90 | after an archive call the stored state stays the composition of the effects reported as done, in every undisturbed continuation, if and only if no transaction was open |
| SqliteStore.ArchiveInterrupts | apps/api/src/lib/sqliteStateStore.ts:66-90 | an update interrupted by archiving is rejected and its result stored all the same |
| SqliteStore.WriteLost | apps/api/src/lib/sqliteStateStore.ts:53-74 | a write reported as done during a transaction leaves no trace |
| SqliteStore.DirtyRead | apps/api/src/lib/sqliteStateStore.ts:45-60 | a write keeps reads committed exactly when it is idle or writes what was there |
| SqliteStore.ArchiveExample | apps/api/src/lib/sqliteStateStore.ts:62-90 | a run of two updates and one archive call that stores the rejected update and loses the successful one |
| Deployments.AppStore.MergeVariables | apps/api/src/modules/apps/appStore.ts:271-281 | the loop computes the merge that the next three rows describe |
| Deployments.MergeFails | apps/api/src/modules/apps/appStore.ts:275-277 | merging fails exactly when some required variable is empty |
| Deployments.MergedKeys | apps/api/src/modules/apps/appStore.ts:271-281 | otherwise exactly the template's keys get a value |
| Deployments.MergedValue | apps/api/src/modules/apps/appStore.ts:274-278 | the last variable of a key decides: the input's value, else its default |
| DeploymentOperations.NewVariablesIff | apps/api/src/modules/apps/appStore.ts:271-289 | variables are accepted exactly if no required one is empty, keys are of capital letters, digits and underscores, and values hold no line end or NUL |
| DeploymentOperations.CreateRefusals | apps/api/src/modules/apps/appStore.ts:38-45 | creating is refused for an unknown template, a missing or a malformed variable, in this order, and for nothing else |
| DeploymentOperations.UpdateRefusals | apps/api/src/modules/apps/appStore.ts:98-111 | updating also for an unknown deployment, first, and a missing compose file, last |
| DeploymentOperations.RollbackRefusals | apps/api/src/modules/apps/appStore.ts:136-144 | rolling back for an empty stack or an unknown deployment, and for a missing file |
| DeploymentOperations.FileNames | apps/api/src/modules/apps/appStore.ts:208-212 | the compose file is docker-compose.yml in the deployment's directory, and a version is saved beside it under its number |
| Deployments.AppStore.CreateDeployment | apps/api/src/modules/apps/appStore.ts:38-68 | on success version 1 with its rendered file; on any error nothing changed |
| Deployments.AppStore.SaveRevision | apps/api/src/modules/apps/appStore.ts:208-214 | copies the running compose file to the file named by the version and touches no other |
| Deployments.AppStore.StartUpdate | apps/api/src/modules/apps/appStore.ts:98-110 | an update begins with its read of the record and holds what it has rendered from it, or is refused; nothing is written |
| Deployments.AppStore.StartRollback | apps/api/src/modules/apps/appStore.ts:136-142 | a rollback begins with its read of the record and holds the last revision, or is refused; nothing is written |
| Deployments.AppStore.Proceed | apps/api/src/modules/apps/appStore.ts:110-214 | a waiting call makes its one next access: reading a file, saving it under the version it has read, writing the compose file, or storing the record on the current stack |
| Deployments.AppStore.UpdateDeployment | apps/api/src/modules/apps/appStore.ts:98-132 | without interruption, saves a revision, renders the next version and pushes, at most 20 deep; on any error nothing changed |
| Deployments.AppStore.RollbackDeployment | apps/api/src/modules/apps/appStore.ts:136-168 | without interruption, restores the last revision's version, variables and file, and takes it off the stack; on any error nothing changed |
| DeploymentUndo.RevisionFile | apps/api/src/modules/apps/appStore.ts:208-212 | revision files of different versions or deployments, and compose files, are all different files |
| DeploymentUndo.CreateStarts | apps/api/src/modules/apps/appStore.ts:38-68 | a new deployment has nothing to undo and disturbs no other |
| DeploymentUndo.UpdatePushes | apps/api/src/modules/apps/appStore.ts:98-132 | an update pushes one level of version, variables and file content, exactly when its template is known and its variables accepted, and leaves other deployments' files and stacks alone |
| DeploymentUndo.RollbackPops | apps/api/src/modules/apps/appStore.ts:136-226 | a rollback pops one level, and succeeds exactly while the public revision count is above zero |
| DeploymentUndo.StepValid | apps/api/src/modules/apps/appStore.ts:38-215 | every operation keeps the stacked versions consecutive, ending just below the current one, with their files in place, and the other deployments as they were |
| DeploymentUndo.RunRefines | apps/api/src/modules/apps/appStore.ts:38-215 | any run of operations on any deployments acts on each one like the pure undo stack |
| DeploymentUndo.RunValid | apps/api/src/modules/apps/appStore.ts:38-215 | every run keeps what `StepValid` says |
| DeploymentUndo.EveryRun | apps/api/src/modules/apps/appStore.ts:98-212 | in every reachable store the next revision file overwrites none still on the stack |
| DeploymentUndo.StoredCount | apps/api/src/modules/apps/appStore.ts:119-120 | an update leaves the stored count equal to the number of revisions if and only if the stack was not full, and at 21 otherwise |
| DeploymentUndo.CountDrifts | apps/api/src/modules/apps/appStore.ts:98-168 | in every reachable store the stored count is right, or 21 on a full stack of 20, and an accepted update makes it wrong exactly on a full stack |
| DeploymentUndo.UndoRestores | apps/api/src/modules/apps/appStore.ts:98-168 | k pushes are undone by k pops for k up to 20, and what lies below stays as far as the depth allows |
| DeploymentUndo.UndoOnDisk | apps/api/src/modules/apps/appStore.ts:98-168 | up to twenty accepted updates and as many rollbacks restore version, variables and compose file content |
| DeploymentOverlap.UninterruptedUpdate | apps/api/src/modules/apps/appStore.ts:98-132 | the accesses of one update, with nothing in between, are the update of the atomic model |
| DeploymentOverlap.UninterruptedRollback | apps/api/src/modules/apps/appStore.ts:136-168 | and so for a rollback |
| DeploymentOverlap.StoreKeeps | apps/api/src/modules/apps/appStore.ts:111-157 | a store keeps the stacked versions consecutive if and only if the record still has the version its call has read, or nothing (for a rollback, at most one revision) is stacked |
| DeploymentOverlap.OverlappedVersions | apps/api/src/modules/apps/appStore.ts:98-168 | over any interleaving of any number of updates and rollbacks the stacked versions are consecutive at every moment if and only if every store is such a one |
| DeploymentOverlap.SavedContent | apps/api/src/modules/apps/appStore.ts:98-214 | in any interleaving the file saved for a version by the last call to save it holds the content of before the run if and only if no call wrote the compose file before that call read it, every write being of another content |
| DeploymentOverlap.TwoUpdates | apps/api/src/modules/apps/appStore.ts:98-132 | two updates that both read the record first, in any interleaving to their ends, stack one version twice under one file, and, if both render something new, it holds its content if and only if at some moment both had read the compose file and neither had written it |
| DeploymentOverlap.TwoRollbacks | apps/api/src/modules/apps/appStore.ts:136-168 | two rollbacks that both read the record first, in any interleaving to their ends, go back one revision and take off two, which leaves versions consecutive if and only if at most two were stacked |
| DeploymentLocks.RunPromises | apps/api/src/modules/apps/appStore.ts:98-168 | in any interleaving in which calls for one deployment do not overlap, each deployment shows, or will when its call is through, the undo stack after the operations begun |
| DeploymentLocks.OneAtATime | apps/api/src/modules/apps/appStore.ts:98-168 | so with no call in progress at either end, the run acts on each deployment exactly like the undo stack, whatever calls for others are interleaved |
| Approvals.ApprovalStore.CountApprovals | apps/api/src/modules/approvals/approvalStore.ts:123 | counts the approving reviews |
| Approvals.ApprovalStore.AddReview | apps/api/src/modules/approvals/approvalStore.ts:98-137 | one more review and the status that follows from it, or the source's error, tested in its order, and nothing changed |
| Approvals.ApprovalStore.Consume | apps/api/src/modules/approvals/approvalStore.ts:62-96 | the approval becomes used, or the source's error, tested in its order, and nothing changed |
| Approvals.StepValid | apps/api/src/modules/approvals/approvalStore.ts:34-164 | every operation keeps accounts distinct within a record, the count exact, the status in line with the threshold, and consumed ids distinct and exactly those of used records |
| Approvals.RunValid | apps/api/src/modules/approvals/approvalStore.ts:34-164 | so does every run with fresh ids |
| Approvals.EveryRun | apps/api/src/modules/approvals/approvalStore.ts:34-164 | in particular every run of a new store |
| Approvals.TerminalStays | apps/api/src/modules/approvals/approvalStore.ts:62-137 | a rejected or used record is never changed again by any run |
| Approvals.RequestAdds | apps/api/src/modules/approvals/approvalStore.ts:34-52 | a request is the newest record, says what was asked for, and waits without reviews; the 999 before it stay |
| Approvals.ReviewDecides | apps/api/src/modules/approvals/approvalStore.ts:114-137 | an accepted review adds one by this account with this decision; the record is rejected exactly if that was the decision, approved exactly if it was to approve and the approving accounts now number the threshold; nothing else changes |
| Approvals.ReviewRefused | apps/api/src/modules/approvals/approvalStore.ts:98-116 | a review is refused exactly for an unknown, decided, or expired record or one this account has reviewed, in this order |
| Approvals.ConsumeUses | apps/api/src/modules/approvals/approvalStore.ts:87-95 | a consumption makes this record used by this account, and changes nothing else |
| Approvals.ConsumeRefused | apps/api/src/modules/approvals/approvalStore.ts:62-87 | it is refused exactly for an unknown record, another action or target, one not approved, a minimum above the threshold, or expiry, in this order |
| Approvals.OlderRecord | apps/api/src/modules/approvals/approvalStore.ts:150-156 | a record of an earlier version, without counts, requires one approval and has it once approved |
| Approvals.ApproversCounted | apps/api/src/modules/approvals/approvalStore.ts:123-124 | an approved or used record was approved by exactly as many different accounts as it requires, and rejected by none |
| Approvals.ConsumeIff | apps/api/src/modules/approvals/approvalStore.ts:62-96 | in reachable states consumption succeeds exactly for an approved, matching, unexpired record whose threshold is at least the minimum asked for |
| Approvals.ShownStatus | apps/api/src/modules/approvals/approvalStore.ts:140-148 | a record is shown as approved exactly when it could be consumed now, and as pending to a new account exactly when that account could review it now |
| Users.AuthStore.CreateInitialAdmin | apps/api/src/modules/auth/authStore.ts:107-124 | makes the one owner of an empty directory, and fails on any other |
| Users.AuthStore.CreateUser | apps/api/src/modules/auth/authStore.ts:136-153 | adds a local account, or fails exactly when the name is taken |
| Users.AuthStore.UpdateUserRole | apps/api/src/modules/auth/authStore.ts:155-170 | changes one role, and refuses to take the last owner's |
| Users.AuthStore.DeleteUser | apps/api/src/modules/auth/authStore.ts:198-217 | removes one account, and refuses to remove the last owner |
| Users.AuthStore.CompleteOidcLogin | apps/api/src/modules/auth/authStore.ts:257-285 | refreshes the account matched by subject, else by e-mail, else creates one under a free name if allowed |
| Users.AuthStore.UniqueOidcUsername | apps/api/src/modules/auth/authStore.ts:723-732 | the loop ends and returns the first free candidate |
| Users.CandidatesDiffer | apps/api/src/modules/auth/authStore.ts:725-730 | candidates with different numbers are different names |
| Users.TakenAtMost | apps/api/src/modules/auth/authStore.ts:727-730 | pigeonhole: no more candidates in a row are taken than there are users |
| Users.SetUpStarts | apps/api/src/modules/auth/authStore.ts:107-124 | setup works exactly on the empty directory and starts a valid one |
| Users.StepValid | apps/api/src/modules/auth/authStore.ts:107-285 | every operation keeps ids, usernames and OIDC subjects unique and at least one owner |
| Users.RunValid | apps/api/src/modules/auth/authStore.ts:107-285 | so does every run with fresh ids |
| Users.EveryRun | apps/api/src/modules/auth/authStore.ts:107-285 | from setup on, over every run of these operations |
| UserOperations.SetUpMakes | apps/api/src/modules/auth/authStore.ts:107-124 | setup makes the one owner, under the name given |
| UserOperations.CreateAdds | apps/api/src/modules/auth/authStore.ts:136-153 | creating adds a local account with this name and role exactly if nobody has the name |
| UserOperations.RoleChanges | apps/api/src/modules/auth/authStore.ts:155-170 | a role change sets this account's role and nothing else, refused exactly when the only owner would cease to be one |
| UserOperations.Deletes | apps/api/src/modules/auth/authStore.ts:198-217 | a deletion removes this account and no other, refused exactly for the only owner |
| UserOperations.LoginFinds | apps/api/src/modules/auth/authStore.ts:257-285 | a login finds the account with its subject, else the first OIDC account with its address, letter case aside |
| UserOperations.LoginRefreshes | apps/api/src/modules/auth/authStore.ts:257-285 | which takes over subject and profile and keeps id, name and role; no other account changes |
| UserOperations.LoginCreates | apps/api/src/modules/auth/authStore.ts:257-285 | one that finds none makes an account, if allowed, with the provider's role, the claims' profile, and the preferred name or its first free number |
| Users.AuthStore.StartLogin | apps/api/src/modules/auth/authStore.ts:219-225 | a password login of a known name waits for the password check with the user list it read |
| Users.AuthStore.FinishLogin | apps/api/src/modules/auth/authStore.ts:225-239 | a successful one writes back exactly that list |
| PasswordLogins.RunKeeps | apps/api/src/modules/auth/authStore.ts:107-285 | with password logins overlapping anything, ids, usernames and subjects stay unique and an owner stays |
| PasswordLogins.EveryRun | apps/api/src/modules/auth/authStore.ts:107-285 | in particular from setup on |
| PasswordLogins.LoginRestores | apps/api/src/modules/auth/authStore.ts:219-240 | a successful login leaves the user list exactly as it was at its start, whatever was done meanwhile |
| PasswordLogins.LoginRevives | apps/api/src/modules/auth/authStore.ts:155-240 | an account deleted, or a role changed, during the password check is back after it |
| PasswordLogins.LoginFails | apps/api/src/modules/auth/authStore.ts:219-240 | a login of an unknown name, or one that fails, changes no account |
| Users.AccountsKept | apps/api/src/modules/auth/authStore.ts:136-285 | no operation changes an account's name, and none but a role change of that very account changes its role |
| Users.LinkStep | apps/api/src/modules/auth/authStore.ts:198-283 | a subject stays linked to its account through a step if and only if the step neither deletes the account nor takes it over by e-mail |
| Users.LoginLinks | apps/api/src/modules/auth/authStore.ts:257-285 | a successful login leaves the account it returned linked to the subject |
| Users.LoginAgain | apps/api/src/modules/auth/authStore.ts:257-285 | after any run in which the link was not ended, the same subject logs into the same account and creates none |
| SecretRotation.NotificationService.RotateWebhookSecrets | apps/api/src/modules/notifications/notificationService.ts:171-215 | the loop's counters and issues are those of the channels' verdicts, and each channel is resealed or left as it was; without a key nothing changes |
| SecretRotation.ReportBalances | apps/api/src/modules/notifications/notificationService.ts:179-212 | total is rotated plus current plus failed, migrated is part of rotated, and there is one issue per failure |
| SecretRotation.RotatedReads | apps/api/src/modules/notifications/notificationService.ts:187-206 | a channel that did not fail afterwards delivers to its URL under the current key, keeps no plain URL, and counts as current whatever previous key is given |
| SecretRotation.NotificationService.CreateChannel | apps/api/src/modules/notifications/notificationService.ts:59-86 | a channel that is allowed is stored with its URL sealed under the key, or plain without one |
| SecretRotation.NotificationService.UpdateChannel | apps/api/src/modules/notifications/notificationService.ts:88-113 | a new URL replaces the stored one of either kind, and any error leaves all channels as they were |
| ChannelOperations.Creates | apps/api/src/modules/notifications/notificationService.ts:59-86 | a new channel carries its name and delivers at once to the URL given, not kept in the clear when there is a key |
| ChannelOperations.Updates | apps/api/src/modules/notifications/notificationService.ts:88-113 | an update changes this channel only: the name and the URL that are given, to which it then delivers |
| ChannelOperations.UpdateRefusals | apps/api/src/modules/notifications/notificationService.ts:88-113 | and is refused for a host not allowed, an unknown channel, or an old URL that cannot be read, in this order |
| ChannelOperations.Deletes | apps/api/src/modules/notifications/notificationService.ts:115-121 | a deletion leaves out this channel and keeps the others in order |
| ChannelOperations.DeliversTo | apps/api/src/modules/notifications/notificationService.ts:300-311 | a channel delivers to its sealed URL if it has one, under the key it is sealed under only, and else to its plain one |
| SecretRotation.DestinationKept | apps/api/src/modules/notifications/notificationService.ts:190-202 | a channel that delivered under the current or the previous key keeps its destination if and only if it held no different plain URL besides the encrypted one |
| SecretRotation.DestinationGained | apps/api/src/modules/notifications/notificationService.ts:190-210 | one that delivered under neither delivers afterwards exactly when it held a plain URL, and there |
| SecretRotation.SecondRotation | apps/api/src/modules/notifications/notificationService.ts:171-215 | rotating again touches nothing, rotates nothing, reports everything rotated or current before as current, and the same failures |
| ChannelOperations.VerdictIs | apps/api/src/modules/notifications/notificationService.ts:189-210 | what becomes of a channel: a plain URL is sealed, one that opens under the current key stays, one that opens under the previous key is sealed anew, any other fails for the reason said |
| ChannelOperations.RotatedChannel | apps/api/src/modules/notifications/notificationService.ts:190-202 | a channel sealed anew keeps id and name and nothing in the clear |
| ChannelOperations.ReportOneMore | apps/api/src/modules/notifications/notificationService.ts:179-210 | the report counts each channel under its verdict and lists failures in order with id, name and reason |
| ChannelRuns.StepValid | apps/api/src/modules/notifications/notificationService.ts:59-215 | creating, updating, deleting, rotating and restarting under another key keep each channel's stored URL the one it was last given, in exactly one of its two fields |
| ChannelRuns.RunValid | apps/api/src/modules/notifications/notificationService.ts:59-215 | so does every run with fresh ids |
| ChannelRuns.NeverMisdelivers | apps/api/src/modules/notifications/notificationService.ts:59-325 | no reachable channel holds two URLs, and under no key does one deliver anywhere but to the URL it was last given |
| ChannelRuns.RotationKeeps | apps/api/src/modules/notifications/notificationService.ts:171-325 | in every reachable state rotation keeps the destination of every channel that delivered under the current or the previous key, and fails exactly for the others |
| ChannelRuns.UpdateRefused | apps/api/src/modules/notifications/notificationService.ts:88-113 | an update without a new URL is refused exactly when the stored one is missing or sealed under another key |

## Left out

- Hashing, HMAC, AES-GCM, password and JWT checks: free constructors stand for them; that the real digests collide is outside the model.
- ParseClientTextFrames: returns the payload bytes; decoding them as UTF-8 is not modelled, and extensions, fragments and control frames are treated as the code treats them, by opcode alone.
- CanonicalJsonProofs.TextDecides: a finite number is the text it prints as, so that the printing of doubles itself is not modelled, nor are strings with unpaired surrogates; exit codes are integers below ten to the twenty-first.
- AgentVersion.ParsePrinted: numbers are unbounded, without the rounding of doubles above two to the 53rd.
- AuditExport.CursorRoundTrip: offsets are unbounded in the same sense, and only ASCII white space is skipped before a number.
- AuditChain.ChainCommits: an event is a record in schema field order, so JSON printing of events is not modelled; nor are the live stream callbacks.
- AuditExport.FollowCovers: the log does not change between pages, and the filter is any predicate rather than the query's five fields.
- CompleteOidcLogin: starts from verified claims; the sanitised base name, display name and provider settings are parameters, and e-mail addresses are compared in ASCII lower case.
- UniqueOidcUsername: the name sanitising before the search is a parameter, so the fallback names are not modelled.
- DeleteUser: sessions and API tokens of the account are not modelled.
- FinishLogin: whether password and TOTP code are right is a parameter, and the time of the last login is not stored.
- Sessions, API tokens, password changes and identity provider settings: single-branch checks beside the directory.
- CompleteCommand: the exit code and the error tail are not stored, and list and display functions are not modelled.
- RecordHeartbeat: capabilities, metrics and time stamps are not modelled.
- Connector names, descriptions and capabilities.
- ScheduleUpgrade: the channel's version is already chosen; notes and check times are not modelled.
- Approvals.StepValid: reasons, comments, review times and the filtered list are not modelled; records written by earlier versions are read as the code reads them, but the run properties are about records created here.
- CreateDeployment: template lookup is a parameter, the directory is a parameter that runs require to be new, and the automatic start is not modelled.
- Proceed: creating a deployment while calls are in progress is not modelled (it writes to a new directory only), nor is the automatic restart; the template is a parameter of the call.
- AuditOverlap.OverlapIssue: an append or a rewrite reaches the file as a whole, and a read sees whole lines.
- ArchiveRecords: the archive table itself is not modelled.
- RotateWebhookSecrets: key derivation and the text form of a ciphertext are not modelled, and issues carry a reason in place of their message.
- CreateChannel: whether the allowlist accepts the URL's host is a parameter; SMTP settings, levels and deliveries are not modelled.
- BeginUpgrade: authentication, the upgrade response and broadcasting are not modelled.
- Backup restore, which replaces the whole state, and the JSON file store under concurrency: no run invariant survives them.
- Alerts, monitoring, schedules, catalogs, HTTP routes and the web client: they would add only easy members.
