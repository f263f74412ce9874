# Verified model of sshore's transfers, byte filters and session protocols

sshore is an SSH client. This project models, in Dafny, the parts of it where state is carried from
one event to the next, and proves what those parts are for:

- **Pipelined SFTP transfers** (`src/sftp/pipeline.rs`, `src/sftp/shortcuts.rs`). A download keeps
  a bounded number of range reads in flight; replies come in any order and may be short; chunks that
  arrive early wait in a reorder buffer; the user may cancel at any reply; a `.part` file outlives a
  failed attempt and is resumed. An upload sends disjoint writes that the server applies in any order.
- **Byte machines** carried across chunks: the terminal title stripper
  (`src/ssh/terminal_theme.rs`), and the timed trigger detectors with their three-stage cascade
  behind a tracker of terminal escape sequences (`src/ssh/snippet.rs`).
- **Protocols**: prompt detection over a rolling buffer (`src/ssh/password.rs`), the capture,
  auto-fill and save of sudo passwords in the proxy loop (`src/ssh/mod.rs`), the recursive import of
  SSH configs over a possibly cyclic file graph (`src/config/ssh_import.rs`), and the scan and append
  of `known_hosts` (`src/ssh/known_hosts.rs`).

Code that works by updating state is modelled by classes and methods with loops (the modules whose
names end in `Engine`, `OscStripper`, `ProxyLoop`, and the classes in `PasswordPrompt`, `KnownHosts`
and `Resume`). Each method is proved equal to a step of a specification on values, and the results
are proved about the specification: over every input, every run and every choice of the environment.

| modules | subject |
|---|---|
| `Limits`, `Accounting`, `Download`, `DownloadRuns`, `DownloadEngine`, `ReorderBuffer`, `Resume`, `ResumeRuns` | downloads |
| `Upload`, `UploadRuns`, `UploadEngine` | uploads |
| `OscTokens`, `TitleStreams`, `OscStripper`, `RawTitles` | title stripping, against a grammar with a unique reading |
| `Escapes`, `EscapeCascade`, `EscapeSequences`, `EscapeTriggers`, `EscapeEngine` | trigger detection |
| `Utf8`, `Utf8Scalars`, `PasswordPrompt`, `ProxyPassword`, `ProxyRuns`, `ProxyLoop` | prompts and passwords |
| `SshImport`, `SshImportBlocks`, `SshImportOrder`, `SshImportEngine` | config import |
| `Text`, `KnownHosts`, `KnownHostsLines`, `KnownHostsAppend` | known_hosts |
| `Octets`, `Options`, `Sequences`, `Measures` | shared vocabulary |

The modules whose names end in `Runs`, and `EscapeSequences`, `TitleStreams`, `KnownHostsLines`,
`SshImportBlocks` and `Utf8Scalars`, say what happens in terms of what goes in: bytes, lines, replies
and events, written out, without naming the steps of the machine. They are the other half of the
results: that what should happen does, and not only that nothing else can.

Two ideas recur. Ownership of bytes is stated through *additive weights* of ranges (`Accounting`):
one law, proved for every additive weight, gives both "each position has exactly one owner" (weight
`At(p)`) and "the byte counts add up" (weight `Bytes()`). Conservation is proved for every additive
*measure* of sequences (`Measures`), such as the length or the number of occurrences of a value, and
concluded as equality of multisets (`EscapeCascade.RunConservesExactly`, `EscapeCascade.ShapedConserves`,
`SshImport.ImportedOnce`).

## What was assumed

- A reply to a read carries between one byte and the number asked for, taken from a remote file that
  does not change: by section 6.4 of draft-ietf-secsh-filexfer-02 the end of the file is a status,
  never an empty reply. By section 6.1 requests may be answered in any order.
- Writes to the local file succeed. The cancel path ignores their errors (`src/sftp/pipeline.rs:236`,
  `:243` and `:267`), so nothing could be promised otherwise.
- Chunk sizes are those the session negotiates, between 1 byte and 1 MiB (`src/sftp/pipeline.rs:86-89`).
- The network, the server, the user, the keychain and the clock are events or parameters, chosen
  freely among those that can occur.

## Where code and documentation disagree

The model follows the code.

- The documentation of the transfer engine (`src/sftp/pipeline.rs:12` and `:186-187`) bounds its
  memory by depth times chunk size. The bytes in flight are so bounded
  (`Download.InflightBytesBounded`), the reorder buffer is not: a server that holds the first chunk
  back makes it grow to all the rest of the transfer, and never further
  (`ReorderBuffer.BufferPeaks`, `ReorderBuffer.BufferBounded`), so that the documented bound holds of a
  job exactly when that rest is no larger (`ReorderBuffer.DepthBoundsBufferExactly`).
- The documentation of the stripper speaks of OSC 0 and 2; the code also removes 10, 11 and 12.
- A server whose stat carries no size makes the download rename an empty file over its target, or
  take any existing file for complete: `Resume.MissingSizeLosesContent`. The exact condition for a
  whole file is in `Resume.RenamedIsWholeFile`.
- The bytes of a title can survive where the grammar reads their ESC as the end of something else:
  behind another ESC, behind a broken code, or in the body of an OSC that is kept
  (`RawTitles.SurvivesBehindEsc`, `RawTitles.SurvivesBehindBrokenCode`, `RawTitles.SurvivesInBody`).
  `RawTitles.RawTitleExactly` says when, and `RawTitles.RawTitleInsideToken` that it never happens
  between tokens; no title token survives (`OscTokens.StrippedTokens`).
- With triggers of other shapes than the defaults the cascade can drop bytes
  (`EscapeCascade.OtherTriggersLoseBytes`). `EscapeCascade.KeyConservesExactly` and
  `EscapeCascade.RunConservesExactly` give the guard under which a key or a run drops none, and
  `EscapeTriggers.NothingDroppedExactly` the two-byte triggers for which no run ever does. Even with
  the default shapes an ESC overtakes a held byte; `EscapeCascade.OrderExactly` says when order is kept.
- The comment on the cascade (`src/ssh/snippet.rs:386-387`) takes timing for validated when a later
  detector is fed. It is not when the first detector gave up on a mismatch: the second and third
  triggers fire however fast they are typed or pasted (`EscapeSequences.PairFires`).
- A character of the remote's output that is split between two packets is lost to prompt detection
  (`Utf8.CutExactly`, `Utf8.CutCharacterIsLost`).
- A captured password is kept one character per typed byte, so that a non-ASCII password is stored
  re-encoded, not as typed (`ProxyPassword.EncodedIsTypedExactly`, `Utf8Scalars.EncodedSpells`).
- An entry appended to a `known_hosts` file without a final newline runs into the last line
  (`KnownHosts.AppendGlues`, `KnownHosts.AppendsOwnLineExactly`) and can be lost
  (`KnownHostsAppend.UnterminatedLosesEntry`); `KnownHostsAppend.AddTrustedExactly` says when the added host
  is trusted all the same.

## Model

| member | source | states |
|---|---|---|
| `Limits.DepthBounds` | src/sftp/pipeline.rs:202-207 | The pipeline depth is between 1 and 64, its last request is needed, and a full pipeline asks for at most max(2 MiB, 8 chunks) and so at most 8 MiB. |
| `Limits.PipelineDepth` | src/sftp/pipeline.rs:204-207 | The depth computed with a rounded-up and a rounded-down division is the depth defined by counting chunks off one by one. |
| `Limits.DepthExactly` | src/sftp/pipeline.rs:204-207 | The depth is the largest number of chunks that remain to be asked for, up to 64, and that fit 2 MiB unless that is less than 8 chunks. |
| `Limits.NegotiatedChunk` | src/sftp/pipeline.rs:76-90 | The chunk size of a session is the read limit the server advertises, if it advertises one above 0, but at most 1 MiB; otherwise 261120 bytes. |
| `Download.SeededInv` | src/sftp/pipeline.rs:215-226 | Seeding puts exactly `depth` requests in flight and establishes the invariant. |
| `Download.ReplyAccount` | src/sftp/pipeline.rs:274-335 | One reply, of any request and any length: for every additive weight of ranges the account of written, buffered, in-flight and unrequested bytes stays the same, and what is held grows by exactly the bytes received. |
| `Download.ReplyKeepsInv` | src/sftp/pipeline.rs:274-335 | One reply keeps the whole invariant: contents faithful to the remote file, every position owned once, pipeline full while bytes remain, progress report equal to the bytes held. |
| `Download.Reachable` | src/sftp/pipeline.rs:199-336 | In every reachable state the invariant holds, the number of requests in flight equals the depth while unrequested bytes remain and never exceeds it, progress is bytes written plus bytes buffered, and there were no more replies than bytes: the loop terminates. |
| `Download.Partition` | src/sftp/pipeline.rs:199-336 | The invariant read as ranges: written, buffered, in-flight and unrequested ranges are pairwise disjoint and together cover [start, total). |
| `Download.RequestsDisjoint` | src/sftp/pipeline.rs:280-335 | No two requests in flight overlap, gap fills included. |
| `Download.RequestBufferDisjoint` | src/sftp/pipeline.rs:280-318 | No request in flight overlaps a buffered chunk, so no byte is delivered twice. |
| `Download.DrainKeeps` | src/sftp/pipeline.rs:304-314 | Draining keeps the file the remote prefix and leaves no buffered chunk at the write cursor. |
| `Download.DrainHeld` | src/sftp/pipeline.rs:304-314 | Draining moves bytes from the buffer to the file: weighed in any way, nothing is gained or lost. |
| `Download.InflightBytesBounded` | src/sftp/pipeline.rs:202-207 | However short the replies, the bytes in flight never exceed max(2 MiB, 8 chunks), hence 8 MiB. |
| `ReorderBuffer.BufferBounded` | src/sftp/pipeline.rs:209-336 | In every reachable state of the response loop the reorder buffer holds at most the transfer after its first chunk, since that chunk is only ever served front to back. |
| `ReorderBuffer.BufferPeaks` | src/sftp/pipeline.rs:315-334 | Holding the first chunk back while every other request is answered fills the buffer with exactly that much. |
| `ReorderBuffer.DepthBoundsBufferExactly` | src/sftp/pipeline.rs:185-187 | When the remote file is as long as its stat says, depth times chunk size bounds the buffer in all reachable states if and only if the transfer after its first chunk is no larger than that. |
| `Download.NothingInFlight` | src/sftp/pipeline.rs:229-339 | When nothing is in flight the buffer is empty, the write cursor is the total size, the bytes written are exactly remote[start..total] and all of them were reported. |
| `Download.FlushKeeps` | src/sftp/pipeline.rs:235-252 | A reply drained after cancellation, successful or failed, keeps the file correct, adds exactly its bytes to what is held, takes out its own request and leaves all others in flight. |
| `Download.CancelSavesAll` | src/sftp/pipeline.rs:230-272 | Cancelling at any reply, with any further replies to requests in flight already there, leaves the remote prefix up to the write cursor; what is held is what was held before and the bytes of all those replies; and the write cursor is the first byte nobody delivered. |
| `Download.RunCorrect` | src/sftp/pipeline.rs:199-340 | A whole run, however it ends: the file is the remote prefix up to the write cursor, and all of it when the loop ends normally. |
| `DownloadRuns.StartsWithChunks` | src/sftp/pipeline.rs:215-226 | A download starts by asking for the first chunks of what is missing, whole ones but for the last, in order, as many as the depth. |
| `DownloadRuns.ReplyRequests` | src/sftp/pipeline.rs:280-335 | After a reply exactly its request is gone; a short one is followed by a request for exactly the missing tail, any other by one for the next whole chunk (or what is left of the file), if there is one. |
| `DownloadRuns.CompletesExactly` | src/sftp/pipeline.rs:228-340 | A transfer completes if and only if the replies bring all the missing bytes before anything else happens. |
| `DownloadRuns.RunExactly` | src/sftp/pipeline.rs:228-340 | Replies and then something else: done when all bytes have come; otherwise a failed read or the lack of replies ends the transfer with what was received, and a cancellation saves from there. |
| `DownloadRuns.CancelHoldsAnswers` | src/sftp/pipeline.rs:230-272 | For any distinct requests of those in flight and any answers to them, drained in any order, cancelling holds all of those ranges and all that was held before, and the file is the remote prefix up to the first byte nobody delivered. |
| `DownloadEngine.Downloader.SeedPipeline` | src/sftp/pipeline.rs:215-226 | The seeding loop does what the specification's seeding does. |
| `DownloadEngine.Downloader.DrainContiguous` | src/sftp/pipeline.rs:304-314 | The drain loop empties the contiguous front of the reorder buffer. |
| `DownloadEngine.Downloader.HandleReply` | src/sftp/pipeline.rs:274-335 | Gap fill, write or buffer, drain and refill together make one step of the specification. |
| `DownloadEngine.Downloader.HandleCancel` | src/sftp/pipeline.rs:230-272 | The cancel path drains the late replies and then the buffer, as specified. |
| `DownloadEngine.Downloader.ProcessReplies` | src/sftp/pipeline.rs:229-336 | The response loop follows the specified run and ends as it does. |
| `DownloadEngine.Downloader.Transfer` | src/sftp/pipeline.rs:189-340 | A whole transfer in place: file content, cursor, buffer and progress at the end. |
| `Resume.AttemptKeepsPrefix` | src/sftp/shortcuts.rs:146-216 | One attempt, ended by success, error, cancellation or a crash that kept only a prefix: the part file stays a prefix of the remote file, and the local file changes only by the rename. |
| `Resume.HistoryKeepsPrefix` | src/sftp/shortcuts.rs:164-216 | The same over any finite history of attempts. |
| `Resume.RenamedIsWholeFile` | src/sftp/shortcuts.rs:146-216 | After any history, an attempt that reaches the rename leaves exactly the remote file if and only if the size taken from the stat is the remote file's length. |
| `Resume.MissingSizeLosesContent` | src/sftp/shortcuts.rs:146-216 | A stat without a size: an attempt that is not cut short renames an empty file over the target, whatever the remote file holds, except that a resume takes any existing local file for complete. |
| `ResumeRuns.CompleteExactly` | src/sftp/shortcuts.rs:146-162 | An attempt takes the local file for complete if and only if it resumes, connected, and the local file is at least as long as the stat says; then, and without a connection, nothing on disk changes. |
| `ResumeRuns.RenamesExactly` | src/sftp/shortcuts.rs:146-216 | An attempt renames if and only if it is connected, does not take the local file for complete, is not cut short, and its replies bring all the bytes after the part it started with; then the part file is gone and the local file is the remote prefix of the stat's size. |
| `ResumeRuns.InterruptedKeeps` | src/sftp/shortcuts.rs:164-211 | An interrupted attempt leaves the part it started with and the remote bytes up to where the transfer got, as far as they reach the disk, and the local file as it was; it started with the part file if this was a resume and the part was shorter than the stat's size but not empty, else with nothing. |
| `ResumeRuns.ResumeNeverShrinks` | src/sftp/shortcuts.rs:164-211 | An interrupted resume whose bytes all reach the disk leaves a part file that starts with the one it found. |
| `ResumeRuns.FailedAttempt` | src/sftp/shortcuts.rs:194-211 | An attempt whose replies end too early, in a failed read, a cancellation or nothing, is interrupted and leaves exactly what they and the drained replies brought in order. |
| `Resume.DownloadCommand.Download` | src/sftp/shortcuts.rs:131-220 | The download command on the two local paths does what one attempt does. |
| `Upload.SeededInv` | src/sftp/pipeline.rs:401-423 | After seeding the invariant holds and the issued writes tile [0, offset). |
| `Upload.RunKeeps` | src/sftp/pipeline.rs:412-446 | At every moment of every run the issued writes tile [0, offset) for every additive weight, and every byte issued is landed or still carried by a write in flight. |
| `Upload.WritesDisjoint` | src/sftp/pipeline.rs:412-446 | At every moment of every run no two writes overlap, whether in flight or acknowledged. |
| `Upload.UploadCorrect` | src/sftp/pipeline.rs:401-446 | Whatever order the server applies the writes in, a finished upload leaves the truncated remote file equal to the local prefix of length min(total, local length); acknowledged bytes add up to that length; each position was sent exactly once. |
| `UploadRuns.StartsWithChunks` | src/sftp/pipeline.rs:401-423 | An upload starts by writing the first chunks of the local file, whole ones but for the last, in order, as many as the depth allows. |
| `UploadRuns.NextWrite` | src/sftp/pipeline.rs:425-443 | An acknowledged write is taken out and the next chunk of the file is written, if the size given and the file leave any; a write the server applies changes nothing else. |
| `UploadRuns.EndsExactly` | src/sftp/pipeline.rs:425-446 | An upload is done if and only if as many writes have been acknowledged as it takes chunks to hold the file; before that a failed write, a cancellation or a lost connection ends it as what it is. |
| `UploadEngine.ReadChunkInto` | src/sftp/pipeline.rs:450-463 | The buffer is filled with the next bytes of the file, short reads notwithstanding; fewer than asked for come back only at the end of the file; the rest of the buffer is untouched; it fails if and only if a position it needs cannot be read. |
| `UploadEngine.Uploader.QueueNextChunk` | src/sftp/pipeline.rs:413-420 | Reading one chunk into the shared buffer and queueing it is the specified refill. |
| `UploadEngine.Uploader.SeedPipeline` | src/sftp/pipeline.rs:412-421 | The seeding loop is the specified seeding. |
| `UploadEngine.Uploader.HandleAck` | src/sftp/pipeline.rs:429-443 | Acknowledgement and refill are the specified step. |
| `UploadEngine.Uploader.Transfer` | src/sftp/pipeline.rs:392-446 | A whole upload in place: when it ends normally the remote file is the local prefix. |
| `OscTokens.PrintParse` | src/ssh/terminal_theme.rs:280-392 | Every byte stream has a reading as tokens and an unfinished rest, which prints back to it. |
| `OscTokens.ParsePrint` | src/ssh/terminal_theme.rs:280-392 | The reading is unique. |
| `OscTokens.StrippedTokens` | src/ssh/terminal_theme.rs:304-346 | The tokens of the stripped stream are exactly the tokens of the stream that are no titles (codes 0, 2, 10, 11, 12); no title survives. |
| `OscTokens.StrippedIdempotent` | src/ssh/terminal_theme.rs:280-392 | Stripping again changes nothing: deleting a title never joins its neighbours into a new one. |
| `OscTokens.NothingElseLost` | src/ssh/terminal_theme.rs:280-392 | All tokens, the part of the unfinished token already passed on, and the bytes held back give the input; without titles the output plus the held bytes is the input. |
| `OscTokens.StrippedGrows` | src/ssh/terminal_theme.rs:283-390 | One more byte extends the stripped stream by exactly the bytes now known to be kept; nothing already put out is revised. |
| `TitleStreams.TitleGoesExactly` | src/ssh/terminal_theme.rs:304-388 | An OSC with any number and any body, ended by BEL or ESC backslash, or with no body, between complete streams: it is stripped if and only if the number is 0, 2, 10, 11 or 12, and what stands before and after is stripped by itself. |
| `TitleStreams.StrippedInParts` | src/ssh/terminal_theme.rs:280-392 | After a stream that does not end inside a token the rest is stripped by itself. |
| `TitleStreams.TextPasses` | src/ssh/terminal_theme.rs:285-291 | Text without ESC passes unchanged between tokens. |
| `TitleStreams.OtherEscapesPass` | src/ssh/terminal_theme.rs:292-346 | ESC with a byte that opens no OSC passes, and so does an OSC whose number is broken off. |
| `TitleStreams.UnfinishedOsc` | src/ssh/terminal_theme.rs:304-388 | The body of an OSC that has not ended has been passed on if and only if the OSC is no title. |
| `TitleStreams.BeginningsWait` | src/ssh/terminal_theme.rs:285-337 | Nothing of an OSC is passed on before its number is known. |
| `RawTitles.RawTitleInsideToken` | src/ssh/terminal_theme.rs:280-392 | For every stream and position: if the output goes on with the bytes of a complete title, the position is inside a token of the output, never where one could begin. |
| `RawTitles.RawTitleExactly` | src/ssh/terminal_theme.rs:292-390 | The bytes of a complete title appear in the output if and only if a kept token of one of three forms (an ESC pair ending in ESC, a broken code ending in ESC, an OSC with an escaped item in its body) is continued to one by what follows, or the unfinished body has such an item. |
| `RawTitles.SurvivesBehindEsc` | src/ssh/terminal_theme.rs:292-303 | `ESC ESC ]0;A BEL` passes unchanged. |
| `RawTitles.SurvivesBehindBrokenCode` | src/ssh/terminal_theme.rs:338-345 | `ESC ] ESC ]0;A BEL` passes unchanged. |
| `RawTitles.SurvivesInBody` | src/ssh/terminal_theme.rs:365-388 | `ESC ]5; ESC ]0;A BEL` passes unchanged. |
| `OscStripper.OscTitleStripper.Transition` | src/ssh/terminal_theme.rs:284-389 | Each of the seven states stands for a kind of unfinished token and passes on what the grammar says. |
| `OscStripper.OscTitleStripper.Strip` | src/ssh/terminal_theme.rs:280-392 | One chunk in any state: all output so far is the stripped form of all input so far. |
| `OscStripper.StripChunks` | src/ssh/terminal_theme.rs:280-392 | For every way to cut a stream into chunks the concatenated output is the stripped stream. |
| `Escapes.FeedConserves` | src/ssh/snippet.rs:90-156 | One key: what is put out (the trigger's own bytes when it fires) and then held is what was held and then the key. |
| `Escapes.RunConserves` | src/ssh/snippet.rs:90-156 | Any trigger, any timing, any run: no byte is lost, added or reordered. |
| `Escapes.RunTracks` | src/ssh/snippet.rs:90-156 | A held prefix of the trigger is what was typed last, with gaps of at least 20 ms. |
| `Escapes.TypedFires` | src/ssh/snippet.rs:97-154 | From rest, the trigger typed slowly enough is held byte by byte and fires at its last byte. |
| `Escapes.TriggerExactly` | src/ssh/snippet.rs:90-156 | A key fires the trigger if and only if the last keys spell it, each at least 20 ms after the one before, from a point where nothing was held (a mismatch does not restart the match). |
| `EscapeCascade.StageConserves` | src/ssh/snippet.rs:384-404 | A later detector fed a flush holds, hands on, fires on or leaves over exactly what it held and was fed, in that order. |
| `EscapeCascade.FeedKeyAccounts` | src/ssh/snippet.rs:340-412 | Any triggers, any key: for every additive measure what comes in is put out, held, or dropped by an early return. |
| `EscapeCascade.RunAccounts` | src/ssh/snippet.rs:340-412 | The same over every run. |
| `EscapeCascade.KeyConservesExactly` | src/ssh/snippet.rs:386-404 | A key conserves the bytes, under every additive measure, if and only if neither early return is taken with bytes around the trigger: the second detector does not fire while what it held and was handed is more than its trigger, and, when it does not fire, neither does the third. |
| `EscapeCascade.RunConservesExactly` | src/ssh/snippet.rs:340-412 | Any triggers, any run: the bytes typed are those put out, held and dropped, as multisets; none is dropped if and only if no key of the run meets that guard. |
| `EscapeTriggers.NothingDroppedExactly` | src/ssh/snippet.rs:340-412 | With triggers of two bytes, absent ones allowed, no run ever drops a byte if and only if for each pair the triggers start alike or the later one does not contain the earlier one's first byte, and the third does not start like the first while the second starts differently. |
| `EscapeTriggers.CascadeLoses` | src/ssh/snippet.rs:380-412 | For two-byte triggers what the cascade drops and holds afterwards depends on the flush and on which detectors hold a byte, not on times. |
| `EscapeCascade.OtherTriggersLoseBytes` | src/ssh/snippet.rs:389-392 | With triggers `1 2 3` and `2` the keys 1, 2, 9 lose the bytes 1 and 9. |
| `EscapeCascade.ShapedKeyInOrder` | src/ssh/snippet.rs:340-412 | With two-byte triggers that share a first byte other than ESC, a key outside escape sequences loses nothing and keeps the order; only the first detector in use holds a byte between keys. |
| `EscapeCascade.ShapedRun` | src/ssh/snippet.rs:340-412 | With such triggers no run drops a byte; while no ESC overtakes a held byte the run is in order, and once one has, the output differs from the input for good. |
| `EscapeCascade.OrderExactly` | src/ssh/snippet.rs:343-348 | With such triggers nothing is dropped, and output and held bytes are the input in order if and only if no ESC is typed while a byte is held. |
| `EscapeCascade.ShapedConserves` | src/ssh/snippet.rs:340-412 | With such triggers, ESC or not, output and held bytes are the input as multisets. |
| `EscapeCascade.SameAsErased` | src/ssh/snippet.rs:340-373 | The detectors go through a run as if the bytes of escape sequences (CSI shape of section 5.4 of ECMA-48, SS3, ESC pairs) had not been typed. |
| `EscapeCascade.SequencesDoNotInterfere` | src/ssh/snippet.rs:340-412 | A byte of an escape sequence is forwarded verbatim; any other byte causes the action it would cause without them. |
| `EscapeSequences.SequenceIsOpaque` | src/ssh/snippet.rs:343-373 | From any handler outside a sequence: every byte of ESC `[` with any bytes outside 0x40-0x7e and one final byte in that range, of ESC `O` with one byte, and of ESC with another byte, is forwarded as it is; the detectors stay as they were; the handler is outside again after the last byte and not earlier. |
| `EscapeSequences.ParametersInside` | src/ssh/snippet.rs:360-367 | Control sequences with the parameter, intermediate and final bytes of section 5.4 of ECMA-48 are among them. |
| `EscapeSequences.SequencesAreInvisible` | src/ssh/snippet.rs:340-412 | A run of such sequences and of keys that start none leaves the handler as typing those keys alone does. |
| `EscapeSequences.PairFires` | src/ssh/snippet.rs:340-412 | With three two-byte triggers that share the first byte, from rest: the first byte is held; the next one opens the snippets if it is theirs and comes at least 20 ms later, else saves a bookmark or opens the browser if it is theirs, at any time, and else both are forwarded; nothing stays held. |
| `EscapeSequences.UnhurriedExactly` | src/ssh/snippet.rs:120-130 | A key is unhurried if and only if it comes at least 20 milliseconds after the key before. |
| `EscapeEngine.EscapeDetector.FeedWithTime` | src/ssh/snippet.rs:90-156 | The detector in place does what the specified matcher does. |
| `EscapeEngine.EscapeDetector.FeedUntimed` | src/ssh/snippet.rs:76-85 | Feeding without timing checks. |
| `EscapeEngine.EscapeDetector.FeedFlush` | src/ssh/snippet.rs:386-404 | The loop that feeds a flush to a later detector stops at its trigger, as specified. |
| `EscapeEngine.SessionEscapeHandler.FeedWithTime` | src/ssh/snippet.rs:340-412 | Escape sequence tracker, first detector and cascade together make one specified step. |
| `Utf8.VerdictIsRight` | src/ssh/password.rs:52-80 | Validation succeeds exactly on text, and what it reports before an error is text. |
| `Utf8.FromUtf8Extracts` | src/ssh/password.rs:52-80 | Keeping the valid part and going on after the error keeps exactly the characters of the input. |
| `Utf8.CutExactly` | src/ssh/password.rs:52-80 | Data can be cut at a point without changing the extracted text, whatever follows, if and only if no character is cut there. |
| `Utf8.CutCharacterIsLost` | src/ssh/password.rs:69-74 | Every cut inside a character loses one for some continuation. |
| `Utf8.BoundaryStartsText` | src/ssh/password.rs:114-119 | In text the character boundaries are exactly the places where a suffix of whole characters starts. |
| `Utf8Scalars.CharExactly` | src/ssh/password.rs:52-80 | What starts with the encoding of a Unicode scalar value (section 3 of RFC 3629) is decoded as that character ... |
| `Utf8Scalars.CharIsScalar` | src/ssh/password.rs:52-80 | ... and what is decoded as a character is the encoding of a scalar value. |
| `Utf8Scalars.ErrorExactly` | src/ssh/password.rs:62-74 | A cut-off character is one that could be completed; an error takes the longest beginning that could have been, and at least one byte. |
| `Utf8Scalars.StrayByteSkipped` | src/ssh/password.rs:52-80 | Extraction keeps the characters around a byte that starts none. |
| `PasswordPrompt.ExtractValidUtf8` | src/ssh/password.rs:52-80 | The extraction loop returns the characters of the data, all valid text. |
| `PasswordPrompt.TailIsLongest` | src/ssh/password.rs:112-120 | What trimming keeps is the longest suffix of whole characters of at most 256 bytes. |
| `PasswordPrompt.TailBounds` | src/ssh/password.rs:112-120 | At most 256 bytes are kept: all of a text that short, and at least 253 of a longer one. |
| `PasswordPrompt.TailOfTail` | src/ssh/password.rs:110-120 | Trimming before more text arrives loses nothing that trimming afterwards would keep. |
| `PasswordPrompt.FedAllIsTail` | src/ssh/password.rs:99-132 | After any feeds the incrementally trimmed buffer is the tail of all extracted text. |
| `PasswordPrompt.BufferDependsOnTextOnly` | src/ssh/password.rs:99-137 | Since the last clear, the buffer and so the classification depend on the extracted text only, not on how it was cut. |
| `PasswordPrompt.CleanCutsAreInvisible` | src/ssh/password.rs:99-132 | Raw output never cut inside a character is classified by the tail of the whole output's text. |
| `PasswordPrompt.PasswordDetector.Feed` | src/ssh/password.rs:99-132 | Extraction, append, trim and classification in place; nothing is scanned for data without text. |
| `PasswordPrompt.PasswordDetector.TrimBuffer` | src/ssh/password.rs:112-120 | The boundary-advancing loop leaves the tail. |
| `ProxyPassword.TypeMore` | src/ssh/mod.rs:1785-1801 | Editing a line in several reads is editing it in one. |
| `ProxyPassword.RunInvariant` | src/ssh/mod.rs:1589-1949 | In every run: the exclusion below, and what is captured or pending is the line typed since the last sudo prompt. |
| `ProxyPassword.AtMostOneActive` | src/ssh/mod.rs:1658-1719 | At most one of awaiting confirmation, capturing and pending is active; capturing or pending implies no stored password and a known bookmark name; awaiting or verifying implies a stored one. |
| `ProxyPassword.SavedIsTypedLine` | src/ssh/mod.rs:1589-1949 | A password that is saved, by the timer or on leaving, is the edited line typed after the last sudo prompt and ended by Enter, not empty, with no sudo prompt detected since. |
| `ProxyPassword.FilledOnlyOnEnter` | src/ssh/mod.rs:1765-1782 | The stored password is sent only when the first input after a detected prompt starts with Enter, followed by one newline. |
| `ProxyPassword.EncodedIsTypedExactly` | src/ssh/mod.rs:1796-1798 | What is stored is the typed bytes if and only if all of them are ASCII. |
| `Utf8Scalars.EncodedSpells` | src/ssh/mod.rs:1796-1798 | What is stored spells the characters whose numbers are the bytes typed. |
| `ProxyRuns.KindExactly` | src/ssh/password.rs:99-132 | Output is taken for a sudo prompt if and only if it holds text and a sudo pattern finds the rolling buffer with it; for a generic one if no sudo pattern but a generic one does. |
| `ProxyRuns.PromptInAllText` | src/ssh/mod.rs:1676-1718 | From an empty buffer a sudo prompt is seen in the tail of all the text since, however the output was cut. |
| `ProxyRuns.EditedLine` | src/ssh/mod.rs:1785-1801 | Shown bytes are kept, DEL and backspace take back one each, other control bytes count for nothing, Enter ends the line and nothing after it matters. |
| `ProxyRuns.SudoCaptures` | src/ssh/mod.rs:1658-1713 | With a bookmark name, a sudo prompt starts a capture when no password is stored, or when the stored one has just been filled in and is then removed; a pending password is discarded. |
| `ProxyRuns.SudoPasswordIsSaved` | src/ssh/mod.rs:1589-1949 | A sudo prompt, a line typed over any number of reads and ended by the first Enter, not empty, and then no sudo prompt until the timer runs out or the session is left: the line is saved, and stored from then on. |
| `ProxyRuns.SudoAgainDiscards` | src/ssh/mod.rs:1660-1674 | If a sudo prompt comes first, the line is not saved and the next one is captured. |
| `ProxyRuns.StoredPasswordIsOffered` | src/ssh/mod.rs:1697-1704 | With a password stored, any detected prompt, whatever is printed next, and input that starts with Enter: the password and a newline are sent; any other input declines, and nothing is sent. |
| `ProxyRuns.FillIsJudged` | src/ssh/mod.rs:1676-1718 | After a fill and any typing the next output decides: a prompt removes the stored password, with a name from the keychain too, and captures anew if it is a sudo prompt; other output settles that the password worked. |
| `ProxyRuns.RemovedOnlyAfterFill` | src/ssh/mod.rs:1680-1696 | A stored password is removed from the keychain only for a prompt in the first output after a fill. |
| `ProxyRuns.OtherPromptsPass` | src/ssh/mod.rs:1705-1713 | Without a stored password a generic prompt, or any prompt of a session without a name, changes nothing but the buffer. |
| `ProxyRuns.PhaseExactly` | src/ssh/mod.rs:1802-1952 | A failed send closes the session except while a fill is being answered; leaving for the browser goes on, leaving otherwise ends it. |
| `ProxyLoop.PasswordLoop.HandleOutput` | src/ssh/mod.rs:1658-1719 | Remote output in place, on all branches. |
| `ProxyLoop.PasswordLoop.HandleInput` | src/ssh/mod.rs:1765-1829 | Typed input in place, on all branches. |
| `ProxyLoop.PasswordLoop.HandleGraceOver` | src/ssh/mod.rs:1589-1611 | The save timer in place. |
| `ProxyLoop.PasswordLoop.HandleLeave` | src/ssh/mod.rs:1929-1949 | Saving when the inner loop is left. |
| `ProxyLoop.PasswordLoop.Handle` | src/ssh/mod.rs:1586-1949 | One turn of the event loop is the specified step and keeps the exclusion. |
| `ProxyLoop.PasswordLoop.RunSession` | src/ssh/mod.rs:1586-1949 | A whole session in place: every password it saves is the line typed since the last sudo prompt, every fill answers a detected prompt with Enter, and the exclusion holds at the end. |
| `SshImport.Progress` | src/config/ssh_import.rs:100-113 | Visiting a readable file leaves fewer files to visit, so the traversal of any file graph ends. |
| `SshImport.ClosedHoldsReachable` | src/config/ssh_import.rs:211-214 | A set that holds the root and what its files include holds everything reachable. |
| `SshImport.FileExplored` | src/config/ssh_import.rs:100-229 | A call on any file with any visited set: on success it has visited only files reachable from there, all of them readable and their includes visited, and its result measures what those newly visited files contribute, each once; on failure a broken file is reachable. |
| `SshImport.ImportExactly` | src/config/ssh_import.rs:95-229 | An import succeeds if and only if every reachable file can be read and expanded; then it has visited exactly the reachable files, and the bookmarks of each file's non-wildcard Host blocks appear exactly once. |
| `SshImport.ImportedOnce` | src/config/ssh_import.rs:95-229 | On success the result, as a multiset, is the sum of the visited files' own bookmarks, each file's once. |
| `SshImportBlocks.OwnExactly` | src/config/ssh_import.rs:37-64 | A file's own bookmarks, in order: one for each Host line whose alias holds no `*` or `?`, with the settings up to the next Host line; of each directive the last one counts, an invalid port is passed over, an invalid timeout clears the value, the host defaults to the alias and the port to 22. |
| `SshImportOrder.ImportInOrder` | src/config/ssh_import.rs:100-229 | The result in order, failures included: the depth-first expansion of the root, in which a file is expanded where it is first included and a Host block comes after the files its section includes. |
| `SshImportOrder.LayoutOwns` | src/config/ssh_import.rs:137-157 | The layout that is expanded holds each file's own bookmarks in the order of their Host lines. |
| `SshImportEngine.Importer.ParseRecursive` | src/config/ssh_import.rs:100-229 | The recursive parse with its shared visited set follows the specified traversal. |
| `SshImportEngine.Importer.ResolveIncludes` | src/config/ssh_import.rs:268-304 | So does the loop over the files of one Include. |
| `SshImportEngine.ParseSshConfig` | src/config/ssh_import.rs:95-98 | The whole import: success exactly when every reachable file is good, exactly the reachable files visited, their bookmarks once each, in depth-first order. |
| `KnownHosts.VerdictUnique` | src/ssh/known_hosts.rs:79-138 | The order-free definition of the verdict determines it. |
| `KnownHosts.CheckHostKey` | src/ssh/known_hosts.rs:79-138 | The scan returns that verdict: Revoked by the first revoked entry of the key, else Known, else Changed with the last other key's line (0 when only revoked entries name the host), else Unknown. |
| `KnownHosts.ParseFormat` | src/ssh/known_hosts.rs:243-302 | Printing an entry and parsing the line gives back host pattern and key, not revoked. |
| `KnownHostsLines.LineEntry` | src/ssh/known_hosts.rs:243-282 | A line with an optional marker, a list of hosts, a type, a key and anything after it is an entry for exactly those hosts and that key, and a revocation if and only if it is marked `@revoked`, in any letter case; marked `@cert-authority` it is none. |
| `KnownHostsLines.MarkedFormat` | src/ssh/known_hosts.rs:249-282 | The same for a marker written in front of a printed entry. |
| `KnownHostsLines.NoEntryExactly` | src/ssh/known_hosts.rs:97-271 | A line holds no entry if and only if it has fewer than three words, or three and a marker, or is a comment or a certificate authority's. |
| `KnownHostsLines.HashedMatches` | src/ssh/known_hosts.rs:191-240 | A hashed pattern (the empty word, `1`, a salt and a hash, separated by bars) matches a host if and only if the host's hash under the salt is the one written, or the host is written like the pattern. |
| `KnownHostsLines.OnlyHashed` | src/ssh/known_hosts.rs:191-240 | A pattern that matches a host it does not spell is of that form. |
| `KnownHostsLines.LineKindExactly` | src/ssh/known_hosts.rs:97-125 | What a line of unhashed hosts says about the host and key asked for, in all cases. |
| `KnownHostsLines.RevocationWins` | src/ssh/known_hosts.rs:109-114 | A file with a line that revokes the key for the host: the verdict is Revoked at that line or an earlier one, and at that line if no earlier line is marked as a revocation. |
| `KnownHostsLines.NoMarkNoRevocation` | src/ssh/known_hosts.rs:249-257 | A key is reported as revoked only for a line marked as a revocation. |
| `KnownHosts.AddMakesKnown` | src/ssh/known_hosts.rs:141-164 | An entry appended to newline-terminated content makes its host and key Known unless revoked, and changes no verdict for any other host pattern. |
| `KnownHosts.AppendGlues` | src/ssh/known_hosts.rs:157-164 | Without a final newline the entry runs into the last line; all other lines stay. |
| `KnownHosts.AppendsOwnLineExactly` | src/ssh/known_hosts.rs:157-164 | The entry gets a line of its own if and only if the content is empty or ends with a newline. |
| `KnownHostsAppend.UnterminatedLosesEntry` | src/ssh/known_hosts.rs:157-164 | After a printed entry without a newline the host just added stays Unknown. |
| `KnownHostsAppend.TrustedExactly` | src/ssh/known_hosts.rs:79-138 | Whatever decoder and hash are used, a host and key are Known or Revoked if and only if some line names both as they are written. |
| `KnownHostsAppend.SettledVerdict` | src/ssh/known_hosts.rs:127-137 | The verdict is Known or Revoked exactly when some line of the host holds the key. |
| `KnownHostsAppend.AddTrustedExactly` | src/ssh/known_hosts.rs:141-164 | The host and key just added are Known or Revoked, whatever decoder and hash are used, if and only if the file was empty or ended with a newline, or a line above the last named them already, or the words of the last line with the entry's words appended to it do. |
| `KnownHosts.HostPatternInjective` | src/ssh/known_hosts.rs:149-153 | Different hosts or ports are listed under different patterns. |
| `KnownHostsLines.HostPatternForms` | src/ssh/known_hosts.rs:149-153 | Port 22 is left out; any other follows the bracketed name, in digits that read back as the port. |
| `KnownHosts.KnownHostsFile.AddHost` | src/ssh/known_hosts.rs:141-164 | Appending in place, for every later query. |
| `Text.LinesAppend` | src/ssh/known_hosts.rs:97-98 | Text appended after a final newline leaves the lines before it as they are. |

## Left out

- KnownHosts.AddMakesKnown: speaks of content that ends with a newline; the exact condition for the added host is `KnownHostsAppend.AddTrustedExactly`, and for other hosts an unterminated last line is read as `KnownHosts.AppendGlues` says.
- EscapeTriggers.NothingDroppedExactly: is about triggers of two bytes without ESC, as the defaults are; for other triggers the condition is on the run (`EscapeCascade.RunConservesExactly`).
- ReorderBuffer.BufferBounded: counts the bytes buffered between replies of the response loop, not the allocator's overhead or the replies the SFTP library holds.
- UploadEngine.Uploader.Transfer: when a chunk of the local file cannot be read (`UploadEngine.ReadChunkInto` says exactly when) the transfer fails, and the state it leaves behind is not described.
- Resume.AttemptKeepsPrefix: says nothing about the early return for a local file that looks complete (`src/sftp/shortcuts.rs:151-162`) except that it changes nothing, because that branch trusts the length alone.
- Completeness of trigger matching: it does not hold, since a mismatch does not restart the match on the mismatching byte (`Escapes.TriggerExactly` has the exact condition for one detector).
- 64-bit widths in the transfer engine: no offset exceeds the total size, which is one itself.
- Timeouts, channel opening, closing of handles, authentication and the SFTP codec; a failed read or write is an event.
- The handle-based entry points and the TUI's transfer queue, which call the same two loops.
- Local write errors during a transfer, and crashes that keep anything but a prefix of the part file.
- Regular expressions, HMAC and base64: prompt patterns, hash and decoder are function parameters. The text of fingerprints and key types in a host key verdict.
- Warnings and log lines; progress drawing and transfer speed.
- The file system in the import: canonical paths are identities, Include patterns come with the files they expand to, tilde and glob expansion, the splitting of a line into directive and value, environment detection and the merge into existing bookmarks.
- The clock value stored by untimed feeding: it is a parameter and never compared. Instants are nanoseconds, and an earlier instant counts as no time elapsed, as in the standard library.
- What the session does on a trigger (picker, form, browser), window resizing and other events of the proxy loop that touch no password variable.
- The validator's error positions: its verdict is given as the valid bytes and the bytes to go on with.
- Other importers, layered settings, tunnels, themes, and everything drawn on the screen.
