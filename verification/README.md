# Verification of the gateway's engines

A Dafny model of the parts of this SSH/Telnet gateway that hold real state, concurrency or arithmetic, and
proofs of what those parts promise. Each engine is modelled twice: as functions that give the effect of one
event, and, where the source updates variables in place, as a class whose methods are proved to have exactly
that effect. The theorems quantify over every sequence of events.

| engine | files | what it must agree with |
|---|---|---|
| parallel SFTP download | ParallelDownload.dfy, DownloadOutcomes.dfy | the file; one report per transfer |
| transfer table and uploads | Transfers.dfy, Uploads.dfy, UploadOutcomes.dfy | a cap per session; the concatenation of the chunks |
| shell download re-chunker | ShellRechunker.dfy | the byte stream of `cat` |
| shell quoting | ShellQuoting.dfy | a reader for the shell's token rules |
| telnet parser and options | TelnetNegotiation.dfy, TelnetItems.dfy, TelnetOptions.dfy, TelnetNetwork.dfy, TelnetWire.dfy | the items of the stream; a ledger of commands; the options told from the items; two peers, on items and on bytes |
| telnet authenticator, handler and shell | TelnetAuth.dfy, TelnetSession.dfy, TelnetShell.dfy | the prompts in the stripped stream; a ledger of the socket |
| per-client token bucket | RateLimiter.dfy, RateLimiterLaw.dfy, RateLimiterClock.dfy | a limiter with unbounded memory; a law of bursts without buckets; a budget |
| logging controls and logger | LoggingControls.dfy, LoggingLaw.dfy, StructuredLogger.dfy | a law of bursts without buckets; conservation of entries |
| SSH connect and its pool | ConnectionPool.dfy, ConnectRace.dfy | the pool filtered by session; the first deciding event |
| host-key prompt | HostKeyPrompt.dfy | the first deciding event |
| subnet matching | JsNumbers.dfy, JsText.dfy, Cidr.dfy, Ipv6Segments.dfy, Ipv6Cidr.dfy, Subnets.dfy | equality of leading bits |

Basics.dfy and Arithmetic.dfy hold shared types and facts. `dafny verify dfyconfig.toml` checks everything.

## Modelling choices

* Code between two `await`s, or one callback, is one step; what resolves a promise, fires a timer or answers a
  request is an event that may come at any enabled moment. So every theorem about runs covers every timing.
* `Buffer` is `seq<byte>`; a `Map` used only by key is a `map`; the limiter's `Map`, whose insertion order
  matters, is a sequence of keys beside a `map`. Tokens of the per-client limiter are real numbers.
* JavaScript's 32-bit operators are written out (`ToInt32`, `ShiftLeft` with its count modulo 32, `BitAnd`).
* Regular expressions of the authenticator are arbitrary predicates on the buffered bytes.
* The state carries the history the theorems speak of: chunks emitted, reads issued, lines written.

## Where the code differs from what one might expect

Each of these is a theorem below.

* A download that completes has delivered the file if and only if no read came back short: the missing tail of a
  short read is never asked for (`CompleteDeliversFileIffReadsFull`, and `ShortReadCompletes` for a run).
* The promise of a download that can go no further stays pending if and only if nothing failed to open or read
  and the file is empty or a chunk callback rejected (`PendingForeverIff`, `EmptyFileHangs`, `RefusalHangs`).
* A download whose promise stays pending keeps the remote file open and, unless it was cancelled, its place under
  the session's cap and its entry in `downloadStreams`; after a failed open that entry stays too (`HoldsOnIff`).
* An upload can be reported complete with bytes missing: when an earlier write failed, or has not returned, and the
  write of the last chunk succeeds (`CompletesWithHole`). The file is the concatenation of the chunks if and only if
  every write has put down its last byte (`UploadDeliversIff`). A failed upload keeps its place under the cap until
  it is ended (`FailedUploadKeepsSlot`).
* Cancelling a running download stops neither its reads nor its chunks; all it does is to withhold `onComplete`,
  exactly if it comes before the last chunk was accepted (`CancelIsInvisible`, `CancelWithholdsReport`). The
  comment at app/services/sftp/sftp-service.ts:924 says the loop will check the flag, but it reads another object.
* Another chunk is handed out after `onError` in some continuation if and only if the emitter is suspended with
  the next chunk already buffered (`EmitsAfterErrorIff`, and `ErrorDoesNotStopEmission` for a run).
* When the failure pattern matches a chunk that follows buffered ones, the buffered bytes are never forwarded
  (`NothingIsLost`, and `FailureLosesBytes` for a run).
* A `DONT` or `WONT`, or a `WILL` or `DO` of an unsupported option, is always answered, so two such peers never
  fall silent; negotiation comes to rest if and only if nothing of the kind is in flight (`QuiescesIffCalm`, and
  `DontNeverRests` for one `DONT`).
* A terminal name with byte 0xFF is sent unescaped and cannot be read back (`TerminalTypeRoundTripIff`,
  `PeerAnswersBytes`); a peer that is asked for such a name can set off an exchange that never ends
  (`UnsafeNameNeverRests`). Window sizes survive exactly when they fit 16 bits (`NawsRoundTrip`).
* What the client types goes to the socket as it is, without doubling a 0xFF; text in UTF-8 has none
  (`ReportsOnSocket`).
* An answer to a host-key prompt names no prompt, so it settles every undecided prompt of the socket alike, another
  host's too (app/services/host-key/host-key-verifier.ts:310); it settles one alone if and only if no other is
  undecided (`AnswerSettlesAll`, and `AcceptSettlesBoth` for a run).
* After a backward clock jump the calls allowed can exceed the budget of the clock's current reading; the bound
  holds against the latest reading (`AllowedWithinBudget`), and against the current one for every configuration
  exactly when the clock never goes back (`FitsNowIffNeverBack`).
* Back-pressure takes back the published count but not the token, so it restores the controls if and only if no
  rate rule governs the event (`RollbackUndoesPermit`), and a broken write is counted as published
  (`EntriesAreConserved`).
* Resuming a paused transfer can exceed the cap on a session's transfers (`CapHoldsIff`, `ResumeBreaksCap`). This
  speaks of the class: nothing in app/ resumes a transfer.
* Reusing a connection id under another session breaks the pool's index (`AddKeepsIndexIff`). This too speaks of the
  class: connection ids are fresh UUIDs (app/services/ssh/ssh-service.ts:267).
* An IPv4 block with mask 0 matches only its own address, because the shift count wraps
  (`Ipv4MatchesPrefix`, `Ipv4CorrectIff`, and `ZeroMaskFails` for 10.0.0.1 against 0.0.0.0/0).
* A malformed entry of a subnet list is not refused: a block whose base has a bad octet is read as if that octet and
  those before it were zero, and one without four octets as 0.0.0.0 (`Ipv4MatchesText`); an IPv6 base counts by its
  first eight segments modulo 65536, missing ones as zero (`Ipv6MatchesText`).

## Model

| member | source | states |
|---|---|---|
| ParallelDownload.StepKeepsInv | app/services/sftp/sftp-service.ts:782-916 | every callback, emitter resumption, open, failure and cancel keeps the books: each requested index is in flight, buffered, handed out or lost, exactly one of them; the window is full; no wakeup is lost |
| ParallelDownload.EmitsInOrder | app/services/sftp/sftp-service.ts:782-829 | for every interleaving the emitted chunks are 0, 1, .. in order, once each, with the bytes their reads returned; isLast on the final chunk only; completion only after all |
| ParallelDownload.ReadsOnceWithinWindow | app/services/sftp/sftp-service.ts:839-880 | each index is requested at most once, at most 32 reads are outstanding and exactly 32 while there is more to read, and an idle emitter has nothing buffered to emit |
| ParallelDownload.ReportsAtMostOnce | app/services/sftp/sftp-service.ts:773-866 | over every run at most one of onComplete and onError is called, at most once |
| ParallelDownload.EmittedIsPrefix | app/services/sftp/sftp-service.ts:794-805 | with full reads the bytes emitted are at every moment a prefix of the file |
| ParallelDownload.CompleteDeliversFileIffReadsFull | app/services/sftp/sftp-service.ts:844-869 | a completed download has delivered the file if and only if every read returned all the bytes it asked for |
| ParallelDownload.ChunksCoverFile | app/services/sftp/sftp-service.ts:732 | the chunks of a non-empty file cover it, and one fewer would not |
| ParallelDownload.ChunksAreFull | app/services/sftp/sftp-service.ts:794-845 | with full reads every chunk but the last has exactly chunkSize bytes, none is empty, each is the file's bytes at index * chunkSize, and the one marked last, and no other, ends the file |
| DownloadOutcomes.RunsAreBounded | app/services/sftp/sftp-service.ts:839-916 | a download of n chunks ends after at most 2n + 1 events of its own |
| DownloadOutcomes.CompletesIff | app/services/sftp/sftp-service.ts:773-816 | at any moment of any run onComplete has been called if and only if every chunk was accepted and no cancel came before; until then the transfer is tracked |
| DownloadOutcomes.StuckMeansSettled | app/services/sftp/sftp-service.ts:773-916 | a non-empty download that can go no further has emitted every chunk and called onComplete unless a cancel came early, or reported one error, or stopped at a callback that rejected |
| DownloadOutcomes.SucceedsIff | app/services/sftp/sftp-service.ts:732-937 | a download that can go no further has called onComplete if and only if the file is not empty, the open, every read and every callback succeeded, and no cancel came before the last chunk was accepted |
| DownloadOutcomes.PendingForeverIff | app/services/sftp/sftp-service.ts:734-916 | the promise is resolved at most once, and stays pending if and only if nothing failed to open or read and the file is empty or a callback rejected |
| DownloadOutcomes.EmptyFileHangs | app/services/sftp/sftp-service.ts:732-915 | the run of an empty file: opened, stuck, nothing reported, promise pending |
| DownloadOutcomes.ShortReadCompletes | app/services/sftp/sftp-service.ts:848-869 | an honest run with a short read that completes without the file's bytes |
| DownloadOutcomes.RefusalHangs | app/services/sftp/sftp-service.ts:800-828 | a run whose chunk callback rejects: stuck, nothing reported, promise pending |
| DownloadOutcomes.CancelWithholdsReport | app/services/sftp/sftp-service.ts:773-780 | a run with a cancel before its end: every chunk handed out, neither onComplete nor onError called |
| DownloadOutcomes.CancelIsInvisible | app/services/sftp/sftp-service.ts:923-937 | removing every cancel from a run changes neither reads nor chunks nor errors nor resolving; the flag the loop tests is never set; onComplete is withheld exactly if a cancel came before the last chunk was accepted |
| DownloadOutcomes.EmitsAfterErrorIff | app/services/sftp/sftp-service.ts:819-866 | after onError some continuation hands out another chunk if and only if the emitter is suspended and the next chunk is already buffered |
| DownloadOutcomes.ErrorDoesNotStopEmission | app/services/sftp/sftp-service.ts:819-866 | for every file of three chunks or more, a run in which a chunk follows onError |
| DownloadOutcomes.HoldsOnIff | app/services/sftp/sftp-service.ts:773-937 | a download that can go no further has the remote file open if and only if its promise is pending, is tracked if and only if it is so without a cancel, and keeps its stream entry if and only if, without a cancel, it is so or the open failed |
| ParallelDownload.Download.EmitBufferedChunks | app/services/sftp/sftp-service.ts:783-805 | the emitter up to its first await, as the step function says |
| ParallelDownload.Download.HandleOpened | app/services/sftp/sftp-service.ts:896-915 | the open callback up to its first reads |
| ParallelDownload.Download.StartReads | app/services/sftp/sftp-service.ts:910-915 | the loop of first reads |
| ParallelDownload.Download.HandleReadDone | app/services/sftp/sftp-service.ts:849-878 | a read callback: store, wake the emitter, issue the next read |
| ParallelDownload.Download.StartNextRead | app/services/sftp/sftp-service.ts:874-878 | the read that follows a finished one, if any is left |
| ParallelDownload.Download.ResumeEmitter | app/services/sftp/sftp-service.ts:811-828 | the emitter after its await, up to its next one, including completion and the re-check |
| Transfers.StepKeepsCapIff | app/services/sftp/transfer-manager.ts:95-364 | one operation keeps every session's pending and active transfers within the cap if and only if it does not resume a transfer of a full session |
| Transfers.CapHoldsIff | app/services/sftp/transfer-manager.ts:95-364 | over any run the cap holds after every step if and only if no resume is granted to a session that is already full |
| Transfers.CapHoldsWithoutResume | app/services/sftp/transfer-manager.ts:95-108 | runs without resumes never exceed the cap |
| Transfers.ExcessIsBounded | app/services/sftp/transfer-manager.ts:343-364 | with resumes the excess is at most one transfer for each |
| Transfers.ResumeBreaksCap | app/services/sftp/transfer-manager.ts:317-364 | a run with cap one that ends with two active transfers |
| Transfers.RunTellsLives | app/services/sftp/transfer-manager.ts:95-364 | over any run each transfer is in the table, in its state and with its counters, exactly as its own granted operations say; and the next operation is granted, or refused for the reason, that this says |
| Transfers.EndFreesPlace | app/services/sftp/transfer-manager.ts:250-312 | completing, cancelling or failing a running transfer removes it alone and frees its place, so that another start is granted |
| Transfers.TransferManager.GetActiveCount | app/services/sftp/transfer-manager.ts:402-411 | the counting loop returns the number of the session's pending and active transfers |
| Transfers.TransferManager.StartTransfer | app/services/sftp/transfer-manager.ts:95-135 | the error and the table after a start, refused or not |
| Transfers.TransferManager.UpdateProgress | app/services/sftp/transfer-manager.ts:174-211 | a chunk advances the counters or is refused for one of three reasons and changes nothing |
| Uploads.ChunksTileTheFile | app/services/sftp/sftp-service.ts:540-548 | at any moment of any run the accepted chunks are 0, 1, .., chunk k written at the sum of the earlier lengths |
| Uploads.ChunkAcceptedIff | app/services/sftp/sftp-service.ts:527-545 | a chunk is accepted if and only if the handle is open, the transfer active and the chunk the next one; otherwise nothing changes |
| Uploads.FileNeverHoldsForeignBytes | app/services/sftp/sftp-service.ts:560-580 | whichever writes have completed or half completed, every byte in the file is the content's byte for that place |
| Uploads.FileIsConcatenation | app/services/sftp/sftp-service.ts:560-592 | once no write is in flight and none failed, the file is the concatenation of the chunks, in whatever order the writes completed |
| Uploads.HandleOpenIff | app/services/sftp/sftp-service.ts:568-625 | the handle is open if and only if no write failed, no write of a last chunk is done, and the upload was not ended |
| Uploads.TrackedIff | app/services/sftp/sftp-service.ts:597-625 | the upload's transfer is in the table if and only if it was not finished, aborted or ended through the manager |
| UploadOutcomes.ByteIsThereIff | app/services/sftp/sftp-service.ts:560-592 | at any moment of any run a byte of an accepted chunk is in the file if and only if its write completed, or failed only after that byte |
| UploadOutcomes.UploadDeliversIff | app/services/sftp/sftp-service.ts:540-592 | at any moment, and so at completion, the file is the concatenation of the accepted chunks if and only if every write has reached its last byte |
| UploadOutcomes.CompletesWithHole | app/socket/adapters/service-socket-sftp.ts:354-374 | a run in which a write fails, the last chunk's write succeeds, completing is granted and the first byte is missing |
| UploadOutcomes.FailedUploadKeepsSlot | app/services/sftp/sftp-service.ts:568-576 | after a failed write no chunk is accepted, and the transfer counts against its session's cap until it is finished, cancelled or removed |
| Uploads.SftpUploads.ProcessUploadChunk | app/services/sftp/sftp-service.ts:527-548 | the answer to a chunk, the write offset, and the table afterwards |
| Uploads.SftpUploads.CompleteUpload | app/services/sftp/sftp-service.ts:597-612 | completing removes the transfer and closes the handle, or reports that there is none |
| ShellRechunker.SegmentationIndependence | app/services/sftp/shell-file-service.ts:502-516 | two streams with the same bytes give the same chunks however they are split into data events |
| ShellRechunker.DownloadIsStream | app/services/sftp/shell-file-service.ts:479-531 | length / size + 1 chunks numbered from 0, all but the last of exactly the chunk size, the last shorter and alone marked, concatenating to the stream |
| ShellRechunker.Rechunker.HandleData | app/services/sftp/shell-file-service.ts:502-516 | the loop emits the full chunks of the accumulated buffer and keeps the rest |
| ShellRechunker.Rechunker.HandleEnd | app/services/sftp/shell-file-service.ts:518-531 | the rest, possibly empty, goes out as the last chunk |
| ShellQuoting.QuotedIsOneWord | app/services/sftp/shell-commands.ts:24-27 | for every path the shell reads the quoted path as one word that is exactly the path, with nothing left to expand |
| ShellQuoting.QuotingIsInjective | app/services/sftp/shell-commands.ts:24-27 | different paths are quoted differently |
| ShellQuoting.QuotedInContext | app/services/sftp/shell-commands.ts:24-27 | between any complete texts a quoted path is one word and the texts keep their own tokens |
| ShellQuoting.ListCommandWords | app/services/sftp/shell-commands.ts:36-39 | the list command has the same three words for every path, the last being the path |
| ShellQuoting.StatCommandWords | app/services/sftp/shell-commands.ts:49-51 | the same for the stat command |
| ShellQuoting.ReadCommandWords | app/services/sftp/shell-file-service.ts:456-457 | the same for reading a file |
| ShellQuoting.WriteCommandWords | app/services/sftp/shell-file-service.ts:239-240 | the same for writing one, with its redirection |
| TelnetNegotiation.ProcessSplits | app/services/telnet/telnet-negotiation.ts:152-164 | feeding a stream in two pieces is feeding it whole |
| TelnetNegotiation.SegmentationIndependence | app/services/telnet/telnet-negotiation.ts:152-164 | for every split of the stream clean data, responses and final state are those of the whole |
| TelnetNegotiation.AnswersInBytes | app/services/telnet/telnet-negotiation.ts:277-336 | a fresh negotiator's answer to each of the four commands, for every option, in the bytes of RFC 854 and RFC 1073 |
| TelnetNegotiation.OffersInBytes | app/services/telnet/telnet-negotiation.ts:133-146 | the offers of a fresh negotiator are IAC WILL 24 and IAC WILL 31 |
| TelnetNegotiation.Negotiator.ProcessOneByte | app/services/telnet/telnet-negotiation.ts:213-275 | one byte's effect on parser, registers and options, and what it yields |
| TelnetNegotiation.Negotiator.HandleOptionByte | app/services/telnet/telnet-negotiation.ts:277-336 | the reaction to a command and its option |
| TelnetNegotiation.Negotiator.ProcessInbound | app/services/telnet/telnet-negotiation.ts:152-164 | the loop over a buffer composes the byte steps |
| TelnetNegotiation.Negotiator.BuildProactiveOffers | app/services/telnet/telnet-negotiation.ts:133-146 | the offers sent and the options marked |
| TelnetItems.TokenizeIsLossless | app/services/telnet/telnet-negotiation.ts:213-358 | every stream is the encoding of the items read off it followed by its unfinished rest |
| TelnetItems.TokenizeUndoesEncode | app/services/telnet/telnet-negotiation.ts:242-358 | any sequence of items, payloads escaped, reads back as written |
| TelnetItems.ProcessMeansInterpret | app/services/telnet/telnet-negotiation.ts:213-376 | for every stream the parser's data, responses, options and state are those of the stream's items |
| TelnetItems.EscapedDataComesBack | app/services/telnet/telnet-negotiation.ts:242-258 | data with IAC doubled comes out exactly, with no response |
| TelnetItems.NawsRoundTrip | app/services/telnet/telnet-negotiation.ts:171-185 | a window report reads back as one subnegotiation without a response; its big-endian numbers are the dimensions if and only if they fit 16 bits |
| TelnetItems.TerminalTypeRoundTripIff | app/services/telnet/telnet-negotiation.ts:191-198 | the terminal type reads back if and only if its name holds no 0xFF |
| TelnetOptions.EveryResponseIsAccountedFor | app/services/telnet/telnet-negotiation.ts:277-336 | over every run of offers, bytes and resizes, what was sent for an option is exactly what is owed to what was received |
| TelnetOptions.WillAtMostOnce | app/services/telnet/telnet-negotiation.ts:133-146 | WILL is sent at most once per supported option and never for another |
| TelnetOptions.OneReportPerDoNaws | app/services/telnet/telnet-negotiation.ts:318-322 | exactly one window report for each DO NAWS |
| TelnetOptions.OptionsOnlyAdvance | app/services/telnet/telnet-negotiation.ts:298-323 | between any two moments of a run no option moves backwards |
| TelnetOptions.AnnouncedIff | app/services/telnet/telnet-negotiation.ts:133-323 | after any run an option is active if and only if it is 1, 3, 24 or 31 and a DO of it came; exactly one WILL of it was sent if it is, or if offers were made and it is 24 or 31, and none otherwise |
| TelnetOptions.ReportsHoldLatestSize | app/services/telnet/telnet-negotiation.ts:123-323 | every window report in answer to a DO holds the size last set |
| TelnetNetwork.PeerAnswersBytes | app/services/telnet/telnet-negotiation.ts:277-376 | a peer fed the bytes of one item writes exactly the bytes of the replies if and only if it is not asked for a terminal name that holds a 0xFF |
| TelnetNetwork.CalmSchedulesAreShort | app/services/telnet/telnet-negotiation.ts:277-336 | with no refusal in flight no schedule is longer than three for each inactive option plus the weights in flight |
| TelnetNetwork.RefusalsNeverDie | app/services/telnet/telnet-negotiation.ts:283-295 | with a refusal in flight no schedule ever empties the queues |
| TelnetNetwork.DontNeverRests | app/services/telnet/telnet-negotiation.ts:283-295 | with one DONT in flight and nothing else the network is back where it was after every two deliveries, any number of times, and never at rest |
| TelnetNetwork.QuiescesIffCalm | app/services/telnet/telnet-negotiation.ts:277-336 | two peers can come to rest if and only if no refusal is in flight, and then every schedule is bounded |
| TelnetNetwork.AllSchedulesAgree | app/services/telnet/telnet-negotiation.ts:277-376 | every schedule that empties the queues reaches the same state in the same number of steps |
| TelnetNetwork.NegotiatedOptions | app/services/telnet/telnet-negotiation.ts:298-336 | which options are active when the queues are empty, in closed form |
| TelnetWire.SegmentIsBytes | app/services/telnet/telnet-negotiation.ts:152-164 | a peer reading a segment of any size is the peer reading its bytes one after the other |
| TelnetWire.BytesFollowItems | app/services/telnet/telnet-negotiation.ts:152-376 | every run of two peers over queues of bytes follows a run over queues of items |
| TelnetWire.AnyItemsAreWired | app/services/telnet/telnet-negotiation.ts:104-118 | any two peers between items, with any items on the way in either direction, are such a network of bytes, unless a peer whose name holds a 0xFF is asked for it |
| TelnetWire.WireQuiescesIffCalm | app/services/telnet/telnet-negotiation.ts:277-376 | over queues of bytes two peers can fall silent if and only if no refusal is on the way, and then every schedule of reads is bounded |
| TelnetWire.WireSettles | app/services/telnet/telnet-negotiation.ts:277-376 | every schedule of byte reads that drains the queues ends with the options the items settle to, both parsers between items |
| TelnetWire.UnsafeNameNeverRests | app/services/telnet/telnet-negotiation.ts:191-198 | a name with a 0xFF, asked for when no refusal is on the way, after which no schedule drains the queues |
| TelnetAuth.CredentialsAtMostOnceInOrder | app/services/telnet/telnet-auth.ts:124-178 | for every sequence of data, timeout and settle events user name and password are written at most once each, in that order |
| TelnetAuth.BufferIsBounded | app/services/telnet/telnet-auth.ts:124-205 | the buffer never exceeds 65536 bytes and is empty outside the waiting states |
| TelnetAuth.EndPhasesAbsorb | app/services/telnet/telnet-auth.ts:72-86 | an end state never changes again and nothing more is written |
| TelnetAuth.ChunkDecides | app/services/telnet/telnet-auth.ts:72-205 | a chunk makes a waiting authenticator write its line if and only if the prompt matches all that arrived since the last match, at most 64 KB; otherwise it gives up, fails or waits on, as that text's length and the failure pattern say |
| TelnetAuth.TimerDecides | app/services/telnet/telnet-auth.ts:212-247 | which timer ends which wait, and that it forwards all that arrived since the last match |
| TelnetAuth.WritesAsTold | app/services/telnet/telnet-auth.ts:124-178 | for every sequence of chunks and timers the lines written are the user name if the login prompt was ever complete in what had arrived, and the password if its prompt was complete in what arrived after that; before a timeout and within 64 KB |
| TelnetAuth.UserNameIff | app/services/telnet/telnet-auth.ts:124-150 | for a prompt that stays matched the user name is written if and only if all that arrived matches, however it was cut |
| TelnetAuth.NothingIsLost | app/services/telnet/telnet-auth.ts:124-247 | forwarded bytes followed by the buffer are everything after the chunk that last matched a prompt, if and only if no chunk made the failure pattern match behind buffered bytes |
| TelnetAuth.FailureLosesBytes | app/services/telnet/telnet-auth.ts:190-196 | a run whose failure branch loses the bytes buffered before |
| TelnetAuth.Authenticator.ProcessData | app/services/telnet/telnet-auth.ts:72-86 | what a chunk makes the authenticator write, forward and become |
| TelnetAuth.Authenticator.SettleAuthResult | app/services/telnet/telnet-auth.ts:212-226 | the settle timer's effect |
| TelnetSession.ShellGetsStrippedStream | app/services/telnet/telnet-service.ts:403-427 | without an authenticator the shell gets exactly the stripped stream and the socket exactly the responses, however the stream is cut |
| TelnetSession.SessionFollowsAuthenticator | app/services/telnet/telnet-service.ts:403-427 | with one, the session pushes exactly what the authenticator forwards, also after it is done |
| TelnetSession.SocketInterleaves | app/services/telnet/telnet-service.ts:403-424 | the data handler and the timers write to the socket the negotiation responses of the whole stream and the authenticator's lines, each in their order and nothing else |
| TelnetSession.CredentialsOnSocket | app/services/telnet/telnet-service.ts:407-419 | beside the responses the socket gets user name and password at most once each, in that order |
| TelnetSession.LinesOnSocket | app/services/telnet/telnet-service.ts:403-424 | beside the responses the socket gets exactly the lines that the stripped segments and the timers tell |
| TelnetSession.UserNameWrittenIff | app/services/telnet/telnet-service.ts:403-424 | for a prompt that stays matched the user name is written if and only if the stripped stream holds the prompt, however the socket cut it up |
| TelnetSession.SessionLosesNothing | app/services/telnet/telnet-service.ts:383-427 | pushed bytes followed by the authenticator's buffer are the stripped stream from the segment that last matched a prompt on, if and only if the failure pattern never matched behind buffered bytes |
| TelnetSession.Handler.HandleData | app/services/telnet/telnet-service.ts:403-427 | one socket segment's effect on negotiator, authenticator, socket and shell |
| TelnetSession.Handler.SendOffers | app/services/telnet/telnet-service.ts:251-255 | the offers made at shell open reach the socket and mark the options |
| TelnetSession.Handler.Resize | app/services/telnet/telnet-service.ts:266-280 | a resize keeps the new size and writes one report of it |
| TelnetShell.ShellPushesAsHandler | app/services/telnet/telnet-service.ts:251-280 | deleting offers, resizes and typing from a run changes nothing of what the authenticator does and the shell stream gets |
| TelnetShell.SocketIsMerged | app/services/telnet/telnet-service.ts:72-424 | everything on the socket is a negotiation buffer (response, offer or report) or a text, each kind in its order |
| TelnetShell.TextsAreMerged | app/services/telnet/telnet-service.ts:72-424 | the texts are the typed chunks and the authenticator's lines, each in their order |
| TelnetShell.SocketLedger | app/services/telnet/telnet-service.ts:251-424 | for every order of segments, timers, offers, resizes and typing, the commands and reports on the socket are what is owed to the items received, one report for each resize, and what the texts contain |
| TelnetShell.ReportsOnSocket | app/services/telnet/telnet-service.ts:251-280 | when credentials and typing hold no 0xFF, window reports on the socket equal DO NAWS received plus resizes, and one WILL goes out for each of the options 1, 3, 24 and 31 that was asked for, or offered, and none for another |
| RateLimiter.KeepsMostRecentKeys | app/security/rate-limiter.ts:34-64 | after any run the keys are exactly the maxKeys most recently used ones, in recency order |
| RateLimiter.RecentKeysByLastUse | app/security/rate-limiter.ts:34-39 | the recency list is ordered by last use |
| RateLimiter.SurvivesIff | app/security/rate-limiter.ts:41-49 | a key is still known if and only if fewer than maxKeys other keys came since its last use |
| RateLimiter.AnswersAsIfUnbounded | app/security/rate-limiter.ts:52-70 | the answer for a key is that of a limiter with unbounded memory whenever fewer than maxKeys others came between its uses |
| RateLimiter.AllowedWithinBudget | app/security/rate-limiter.ts:52-69 | while a key's bucket lives, calls allowed stay within capacity plus refill up to the clock's latest reading, under any clock |
| RateLimiterLaw.AllowedIffFits | app/security/rate-limiter.ts:52-70 | under any options and any clock a call is allowed if and only if the capacity is at least one and, for each earlier call since the key was last forgotten, those allowed from it on leave room for one more within the capacity and the refill since |
| RateLimiter.Limiter.EvictIfNeeded | app/security/rate-limiter.ts:41-49 | the loop keeps the most recent keys and their buckets |
| RateLimiter.Limiter.AllowCall | app/security/rate-limiter.ts:52-70 | one call's answer and the limiter afterwards |
| RateLimiterClock.FitsNowIffNeverBack | app/security/rate-limiter.ts:7-9 | calls allowed fit the budget at the clock's current reading, for every configuration and moment, if and only if the readings never go back |
| RateLimiterClock.JumpIsCaught | app/security/rate-limiter.ts:52-69 | for any backward jump, options under which that bound breaks |
| LoggingControls.SelectRateLimitRule | app/services/logging/controls.ts:200-214 | the one-pass loop finds the first exact rule, else the first wildcard |
| LoggingControls.SelectSamplingRule | app/services/logging/controls.ts:128-146 | the same for sampling rules |
| LoggingControls.RefillIsAdditive | app/services/logging/controls.ts:216-244 | refilling to one reading and then another is refilling to the later of the two |
| LoggingControls.AllowedByRule | app/services/logging/controls.ts:148-198 | under fixed rules and any clock tokens stay in 0..capacity, and a rule lets through at most capacity + limit * floor((latest - first) / interval) events |
| LoggingLaw.AllowedIffFits | app/services/logging/controls.ts:148-244 | an event is let through if and only if no rule governs it or, for each earlier event of its rule, those let through from it on leave room for one more within limit plus burst and the limit for each whole interval since |
| LoggingLaw.ChosenGoverns | app/services/logging/controls.ts:200-214 | the rule of an event is the first that names it, else the first wildcard |
| LoggingLaw.RateGoverns | app/services/logging/controls.ts:98-146 | the same for sampling, else the default rate, else one |
| LoggingLaw.DropsIff | app/services/logging/controls.ts:76-126 | an event is sampled out if and only if the random number is not below the governing rate, and otherwise dropped if and only if its rule refuses it |
| StructuredLogger.EntriesAreConserved | app/logging/structured-logger.ts:62-101 | published, sampled-out, rate-limited and queue-dropped entries add up to the calls that passed the level and were prepared |
| StructuredLogger.CountersTellFates | app/logging/structured-logger.ts:62-128 | over every run each counter is the number of calls with that fate since the controls were last replaced, and an error is reported if and only if the last call that reached the transport was queued out or lost |
| StructuredLogger.FailsIff | app/logging/structured-logger.ts:62-101 | a call is answered with an error if and only if it passes the level and its clock, formatter or write fails |
| StructuredLogger.DroppedByRuleIff | app/logging/structured-logger.ts:62-101 | after any run a call is dropped by its rule if and only if it is sampled in and does not fit the rule's law over the calls judged since the controls were last replaced |
| StructuredLogger.PermitSpends | app/services/logging/controls.ts:175-197 | an event a rule lets through costs its bucket exactly one token after the refill, always changes it, and changes no other |
| StructuredLogger.RollbackUndoesPermit | app/logging/structured-logger.ts:130-142 | back-pressure restores the metrics without meeting the zero clamp; the controls are as before if and only if no rate rule governs the event |
| StructuredLogger.FailedPreparationChangesNothing | app/logging/structured-logger.ts:62-78 | deleting from a run every call below the level or failing in the clock or the formatter leaves counters, tokens and accounts the same |
| StructuredLogger.LoggerObject.LogEntry | app/logging/structured-logger.ts:62-101 | one log call's result and the logger afterwards |
| ConnectionPool.AddKeepsIndexIff | app/services/ssh/connection-pool.ts:22-28 | adding keeps the index equal to the filtered pool if and only if the id is new or already filed under that session |
| ConnectionPool.RemoveKeepsIndex | app/services/ssh/connection-pool.ts:43-55 | removing keeps the index, leaves no empty set, and touches no other id |
| ConnectionPool.RemoveUndoesAdd | app/services/ssh/connection-pool.ts:22-55 | removing a new id restores the pool as it was |
| ConnectionPool.ConnectionPoolObject.GetBySession | app/services/ssh/connection-pool.ts:62-76 | the loop over the index returns exactly the session's connections |
| ConnectRace.SettlesAtMostOnce | app/services/ssh/ssh-service.ts:252-261 | each connect promise is resolved at most once in every interleaving |
| ConnectRace.FirstEventDecides | app/services/ssh/connection-handlers.ts:50-166 | in every interleaving the first ready, error, timeout or throw of an attempt decides its one result, connected exactly if it is the ready; the id is pooled from that ready to the next close or disconnect; the client is ended by a deciding timeout or a disconnect of the open connection alone; and the dispatched actions are exactly those told by the events |
| ConnectRace.EstablishedIffConnected | app/services/ssh/connection-handlers.ts:50-88 | CONNECTION_ESTABLISHED is dispatched once for an attempt that resolved to a connection and never otherwise, and an id is pooled exactly from then until a close or a disconnect |
| ConnectRace.IndexIsFilteredPool | app/services/ssh/connection-pool.ts:14-55 | in every interleaving the session index equals the pool filtered by session, with no empty sets |
| ConnectRace.TimeoutRemovesNothing | app/services/ssh/ssh-service.ts:281-295 | the removal a timeout makes before settling never finds anything |
| ConnectRace.Connect.HandleReady | app/services/ssh/connection-handlers.ts:54-87 | a ready event's effect on pool, attempt and store |
| ConnectRace.Connect.Disconnect | app/services/ssh/ssh-service.ts:494-520 | a disconnect removes and reports a pooled connection and does nothing else |
| ConnectRace.Connect.HandleTimeout | app/services/ssh/ssh-service.ts:281-295 | the timeout's effect |
| HostKeyPrompt.FirstEventDecides | app/services/host-key/host-key-verifier.ts:245-313 | in every interleaving verify is called at most once per prompt, with what the first answer, disconnect or timeout says; until then timer and listeners stand, afterwards none is left |
| HostKeyPrompt.AnswerSettlesAll | app/services/host-key/host-key-verifier.ts:255-312 | in every run an answer settles every undecided prompt alike and no other; it settles the one it was meant for alone if and only if no other is undecided |
| HostKeyPrompt.AcceptSettlesBoth | app/services/host-key/host-key-verifier.ts:261-312 | a run with two prompts and one Accept in which both keys are accepted |
| HostKeyPrompt.AlgorithmReadsBack | app/services/host-key/host-key-verifier.ts:90-99 | a length-prefixed algorithm name in front of any key data is read back, and any cut through it is reported as unknown |
| HostKeyPrompt.PromptObject.HandleResponse | app/services/host-key/host-key-verifier.ts:255-295 | the verdict an answer gives, and the clean-up |
| Cidr.Ipv4MatchesPrefix | app/ssh/hostname-resolver.ts:101-132 | for valid addresses and masks 1 to 32 the matcher compares exactly the leading bits; for mask 0 it compares all 32 |
| Cidr.Ipv4NeedsMask | app/ssh/hostname-resolver.ts:102-110 | a subnet without a mask or with one beyond 32 matches no address |
| Cidr.Ipv4CorrectIff | app/ssh/hostname-resolver.ts:123-132 | a block matches as RFC 4632 section 3.1 says if and only if its mask is not 0 or the addresses are equal |
| Cidr.ZeroMaskFails | app/ssh/hostname-resolver.ts:123-132 | 10.0.0.1 is not matched by 0.0.0.0/0, whose prefix it shares |
| Cidr.Ipv4MatchesText | app/ssh/hostname-resolver.ts:101-132 | any text as the subnet, well-formed or not, matches if and only if it has a mask of 0 to 32 and the leading bits agree with the address its base is read as |
| Ipv6Segments.SegmentsMatchPrefix | app/ssh/hostname-resolver.ts:181-203 | the 16-bit segment loop compares exactly the leading bits of the two numbers, for every mask |
| Ipv6Segments.AnySegmentsMatchPrefix | app/ssh/hostname-resolver.ts:181-203 | the same against any list of integers, taken modulo 65536 and filled up with zeros |
| Ipv6Segments.MatchSegments | app/ssh/hostname-resolver.ts:181-203 | the early-return loop answers whether all segments under the mask agree |
| Ipv6Cidr.Ipv6MatchesPrefix | app/ssh/hostname-resolver.ts:137-203 | for full and compressed texts in any letter case and masks 0 to 128 the matcher compares exactly the first bits of the 128-bit addresses |
| Ipv6Cidr.Ipv6NeedsMask | app/ssh/hostname-resolver.ts:153-165 | a subnet without a mask or with one beyond 128 matches no address |
| Ipv6Cidr.Ipv6MatchesText | app/ssh/hostname-resolver.ts:137-203 | any text as the subnet matches if and only if it has a mask of 0 to 128 and that many leading bits agree with the address its base is read as |
| Ipv6Cidr.ReadsAddress | app/ssh/hostname-resolver.ts:167-203 | a well-formed base is read as the address it writes |
| Ipv6Cidr.ReadsSegments | app/ssh/hostname-resolver.ts:167-179 | normalizing either textual form gives the eight segments it writes |
| Subnets.MatchesWildcard | app/ssh/hostname-resolver.ts:215-240 | the loop answers whether every octet is a star or the address's own |
| Subnets.IsIpInSubnets | app/ssh/hostname-resolver.ts:281-306 | the early-return loop answers whether the list is empty or some entry matches |
| Subnets.Ipv4AllowedIff | app/ssh/hostname-resolver.ts:208-306 | an IPv4 address passes a list of any texts if and only if the list is empty, a block holds it, an address is spelled the same, a pattern agrees octet by octet, or a malformed text is read as one of these |
| Subnets.Ipv6AllowedIff | app/ssh/hostname-resolver.ts:208-306 | the same for an IPv6 address, which no pattern admits |

## Left out

* Sockets, ssh2, SQLite, DNS, timers and promises themselves: they appear as events and parameters.
* Express routes, middleware, HTML injection, headers, theming, configuration defaults: one-branch checks.
* Schema and string-library validation; error-message classification and the translation of transfer errors into service errors.
* Path validation (app/services/sftp/path-validator.ts) rests on Node's `posix.normalize`.
* Session store and session service: the reducers they depend on.
* Syslog and stdout queues, and RFC 5424 value escaping.
* The SFTP byte-rate limiter: its verdict is ignored by `updateProgress`; rates, times and progress callbacks are not modelled.
* Addresses with an embedded IPv4 part (`::ffff:1.2.3.4`) as the address that is checked.
* Of `parseInt`, the skipping of blanks other than spaces, tabs and line ends, and the rounding of numerals beyond 2^53.
* Which text is an address at all (`isIP`): a parameter of `Subnets`.
* Floating-point rounding in the per-client limiter: tokens and times are real numbers.
* Regular expressions with the global flag, whose `test` remembers a position; decoding the buffer as UTF-8 before matching.
* The registration of the settle callback is taken as done before the first byte, as app/services/telnet/telnet-service.ts:215-226 does it.
* The decision tree before a host-key prompt, which has one effect per branch; the payloads of the socket events.
* Starting an upload (the open request and its timeout) and reusing a transfer's id while its writes are in flight; the acknowledgement's byte count and the timeout of a single write, which change no state.
* `cancelSessionTransfers`, `clear`, `getTransfer`, `verifyOwnership` of the transfer manager; `clear` of the pool; an exception from the client while disconnecting, which changes nothing.
* Cancelling, failing and `stderr` of a shell download; the shell upload's pipe.
- TelnetWire.WireQuiescesIffCalm: takes networks in which no peer whose name holds a 0xFF is asked for it, because such
  a name is sent unescaped and its bytes read back as other items (`TelnetNetwork.PeerAnswersBytes`); the property
  fails there (`TelnetWire.UnsafeNameNeverRests`).
* What a command does with a path that is one word: a word that starts with a dash is an option to `ls`. The shell's reader treats each operator character as a token and does not perform expansions.
* Parsing of `ls` output.
