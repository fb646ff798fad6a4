# rustdesk-cli: verified model of the wire stack, parsers and daemon

A Dafny model of the parts of the RustDesk command-line client whose correctness is hardest to see by reading:

- the wire stack: BytesCodec frames on a byte stream, sequence-number nonces and a symbolic cipher above them, and
  whole runs of both directions over pipes that may lose frames, or a network that copies and reorders them
  (`BytesCodec`, `SecureStream`, `LinkRuns`, `FaultyLink`);
- the batch parser behind `do` (`Batch`);
- remote execution: the sentinel search over arriving chunks, the transcript parser, the terminal and its service id
  (`Sentinel`, `ExecOutput`, `Terminals`);
- pushing a file: resume negotiation, blocks, byte accounting, progress (`Push`);
- the daemon loop with its reconnects and mode switches, and the client that reads its answers (`DaemonLoop`);
- the TCP punch-hole loop (`PunchHole`), base64 (`Base64`) and session dispatch (`SessionState`).

`Common` holds result types, byte strings and little-endian numbers. `dafny verify dfyconfig.toml` checks everything.

Code that changes state step by step is modelled by classes and methods with loops; each is proved against a function
or a direct property, and the theorems are lemmas about those. I/O, timing and scheduling appear as inputs: byte
streams, message lists that end where a wait times out, oracles for which attempts succeed, and event lists for the
loops. Functions such as `nat -> bool` among the inputs say which of the numbered attempts succeed.

The cipher is symbolic: every ciphertext byte names its key, nonce, plaintext and place, and a box opens only under
the key and nonce it was sealed with. That this is so is proved (`OpenSealed`, `OnlySealedOpens`), not assumed.

Several plausible claims are false of the code. For each there is a counterexample and the exact condition:

- a frame is read back exactly when its payload is at most 64 MiB, although the sender takes up to 2^30 - 1 bytes
  (`BytesCodec.ReadBack`, `SecureStream.OversizedLetterDesynchronises`);
- the scan gives the least sentinel exactly when every overlap of the marker with itself continues with a digit, which
  the markers of the program never satisfy (`Sentinel.ScanLeastIff`, `Sentinel.SourceMarkerOverlaps`);
- the exit code is final exactly when a non-digit follows its digits or they already overflow
  (`ExecOutput.ExitCodeSettledIff`); of a transcript that arrives in chunks it is right exactly when no chunk ends
  inside the digits (`ExecOutput.ExecAnswer`, `DaemonLoop.ExecEndToEnd`);
- the output survives exactly when only carriage returns follow its last newline
  (`ExecOutput.WholeOutputRecoveredIff`);
- the click branch finds the coordinates where the parser saw them, in steps with at most one `--double`, exactly when
  it does not stand before the second one (`Batch.CoordinatesAgreeIff`, `Batch.LeadingDoubleLosesX`); the condition
  for any number is in `Batch.PlacesAgreeIff`;
- re-encoding decoded base64 gives the text back exactly when it is canonical (`Base64.EncodesBackIff`);
- the messages `dispatch` returns, replayed on a desk, make the strokes the command means exactly when it is not a
  scroll by the least `i32` (`SessionState.AsMeantIff`, for whole runs `SessionState.RunAsMeantIff`);
- the decrypted messages of all runs of n sends are a prefix of those sent exactly when n is at most 2^64
  (`LinkRuns.PrefixHoldsIff`, `LinkRuns.CounterComesRound`), and over a network that copies and reorders exactly when no
  message arrives in its place after an arrival out of place (`FaultyLink.PrefixIff`);
- the two base64 decoders agree on more than well-padded text and not on all text (`Base64.DecodersAgreeIff`).

The comment at src/crypto.rs:172 speaks of the last successfully received frame; the code counts every frame, also one
that fails to decrypt, and the model follows the code (`SecureStream.EncryptedStream.Recv`).

## Model

| member | source | states |
|---|---|---|
| BytesCodec.HeaderCarriesLength | src/transport.rs:76-97 | at every length up to 2^30 - 1 the casts and shifts lose nothing: the first byte announces the header size, the header number divided by four is the length, and the size changes exactly at the three boundaries |
| BytesCodec.OrTag | src/transport.rs:76-94 | after the shift the low bits are free, so the `|` of the writers adds the tag at every length |
| BytesCodec.ReadBack | src/transport.rs:74-128 | a frame followed by anything is read back whole, leaving the rest, if and only if its payload is at most 64 MiB; above that only the header is consumed |
| BytesCodec.StrictPrefixIsPartial | src/transport.rs:101-128 | no strict prefix of a receivable frame reads as a frame |
| BytesCodec.StreamRoundTrip | src/transport.rs:74-128 | any list of receivable payloads written back to back is read back as that list, with the rest of the stream untouched |
| BytesCodec.FramesInjective | src/transport.rs:74-99 | different lists of payloads, of any size the writer takes, give different bytes |
| BytesCodec.FramedTransport.Send | src/transport.rs:74-99 | on a stream that breaks after any number of bytes: success exactly if the whole frame fits, and otherwise the front of the frame is left on the stream; a payload too large writes nothing |
| BytesCodec.FramedTransport.Recv | src/transport.rs:101-128 | on its four-byte buffer, the result and the unread rest are those of the frame reader, also at end of stream and over the limit |
| BytesCodec.BytescodecSend | src/rendezvous.rs:504-525 | the second copy of the writer, written out and proved against the same frames |
| BytesCodec.BytescodecRecv | src/rendezvous.rs:528-546 | the second copy of the reader, written out and proved against the same frame reader, so it reads what either writer wrote |
| SecureStream.OpenSealed | src/crypto.rs:143-170 | a box opens under exactly the key and nonce it was sealed with, and gives its plaintext |
| SecureStream.OnlySealedOpens | src/crypto.rs:158-170 | whatever opens was sealed under that key and nonce |
| SecureStream.NonceInjective | src/crypto.rs:136-140 | two 64-bit sequence numbers share a nonce only if they are equal |
| SecureStream.EncryptedStream.MakeNonce | src/crypto.rs:136-140 | of the 24 bytes, byte i < 8 is the digit of weight 256^i of the number, so that the first eight read as the number, and the other sixteen are zero |
| SecureStream.EncryptedStream.Send | src/crypto.rs:143-151 | the counter moves even if sending fails; what goes out is the sealed message of the new number, or the front of its frame if the stream breaks |
| SecureStream.EncryptedStream.SendHeartbeat | src/crypto.rs:154-156 | appends an empty frame and changes neither counter |
| SecureStream.EncryptedStream.Recv | src/crypto.rs:159-170 | result, counter and unread bytes are those of `Receive`; the time of last receipt moves on every frame, also one that fails to decrypt, and on nothing else |
| SecureStream.ReceiveLetter | src/crypto.rs:143-170 | a receivable message is delivered if and only if it carries the next expected number, and moves the counter either way |
| SecureStream.ReceiveHeartbeat | src/crypto.rs:154-163 | a heartbeat is read as empty and moves no counter |
| SecureStream.OversizedLetterDesynchronises | src/transport.rs:121-123 | a message the sender accepts and the receiver's limit excludes is never delivered, and leaves the reader inside its ciphertext |
| SecureStream.WrongKeyRefused | src/crypto.rs:166-169 | messages under another key are refused whatever their number |
| LinkRuns.RunKeepsInv | src/crypto.rs:143-170 | the ledger of numbers in flight, received, decrypted and lost balances after every run, and the wire holds exactly the frames in flight and at most one torn frame behind them |
| LinkRuns.TornIsPartial | src/transport.rs:74-128 | the front of a frame that a failed send left behind is never read as a frame |
| LinkRuns.InOrderDelivery | src/crypto.rs:143-170 | in every run without a lost message, of any length: the decrypted messages are a prefix of those sent, the rest is in flight in order, and the counters differ by exactly that rest; heartbeats change nothing |
| LinkRuns.PrefixDespiteLoss | src/crypto.rs:143-170 | after every run of at most 2^64 sends, with sends that fail after any part of their frame and with dropped frames: the decrypted messages are a prefix of those sent and end for good before the first lost one |
| LinkRuns.AcceptedIffNothingLostBefore | src/crypto.rs:143-170 | after every such run the next message is decrypted if and only if no earlier one was lost, and refused otherwise |
| LinkRuns.CounterComesRound | src/crypto.rs:144-164 | for every n above 2^64 there is a run of n sends, all but one of them of an oversized message, whose decrypted messages are no prefix of those sent |
| LinkRuns.PrefixHoldsIff | src/crypto.rs:143-170 | for every n, all runs of n sends decrypt a prefix of what was sent if and only if n is at most 2^64 |
| LinkRuns.DirectionsIndependent | src/crypto.rs:113-131 | after any interleaving each direction of the duplex run is where its own actions alone would have brought it |
| LinkRuns.DuplexSafety | src/crypto.rs:143-170 | safety of both directions after every interleaving |
| LinkRuns.Perform | src/crypto.rs:113-170 | two stream objects, each sending, beating and receiving over one transport under any interleaving, have exactly the counters, unread bytes and decrypted messages of the duplex run; so each side decrypts a prefix of the messages handed to the other |
| FaultyLink.DecryptsInPlace | src/crypto.rs:143-170 | over a network that copies and reorders at will, with at most 2^64 messages and arrivals, exactly the messages that arrive in their own place are decrypted: message n as the n-th encrypted frame |
| FaultyLink.InPlaceIff | src/crypto.rs:159-170 | a number is among them if and only if it is the number of encrypted arrivals up to it |
| FaultyLink.InPlaceIncreases | src/crypto.rs:159-170 | so the decrypted messages keep the order of sending, without repetition |
| FaultyLink.PrefixIff | src/crypto.rs:159-170 | they are a prefix of those sent if and only if no message arrives in its place after an arrival out of place |
| FaultyLink.SecondCopyAccepted | src/crypto.rs:159-170 | the prefix fails there: of two copies of the second message, the first is refused and the second accepted |
| FaultyLink.ReceiveAll | src/crypto.rs:159-170 | the stream object, receiving repeatedly, decrypts what these theorems speak of |
| Sentinel.FindSentinelOutput | src/daemon.rs:1411-1422 | the search loop terminates for every non-empty sentinel and gives the first hit of the non-overlapping left-to-right scan |
| Sentinel.ScanStable | src/daemon.rs:1411-1422 | once found, the sentinel is found at the same place whatever text follows |
| Sentinel.PrefixShowsSentinel | src/daemon.rs:1411-1422 | a prefix of a text shows the sentinel exactly when it reaches past the marker to the digit, at the same place |
| Sentinel.ChunkingIrrelevant | src/daemon.rs:1319-1336 | however a text is cut into chunks, the collected text is a prefix of it with the sentinel at the same place, or everything if there is none |
| Sentinel.TakenJoins | src/daemon.rs:1328-1336 | the chunks taken are exactly the collected text |
| Sentinel.CollectedReachesIff | src/daemon.rs:1328-1336 | the collected text reaches d characters past the sentinel if and only if no chunk ends inside these |
| Sentinel.ScanLeastIff | src/main.rs:1652-1663 | the scan gives the least hit on every text if and only if every self-overlap of the marker continues with a digit |
| Sentinel.SourceMarkerOverlaps | src/daemon.rs:1260 | no sentinel of the program meets that condition, so for each some text hides its least hit |
| ExecOutput.DecimalDenotes | src/daemon.rs:1442-1443 | reading a number's digits gives the number back |
| ExecOutput.ExitCodeOf | src/daemon.rs:1436-1444 | the exit code is the number of the digits behind the sentinel, or -1 if it exceeds 32 bits or there is no sentinel |
| ExecOutput.ExitCodeSettledIff | src/daemon.rs:1434-1444 | the parsed exit code is the same under every extension if and only if a non-digit follows the digits or they exceed 32 bits |
| ExecOutput.DigitsSettledIff | src/daemon.rs:1442-1443 | the same for the digits alone |
| ExecOutput.ParseTranscript | src/daemon.rs:1434-1469 | on a transcript of which at least one exit digit has arrived, the parser finds the printed marker behind the echoed one, keeps the complete output lines, and reads the digits that arrived |
| ExecOutput.TranscriptInverted | src/daemon.rs:1434-1469 | on every complete transcript: exactly the complete output lines without final line breaks, and exactly the exit code |
| ExecOutput.WithoutEcho | src/daemon.rs:1446-1463 | where nothing is echoed the output is taken from the start of the text |
| ExecOutput.OutputKeptIff | src/daemon.rs:1454-1463 | dropping the incomplete last line loses nothing if and only if it consists of carriage returns |
| ExecOutput.WholeOutputRecoveredIff | src/daemon.rs:1434-1469 | for every output that does not show the sentinel, also one that runs into it: output and exit code are both recovered if and only if only carriage returns follow the last newline |
| ExecOutput.UnfinishedLineLost | src/daemon.rs:1453-1463 | an unfinished last line is lost wherever the sentinel is taken to be: the text kept is too short or too long |
| ExecOutput.NewlineTerminatedRecovered | src/daemon.rs:1310-1311 | for a command and output free of the sentinel, output empty or ending in a newline, any code and prompt: exact recovery |
| ExecOutput.CompleteLinesClean | src/daemon.rs:1310-1311 | sentinel-free output that ends in a line break cannot form the sentinel together with the text after it |
| ExecOutput.ExecAnswer | src/daemon.rs:1319-1336 | for any chunking: the complete lines, and the right code if and only if no chunk ends inside its digits |
| ExecOutput.SourceMarker | src/daemon.rs:1260 | the program's sentinels have the shape the transcript theorems ask for |
| Batch.ParseBatchSteps | src/main.rs:2316-2422 | the outer loop terminates without out-of-range access and computes the specified parse, errors included |
| Batch.VerbsExactly | src/main.rs:2535-2553 | the verbs are exactly fourteen, and any other first token is refused |
| Batch.FixedVerbTakes | src/main.rs:2327-2382 | drag takes exactly four tokens, scroll three, move two, type one, and disconnect, status, displays and shell none, whatever the tokens are; fewer are refused |
| Batch.FlagVerbTakes | src/main.rs:2383-2417 | which flags of connect, exec, key and capture take a value, how many positionals each needs and which flag is required: any such items up to the next verb are one step |
| Batch.FlagVerbRefuses | src/main.rs:2494-2533 | an unknown flag, or a flag without its value, is refused with that error |
| Batch.FlagVerbNeeds | src/main.rs:2383-2417 | too few positionals, or the absence of the required flag, is refused with that error |
| Batch.ClickTakes | src/main.rs:2424-2468 | a click takes two or more positionals, `--button` with a value and `--double` alone, up to the next verb |
| Batch.ClickRefuses | src/main.rs:2424-2468 | another flag, `--button` without a value, and fewer than two positionals are refused |
| Batch.ClipboardTakes | src/main.rs:2470-2492 | `get` takes nothing more, `set` takes and needs `--text` with a value, any other action or none is refused |
| Batch.ParseClickStep | src/main.rs:2424-2468 | the click loop takes exactly the tokens its grammar takes, both break tests included |
| Batch.ParseClipboardStep | src/main.rs:2470-2492 | the same for clipboard steps |
| Batch.ParseFlaggedStep | src/main.rs:2494-2533 | the same for steps with value flags and required positionals |
| Batch.ParseExact | src/main.rs:2316-2553 | parsing gives `steps` if and only if they are grammatical and their verbs and arguments, in order, are exactly the tokens: lossless, unambiguous, every verb known |
| Batch.ParseComposes | src/main.rs:2316-2422 | if `a` parses and `b` is empty or starts with a verb, `a ++ b` gives the steps of `a` and then those of `b`, or the error of `b` |
| Batch.UnfinishedStepSwallowsVerb | src/main.rs:2316-2422 | the condition on `a` is needed: an unfinished step takes the next verb as its argument |
| Batch.PositionalArgs | src/main.rs:2584-2603 | the walk returns the tokens in the places where it counts no flag and no flag value |
| Batch.RolesAgreeIff | src/main.rs:2584-2603 | on every parsed click step, parser and walk agree on every token's role if and only if `--double` is absent or last |
| Batch.CoordinatesKept | src/main.rs:2240-2248 | in every click step without `--double` before its second coordinate, whatever follows, the two coordinates the click branch reads are the first two the parser saw |
| Batch.CoordinatesAgreeIff | src/main.rs:2240-2248 | in a click step with at most one `--double`, both coordinates are read from the right places if and only if it does not stand before the second |
| Batch.PlacesAgreeIff | src/main.rs:2424-2468 | for any number of `--double`s: the places agree if and only if those before the second coordinate come in pairs with nothing but `--button`s of dashed values inside a pair |
| Batch.LeadingDoubleLosesX | src/main.rs:2584-2603 | every click with `--double` first loses its x coordinate |
| Base64.Base64Encode | src/capture.rs:159-186 | the chunk loop gives the encoding, of length 4 * ceil(n / 3) |
| Base64.EncodedLength | src/capture.rs:159-186 | every encoding has length 4 * ceil(n / 3) |
| Base64.EncodedAt | src/capture.rs:159-186 | every character of an encoding by position: the letter, by ASCII code, for those six bits of the group's 24-bit number, or padding where bytes are missing |
| Base64.EncodeChunk | src/capture.rs:164-183 | shifts, masks and `|` give the four characters of a group |
| Base64.CaptureDecode | src/capture.rs:188-227 | the group loop decodes groups in order and reports the first error |
| Base64.DecodeFour | src/capture.rs:206-224 | counting trailing padding and building the number by `|` decodes one group, with the first error in reading order |
| Base64.ConnectionDecode | src/connection.rs:549-581 | the strip-padding loops decode the groups of the stripped text, a short last group giving fewer bytes |
| Base64.DecodeChunk | src/connection.rs:566-578 | OR-ing shifted values into the buffer, whose bits are disjoint, and cutting it into bytes decodes one group |
| Base64.OrIsSum | src/capture.rs:213-216 | wherever the codecs use `|`, the bits are disjoint, so it adds |
| Base64.RoundTrip | src/capture.rs:159-227 | decoding an encoding gives the bytes back |
| Base64.EncodesBackIff | src/capture.rs:188-227 | a text decodes and encodes back to itself if and only if it is canonical |
| Base64.InnerPaddingAccepted | src/capture.rs:207-211 | padding in an inner group is accepted and is not canonical |
| Base64.DecodersAgree | src/connection.rs:549-581 | both decoders give the same result, errors included, on every text padded only at its end to a multiple of four |
| Base64.DecodersAgreeIff | src/connection.rs:549-581 | the decoders agree, on results and errors, if and only if the length is a multiple of four and either only at most two final padding characters are outside the alphabet, or the first bad character before the final padding is also the first that is not padding in the last two places of a group |
| Base64.BothDecodersInvert | src/connection.rs:549-581 | both decoders invert the encoder on all byte strings |
| PunchHole.PunchHoleViaTcp | src/rendezvous.rs:196-285 | on every inbound trace: exactly one of plain and encrypted transport is held at the loop head, the answer is that of a scan of the trace, the request goes out once in plain and once more encrypted exactly when a key exchange was answered, one read per event, and plain is never used after the switch, whose reply is the last plain use and whose repeated request is the first encrypted one |
| PunchHole.AnswerUnique | src/rendezvous.rs:216-283 | the trace determines where the wait ends and what the answer is |
| Push.RecvFileEvent | src/file_transfer.rs:408-448 | reads up to the first event of this job, echoing the test delays before it in order; fails only on a fatal message, at the end, or when an echo cannot be sent |
| Push.ReadOneByOne | src/file_transfer.rs:412-446 | message by message: what fails the wait, what ends it, what is echoed and what is passed over |
| Push.Negotiate | src/file_transfer.rs:116-154 | the first message to settle the negotiation determines offset and skipping; the 32-bit offset confirmed after a digest is the offset resumed from; with working sends it fails only if nothing settles it |
| Push.ResumesAt | src/file_transfer.rs:123-150 | an identical digest resumes at the least of what was transferred, the size and 2^32 - 1, another digest at the start, an offset at the least of it and the size, a skip at the end |
| Push.HoldsWhatIsResumed | src/file_transfer.rs:388-406 | a peer with any copy that is truthful about it begins with exactly the part of the file the push resumes from, and with a skip has the file |
| Push.SentTheRest | src/file_transfer.rs:199-240 | a push that completes the file from an offset sent exactly the rest of it |
| Push.Begin | src/file_transfer.rs:64-176 | the request and the local digest go out first and no block or completion does; the file position, the sent count and the agreed offset coincide |
| Push.CompressChunk | src/file_transfer.rs:320-327 | the peer unpacks either form to the chunk, and the form sent is never longer |
| Push.PushTransfer.SendNextBlock | src/file_transfer.rs:199-240 | for any short read, the block unpacks to exactly the next part of the file; the accounting invariant survives every outcome, failures included |
| Push.PushTransfer.WaitForDone | src/file_transfer.rs:242-270 | a skipped file sends nothing; otherwise Done goes out, and with working sends it fails exactly when the peer's next event is an error |
| Push.SendBlocks | src/daemon.rs:868-879 | between blocks the peer holds exactly the part of the file sent and less than 1 MiB is unreported; at the end it holds the whole file and the last report says so |
| Push.PushFile | src/daemon.rs:855-900 | a peer with the first `resumed` bytes ends with the whole file, Done being last; on failure it holds a prefix; a skipped push sends no block and no Done; in a healthy environment it succeeds if and only if the peer's messages allow it |
| Push.FewReports | src/daemon.rs:868-879 | at most 2 + (total - resumed) / 1 MiB progress reports |
| Push.StoredBehind | src/file_transfer.rs:199-240 | messages before the blocks do not affect what the peer stores |
| SessionState.Session.Dispatch | src/session.rs:140-459 | the loops emit the specified messages; a failed command changes no field and emits nothing |
| SessionState.FieldsAfter | src/session.rs:151-185 | which commands fail in which state, and that only connect and disconnect change the fields, and how |
| SessionState.ReturnedMessages | src/session.rs:269-410 | the messages of each command one by one, with the masks of the buttons and of both scroll directions as numbers |
| SessionState.CommandSeen | src/session.rs:269-410 | the messages `dispatch` returns for a command, replayed on a desk at rest, leave no key down and no button held, having pressed exactly the keys and made exactly the strokes meant, in order |
| SessionState.AsMeantIff | src/session.rs:370-396 | the messages returned make the strokes meant if and only if the command is not a scroll by the least 32-bit number |
| SessionState.RunSeen | src/session.rs:149-459 | after every run the messages returned, replayed on a desk, leave it at rest with exactly what the commands that did not fail meant, in order, scrolls by the least 32-bit number left out |
| SessionState.RunAsMeantIff | src/session.rs:149-459 | the messages of a run make exactly the strokes its accepted commands mean if and only if none of these is a scroll by the least 32-bit number |
| SessionState.ConfigStored | src/session.rs:141-185 | after every run from a new session it is connected exactly while a configuration is stored, namely that of the first connect since the last disconnect |
| SessionState.OpensUnique | src/session.rs:151-185 | that connect is unique |
| Terminals.CollectOutput | src/daemon.rs:1319-1374 | the collection loop stops where the sentinel is complete, at the deadline, or at the first reading that is no data; every chunk is written to the client before it counts |
| Terminals.ExecCommandInner | src/daemon.rs:1248-1388 | the outcome of an exec, and the service id: none after a success, the old one if nothing was opened, the new one exactly after a failed drain, send or chunk write |
| Terminals.ExecDelivers | src/daemon.rs:1248-1388 | from terminal to reply for any chunking: complete lines, no timeout, the right code if and only if no chunk ends inside its digits, and the client shown exactly the parsed text |
| Terminals.ExecClosed | src/daemon.rs:1337-1352 | a terminal that closes before the sentinel: its exit code, no timeout, the text so far without the white space at its ends, no service id |
| Terminals.ExecTimedOut | src/daemon.rs:1319-1388 | the deadline before the sentinel: a timeout, the code -1, the text so far without the white space at its ends, no service id |
| Terminals.ExecFails | src/daemon.rs:1353-1369 | a terminal error or a receive error after the command was sent: the error of that phase, no service id |
| Terminals.ExecNotWritten | src/daemon.rs:1328-1330 | a chunk the client does not take: a failure that leaves the service id |
| Terminals.ExecEndsInDrain | src/daemon.rs:1275-1305 | during the drain: a close keeps its code with no text, a terminal error clears the service id, a receive error leaves it |
| Terminals.ExecNotStarted | src/daemon.rs:1262-1311 | a terminal that does not open leaves the old service id and a timeout counts as a lost connection; a command that cannot be sent leaves the new id |
| Terminals.ShellSession | src/daemon.rs:1536-1648 | the loop ends as its first ending event says; a success leaves no service id, a failure after opening leaves the new one, a failure to open the old one |
| Terminals.ShellEndsWellIff | src/daemon.rs:1602-1645 | the shell ends well if and only if what ends it is the end of lines or of the terminal, and otherwise the failure reads like a lost connection exactly if that of the ending event does |
| DaemonLoop.ReconnectWithRetryBackoffs | src/daemon.rs:939-964 | at most one announced attempt per backoff, stopping at the first success; a failure carries the last error |
| DaemonLoop.InitializeStreamForMode | src/daemon.rs:1017-1026 | in default mode the option message, the display capture and the video refresh, in this order, in terminal mode nothing; success if and only if all were sent |
| DaemonLoop.ReconnectEncryptedStream | src/daemon.rs:966-1014 | gives a stream opened and set up for the mode, naming the stored service in terminal mode, exactly when some attempt in time connects and the setup is sent; otherwise the session is untouched |
| DaemonLoop.RunOnce | src/daemon.rs:806-853 | only an exec touches the daemon's service id, only session commands touch the session |
| DaemonLoop.PushOnce | src/daemon.rs:855-900 | one run of the push protocol to a peer with any copy: after a success the blocks were exactly the file from the offset the digest allows, and a truthful peer has exactly the file |
| DaemonLoop.ServePush | src/daemon.rs:606-662 | a push served with its retry performs the acts of the state machine; if the client is told of success, at once or after the reconnect, a peer that was truthful in the last round has exactly the file, whatever its copy was |
| DaemonLoop.ActsServed | src/daemon.rs:523-766 | every request that was read and is not for a shell gets exactly one final response, after all other lines; it is run at most twice, the second time right after a reconnect that got through, with at most one attempt per backoff |
| DaemonLoop.AnsweredAs | src/daemon.rs:806-853 | which final response and lines each kind of request gets from a run that does not lose the connection |
| DaemonLoop.AnsweredAfterRetry | src/daemon.rs:606-766 | after a lost connection the response is that of the second run, or a failure if the reconnect does not get through |
| DaemonLoop.ServingFits | src/daemon.rs:570-766 | serving a request keeps the loop invariant unless the daemon ends; an exec that succeeds, at once or after the reconnect, and a successful shell leave no service id |
| DaemonLoop.NextHeadFits | src/daemon.rs:434-784 | every event, from every state that satisfies the invariant, leads to one that does or ends the daemon |
| DaemonLoop.EveryHeadFits | src/daemon.rs:410-784 | on every run, at every loop head: session connected under its configuration, stream opened and set up for the active mode, service id only in terminal mode |
| DaemonLoop.TurnsExactly | src/daemon.rs:434-784 | every turn, event by event: the stream is replaced exactly for a failed peer, an unsent heartbeat, an expired keepalive, a needed mode switch or a connection lost while serving, each time the reconnect gets through; the loop ends exactly on a closing peer, the idle timeout, a signal, a disconnect, or a failed reconnect that was no mode switch |
| DaemonLoop.Daemon.Reconnect | src/daemon.rs:453-474 | replaces the stream in the active mode, naming the stored service, or ends the daemon with everything else as it was |
| DaemonLoop.Daemon.SwitchMode | src/daemon.rs:546-568 | leaving terminal mode drops the service id; a failed switch leaves everything else as it was and the daemon running |
| DaemonLoop.Daemon.ServeShell | src/daemon.rs:570-604 | the object moves as the state machine does |
| DaemonLoop.Daemon.ServeCommand | src/daemon.rs:606-766 | the same for commands, with exactly the specified acts; it ends only on disconnect or when the retry's reconnect fails |
| DaemonLoop.Daemon.HandleRequest | src/daemon.rs:523-766 | one request, mode switch included: the acts and the state are those specified, and the client is well served |
| DaemonLoop.Daemon.Step | src/daemon.rs:434-784 | one turn refines the state machine, replaces the stream and ends exactly when those events say, and exactly accepted requests are served |
| DaemonLoop.Daemon.Run | src/daemon.rs:410-784 | on every run, from head to head: the invariant holds, the serial number of the stream moves exactly with the reconnects that had to happen and got through, the loop stops exactly at the first event that ends it, and all accepted requests are served, in order |
| DaemonLoop.Start | src/daemon.rs:327-390 | a daemon starts, with the invariant, exactly when the one connection attempt and the setup succeed |
| DaemonLoop.ReceiveStreaming | src/main.rs:1431-1448 | the client answers with the last non-blank line, and fails if and only if a line cannot be read or none holds a response |
| DaemonLoop.LastLineIsFinal | src/main.rs:1431-1448 | if all writes succeed, that line is the daemon's final response |
| DaemonLoop.ExecEndToEnd | src/daemon.rs:546-717 | from the remote shell to the client's last line, for any chunking, with or without a switch to terminal mode first: the complete output lines, the exit code if and only if no chunk ends inside its digits, and before that the parsed text, chunk by chunk |

## Left out

- Real cryptography, key exchange and key verification, replaced by the symbolic cipher and by outcomes of the exchange.
- zstd (kept as a pair with a round-trip law), protobuf, JSON, images: formats are not modelled.
- Sockets, scheduling, cancellation, clocks and signals: reads and writes are atomic, and time appears only as list ends and events. That `recv` is not cancellation-safe is not captured.
- Debug builds, in which counter overflow and the absolute value of the least `i32` panic; the wrapping of release builds is modelled.
- UTF-8: terminal text is a sequence of characters. Trimming knows ASCII white space only.
- Base64.CaptureDecode: counts characters where the source counts UTF-8 bytes, so on text that is not ASCII, which no decoder accepts, the kind of error may differ; the same holds of Base64.ConnectionDecode.
- What becomes of the messages `dispatch` returns: its one caller in the daemon (src/daemon.rs:849) discards them, so no key or mouse event reaches the peer. `SessionState` speaks of the messages only.
- In the daemon's state machine a push is its outcome and number of progress lines; `DaemonLoop.ServePush` runs the protocol and shows that its acts are the machine's.
- A network that changes frames or sends a side its own frames back.
- The text of error messages: an error carries only whether it reads like a lost connection.
- The echo of test delays in the daemon's idle loop, the lock file, the graceful shutdown and its errors.
- Remote path parsing, the second output parser in `src/main.rs`, CLI definitions, response formatting and the stubbed `do` outputs: easy, or placeholders.
- `src/permissions.rs`, `src/terminal.rs`, `src/text_session.rs`: prompts, wrappers or duplicates of the loops above.
- The socket protocol of `DESIGN_UDS_PROTOCOL.md`, which the code does not implement.
- Sentinel.FindSentinelOutput: requires a non-empty sentinel, because the loop of the source does not terminate on an empty one; the program never makes one.
- LinkRuns.PrefixDespiteLoss: covers messages within the receiver's limit; what a larger one does is stated by SecureStream.OversizedLetterDesynchronises. A receiver behind a torn frame waits; that its read fails once the connection is closed is not part of a run.
- Push.PushFile: for a file that does not change during the push.
- DaemonLoop.LastLineIsFinal: assumes that every write to the client succeeds.
