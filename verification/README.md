# Dream, verified

Dream is an agent harness. This project models the parts of it that hold real state: the helper process that counts
tokens and the protocol spoken with it, the content-addressed undo store, the bounded inspection journal, the streaming
SHA-256 and the bounded line reader of the native helper, the computer tool's observation tokens, pointer plans and
process walk, the council projection, and the preset editor. `dafny verify dfyconfig.toml` checks all of it.

| file | models | main results |
|---|---|---|
| `Sha256Spec.dfy`, `Sha256.dfy` | `Sha256` of `scripts/context_tokenizer_counter.cpp` | the digest updated in place equals FIPS 180-4 for every split of the message; the byte padding is section 5.1.1's, bit for bit |
| `Sha256Constants.dfy`, `Sha256Vector.dfy` | its constants and one digest | the constants are the roots of the first primes; the digest of "abc" is the standard's |
| `LineReader.dfy` | `Lines` of the same file | every way of cutting the input gives the same lines and the same verdict |
| `HelperWire.dfy` | `_send`, `_recv_line`, `_parse_count`, `_Session.count` | no byte is lost, a count is this request's own answer, a fault is final |
| `SessionClose.dfy` | `_Session.close` against `count`, thread by thread | a close is neither lost nor early |
| `HelperLifecycle.dfy`, `HelperSafety.dfy`, `HelperCounter.dfy` | `GgufHelperCounter` | over every run: one live helper at most, always owned, run from the very files wanted; only current sessions answer |
| `HelperAnswers.dfy` | its answers | which captures and looks are served, which are refused and why, and when a helper is started |
| `HelperShutdown.dfy` | the counter and its sessions together | every session dropped is shut, once, when no thread is inside its calls |
| `Common.dfy` | what the modules share | |
| `CheckpointIds.dfy`, `Checkpoints.dfy`, `CheckpointStore.dfy` | `CheckpointStore` | what restore gives back and what it leaves alone, and that its report is true; the store is consistent after every file operation |
| `JsonWeight.dfy`, `Journal.dfy`, `ComponentSelection.dfy` | `_weigh`, `_Work`, `Journal`, `spans_of`, `_units`, `_components` | the early-stopping walk decides the recursive weight; the journal's bounds; exact accounting of what is stored |
| `PacedPlan.dfy` | `Computer._paced_plan` | every point and time of the plan: short, quick steps through every vertex; refused only when no subdivision fits |
| `ProcessTree.dfy` | `_descendants` | exactly the processes below, whatever the parent links |
| `ObservationTokens.dfy`, `InputRelease.dfy` | `Computer.open`, `_observe`, `act`, `close`, `_browser_action` | exactly which actions go out, and one for an observation at most; what is pressed is released |
| `CouncilProjection.dfy` | `council_context.project` | what is projected fits and says what the records say, nothing vanishes without a notice |
| `Presets.dfy` | `presets.edit`, `set_active` | names stay apart, the choice stays meaningful, stale edits change nothing |

Objects whose methods update their fields are classes here, proved against functions and predicates on values; the laws
are proved about those. Locks become atomic steps (`SessionClose`, `HelperLifecycle`) or the assumption that a method
runs alone (`HelperWire.Session`, `ObservationTokens.Computer`). What the environment does (bytes that arrive, processes
that exit, reads that fail, the clock) is a parameter or a step of its own.

## What the proofs found

The code is modelled as it is. Where it does not do what its comments or documentation say, the exact condition is
proved, and a concrete failing input is given where one helps:

- `_Session.dead` is tested and written in two steps, so the first reason can be replaced by a racing one
  (`ReasonCanBeReplaced`). However a run goes on, the reason stays if and only if no thread is about to write another
  (`ReasonStaysExactly`), and such a thread read that there was none before any was written (`WriterReadNone`). The
  session stays dead either way.
- `restore` compares contents only: a change of mode alone is reported as unchanged and stays
  (the last clause of `UndoRestoresContents`; `ModeChangeStays` is an instance).
- Without `force`, a file is left as it was edited after the seal if and only if it has become no file, has its contents
  of take, or differs from the sealed state in what is compared (`LaterEditKept`). So an edit of the mode alone is
  overwritten (`ModeEditIsOverwritten`), and, all contents past `max_bytes` being the one token `OVERSIZE`, so is an edit with the sealed file and
  the edited one both past the limit: of edits to the contents exactly those (`LaterContentsKept`).
- Restoring `x` passes through `.x.dream-restore`. A user's own file of that name is lost exactly when `x` is put back
  from the store (`StagingNameLost`; `StagingNameIsLost` is an instance), and a recorded file of that name ends as
  whichever of the two entries comes second leaves it (`RestoreStagedPath`).
- `Journal.add` under an id already there answers true exactly when the reduced record fits its own bound and, with the
  records newer than its old place, the session's (`KnownIsKept`, `Add`; `KnownMayGo` is an instance that fails). For a
  fresh id only the record's own bound counts.
- The five seconds `_release_input` allows are for all keys of a chord together: every attempted press has its release
  attempted exactly when no release but the last hangs (`EveryPressHasARelease`; `HungReleaseLeavesKeys` is a chord where
  one does), and no key stays down exactly when
  each has a release of its own accepted (`NothingStaysHeld`), which is so whenever no failed release is reported
  (`PressKeys`). A pointer button always gets its one release attempt.
- A close that lands between a count's test of `dead` and its first byte does not stop that request
  (`SentAfterDeath`); nothing else is sent on a dead session (`DeadStartsNothing`).
- `Sha256::hex` leaves the padding in its state: a second call digests one block more, and what it digests is the
  padding of no message (`Digest.Hex`, `SecondCallIsOff`).

## Model

| member | source | states |
|---|---|---|
| `Sha256Spec.PadIsStandard` | scripts/context_tokenizer_counter.cpp:117-126 | for messages under 2^61 bytes the bytes appended are, bit for bit, section 5.1.1's padding: a one, the fewest zero bits that solve l + 1 + k = 448 mod 512, the 64-bit length |
| `Sha256Spec.BitsOfLength` | scripts/context_tokenizer_counter.cpp:123-125 | the eight length bytes spell the 64-bit big-endian number of bits |
| `Sha256Spec.WholeBlocks` | scripts/context_tokenizer_counter.cpp:121-125 | message and trailer together are whole 64-byte blocks |
| `Sha256Constants.FirstPrimes` | scripts/context_tokenizer_counter.cpp:75-83 | the numbers the roots are taken of are the first sixty-four primes: all the primes up to 311, in order |
| `Sha256Constants.RoundConstantsAreCubeRoots` | scripts/context_tokenizer_counter.cpp:75-83 | each of the sixty-four round constants is the first 32 bits of the fractional part of the cube root of its prime |
| `Sha256Constants.InitialIsSquareRoots` | scripts/context_tokenizer_counter.cpp:66-67 | each word of the initial hash value is the first 32 bits of the fractional part of the square root of its prime |
| `Sha256Vector.DigestOfAbc` | scripts/context_tokenizer_counter.cpp:74-134 | worked out through all 48 computed schedule words and all 64 rounds, the digest of "abc" is the standard's |
| `Sha256.Digest.constructor` | scripts/context_tokenizer_counter.cpp:65-70 | the initial state is the standard's initial hash value over nothing seen |
| `Sha256.Digest.Expand` | scripts/context_tokenizer_counter.cpp:84-93 | the array filled by two rules is the standard's message schedule |
| `Sha256.Digest.Compress` | scripts/context_tokenizer_counter.cpp:74-105 | the sixty-four rounds in eight variables are the standard's step on the chaining value, which has the standard's constants and gives the known digest |
| `Sha256.Digest.Absorb` | scripts/context_tokenizer_counter.cpp:109-114 | one turn of the loop extends what was seen, compressing exactly when the block is full |
| `Sha256.Digest.Update` | scripts/context_tokenizer_counter.cpp:107-115 | the state stays the fold of the compression over the whole blocks seen with fewer than 64 bytes waiting; the counter wraps at 2^64 |
| `Sha256.Digest.PadZeros` | scripts/context_tokenizer_counter.cpp:122 | the loop stops, after exactly the zero bytes the padding calls for |
| `Sha256.Digest.Hex` | scripts/context_tokenizer_counter.cpp:117-134 | closes what was seen with padding and the counter's length and returns its hash in hexadecimal, from any state; when the counter is that of what was seen, that is the standard's digest |
| `Sha256.SecondCallIsOff` | scripts/context_tokenizer_counter.cpp:117-134 | a second call hashes one block more than the first, and what it hashes is the padding of no message |
| `Sha256.HashPieces` | scripts/context_tokenizer_counter.cpp:107-134 | any pieces give the FIPS 180-4 digest of their concatenation |
| `Sha256.TrailerWraps` | scripts/context_tokenizer_counter.cpp:118-120 | the wrapped counter yields the same trailer as the true length |
| `LineReader.ParseIsExact` | scripts/context_tokenizer_counter.cpp:235-270 | the reference reader yields exactly the newline-separated lines within the limit, and its verdict is about what is left |
| `LineReader.ParseJoined` | scripts/context_tokenizer_counter.cpp:235-270 | any list of lines within the limit, joined, is read back as itself |
| `LineReader.Lines.Next` | scripts/context_tokenizer_counter.cpp:239-264 | returns the next line of the bytes still to come or their verdict, however the reads cut them; the buffer stays within the limit and one chunk and the remembered scan position never passes a newline |
| `LineReader.ReadAll` | scripts/context_tokenizer_counter.cpp:235-270 | all lines and the final verdict depend only on the bytes that arrived and on whether a read failed |
| `HelperWire.RecvLine` | dream/core/context_counter.py:160-186 | line, newline and left-over buffer equal old buffer plus bytes read; reads go on exactly while no line is complete within the limit, and what that comes to is the one thing it can (`ReceivedOnce`); the buffer is bounded |
| `HelperWire.ReceivedOnce` | dream/core/context_counter.py:160-186 | for any events exactly one outcome and one number of reads meet that description |
| `HelperWire.Send` | dream/core/context_counter.py:142-157 | what the pipe took is the sum of what each write took, a prefix of the request, and all of it exactly when the send succeeds; no write after that |
| `HelperWire.WrittenNext` | dream/core/context_counter.py:148-157 | each write takes what the pipe took, at most the 65536 bytes offered, or the last of them |
| `HelperWire.TakenOnce` | dream/core/context_counter.py:142-157 | for any events sending has exactly one outcome, after one number of events |
| `HelperWire.StopsTells` | dream/core/context_counter.py:142-186 | which event stops an exchange, and under which reason |
| `HelperWire.CountIsBelieved` | dream/core/context_counter.py:278-293 | a count is accepted if and only if the message is, field for field, the answer to this id and token with a number this text could have |
| `HelperWire.RefusalIsBelieved` | dream/core/context_counter.py:294-301 | a refusal is accepted if and only if it is the exact refusal message with one of the four listed reasons, and told by its own name |
| `HelperWire.OthersBreak` | dream/core/context_counter.py:278-301 | every other message breaks the session: a fatal one as a failed helper, whatever request it came for, the rest as no answer |
| `HelperWire.ExchangedOnce` | dream/core/context_counter.py:367-377 | for any request and pipe exactly one outcome of the whole exchange meets its description |
| `HelperWire.Session.Fail` | dream/core/context_counter.py:334-337 | marks the session dead with the first reason and closes its pipes |
| `HelperWire.Session.Exchange` | dream/core/context_counter.py:367-377 | nothing may wait before the request; then it is sent, then one line comes back and nothing behind it: that, and the first thing that goes wrong, decide the outcome; an answer means the pipe took the whole request |
| `HelperWire.Session.Count` | dream/core/context_counter.py:351-395 | ids strictly increase; the exchange decides the answer exactly: a number, a stated refusal or the fault that leaves the session dead and closed; a dead session asks nothing |
| `SessionClose.RunKeepsInv` | dream/core/context_counter.py:329-395 | every reachable state of any number of threads in close and count satisfies the lock, position and closure invariants |
| `SessionClose.ShutOnceAndAlone` | dream/core/context_counter.py:329-349 | the pipes are shut at most once and never while a thread is past the test of dead and not done |
| `SessionClose.CloseIsNotLost` | dream/core/context_counter.py:339-349 | with no thread inside a call, a close that was asked for has happened and the session is dead |
| `SessionClose.DeadIsForever` | dream/core/context_counter.py:334-347 | dead, pending and closed never go back |
| `SessionClose.DeadStartsNothing` | dream/core/context_counter.py:351-395 | once the session is dead only a thread that was already past the test of dead talks to the helper, it has been past it ever since, and there is at most one |
| `SessionClose.SentAfterDeath` | dream/core/context_counter.py:357-374 | a run in which a close lands between the test and the first byte, and the request is still sent |
| `SessionClose.DeadKept` | dream/core/context_counter.py:329-349 | a dead session that is neither pending nor closed always has a thread on its way to shutting it |
| `SessionClose.DoomedStays` | dream/core/context_counter.py:334-349 | a session that is dead, or has a thread that will mark it so, never ceases to be one |
| `SessionClose.DoomedIsShut` | dream/core/context_counter.py:329-395 | such a session, with no thread inside a call, is dead and its pipes are shut, once |
| `SessionClose.ReasonCanBeReplaced` | dream/core/context_counter.py:334-343 | a run in which the second of two racing reasons replaces the first |
| `SessionClose.ReasonReplacedOnlyByRacer` | dream/core/context_counter.py:334-343 | over any run, a reason is replaced only by a thread that read that there was none while there was none, and has been about to write its own since |
| `SessionClose.WriterReadNone` | dream/core/context_counter.py:334-343 | a thread about to write a reason read that there was none in an earlier step of the run |
| `SessionClose.SettledStays` | dream/core/context_counter.py:334-395 | once dead with no thread about to write another reason, the reason is the same in every later state |
| `SessionClose.RacerReplaces` | dream/core/context_counter.py:334-343 | a thread about to write another reason can replace it in the next step |
| `SessionClose.ReasonStaysExactly` | dream/core/context_counter.py:334-395 | every continuation of a run keeps the reason if and only if no thread is about to write another |
| `HelperSafety.OneHelperNeverLost` | dream/core/context_counter.py:466-627 | in every reachable state at most one helper is alive, and it is the session's, a retired one or the running starter's |
| `HelperSafety.PublishedIsCurrent` | dream/core/context_counter.py:519-627 | a published session is of the current epoch, configuration and file identities, and the files its process was run from and given, which may be written at any moment, had those very identities then |
| `HelperSafety.CountsAreCurrent` | dream/core/context_counter.py:666-702 | a count, remembered or fresh, is returned only while its session is current and alive, and it is that session's answer for that text |
| `HelperSafety.CacheIsBounded` | dream/core/context_counter.py:698-701 | the cache never passes its bound and is empty without a session |
| `HelperSafety.ResetReport` | dream/core/context_counter.py:647-662 | reset reports at most one helper left, and zero exactly when nothing but the session's own is alive or being born |
| `HelperSafety.StartOnlyWhenAlone` | dream/core/context_counter.py:484-498 | a start is ordered only when no helper is alive |
| `HelperSafety.CaptureUsesCurrent` | dream/core/context_counter.py:466-482 | a capture is handed a session only if it is live and of exactly the configuration and files asked for, its process run from those |
| `HelperSafety.StepKeepsInv` | dream/core/context_counter.py:466-702 | every locked block and every environment step keeps the whole invariant |
| `HelperSafety.RunKeepsInv` | dream/core/context_counter.py:417-702 | so does every run from the initial state |
| `HelperSafety.StoreKeeps` | dream/core/context_counter.py:698-701 | storing an answer keeps one entry a text, the bound, the new entry and all others but the oldest |
| `HelperAnswers.CaptureAnswers` | dream/core/context_counter.py:466-498 | in every reachable state a capture is given the session if and only if it is alive and of exactly what is wanted; otherwise the reason is, in this order, the files, a start under way, a failure less than 60 s old, a helper still there; and a start is ordered if and only if none of these stands in the way |
| `HelperAnswers.CaptureLeaves` | dream/core/context_counter.py:466-498 | what a capture leaves: the wanted state, its session and counts if it is served and none otherwise, whom to wait for, and the failure that still counts |
| `HelperAnswers.DeadSessionBacksOff` | dream/core/context_counter.py:477-494 | a session found dead is not replaced for 60 s: captures are told why it died, then whether its process is still there, and only when it is not does one start the next |
| `HelperAnswers.ReplacedOnceGone` | dream/core/context_counter.py:477-498 | once its process is gone too and the 60 s are over, the next capture starts another |
| `HelperAnswers.WhyStartsStop` | dream/core/context_counter.py:539-627 | a step of a start stops it for what it met with, for a file that is another one, or, before and just after it runs its child, for an epoch that is over, by these reasons and for nothing else |
| `HelperAnswers.FailedStartBacksOff` | dream/core/context_counter.py:526-537 | nor is a failed start of what is still wanted repeated for 60 s |
| `HelperAnswers.StartedServes` | dream/core/context_counter.py:526-537 | a start that went well serves what it was for unless its session has died; one no longer wanted is closed and retired |
| `HelperAnswers.LookFinds` | dream/core/context_counter.py:672-679 | a remembered count is returned if and only if the session is current and alive and there is one for that text; it becomes the newest, the others stay in order |
| `HelperAnswers.AnswerIsFound` | dream/core/context_counter.py:694-702 | an answer is returned if and only if its session is current and alive, and the next look for that text finds it |
| `HelperAnswers.CountIsHad` | dream/core/context_counter.py:466-702 | for any configuration, process and text there is a run in which a helper starts, counts the text and has its count remembered |
| `HelperShutdown.RunKeepsInv` | dream/core/context_counter.py:329-537 | over every run of the counter and all its sessions together, each session object is in use or marked dead, and what is marked dead is dead or about to be |
| `HelperShutdown.DroppedIsShut` | dream/core/context_counter.py:505-537 | a session that is neither published nor about to be has been closed: with no thread inside its calls its pipes are shut, exactly once |
| `HelperShutdown.RetiredIsNotInUse` | dream/core/context_counter.py:505-537 | a retired process is never the published session's nor a start's result |
| `HelperShutdown.LiveIsOpen` | dream/core/context_counter.py:505-537 | a session not marked dead is published or about to be |
| `HelperShutdown.CallsAreAnswered` | dream/core/context_counter.py:514-532 | what the counter calls close on is a session there is |
| `HelperCounter.GgufHelperCounter.constructor` | dream/core/context_counter.py:424-434 | starts with nothing owned, epoch zero |
| `HelperCounter.GgufHelperCounter.Reap` | dream/core/context_counter.py:502-503 | keeps exactly the retired helpers still alive |
| `HelperCounter.GgufHelperCounter.Drop` | dream/core/context_counter.py:505-517 | the state becomes the transition system's: new epoch, no failure, no counts, the session closed and retired |
| `HelperCounter.GgufHelperCounter.Refresh` | dream/core/context_counter.py:466-474 | reaps and, when something else is wanted than before, drops what there is |
| `HelperCounter.GgufHelperCounter.Ensure` | dream/core/context_counter.py:466-498 | the locked block taken step by step is the transition whose answers and effects `CaptureAnswers` and `CaptureLeaves` characterise |
| `HelperCounter.GgufHelperCounter.StartUnless` | dream/core/context_counter.py:485-498 | orders a start exactly when none is under way, no failure is recent and no retired helper is alive |
| `HelperCounter.GgufHelperCounter.Register` | dream/core/context_counter.py:581-585 | the child is on record as starting before anything is asked of it; says whether its epoch still stands |
| `HelperCounter.GgufHelperCounter.Finish` | dream/core/context_counter.py:519-537 | the starter's last block: publish, retire or record the failure |
| `HelperCounter.GgufHelperCounter.Lookup` | dream/core/context_counter.py:672-679 | a remembered count of the current session moves to the newest place |
| `HelperCounter.GgufHelperCounter.Evict` | dream/core/context_counter.py:700-701 | leaves exactly the newest entries the bound allows |
| `HelperCounter.GgufHelperCounter.Publish` | dream/core/context_counter.py:694-702 | an answer is kept and returned only while its session is the one |
| `HelperCounter.GgufHelperCounter.Reset` | dream/core/context_counter.py:647-655 | drops the session and forgets what was wanted |
| `HelperCounter.GgufHelperCounter.Report` | dream/core/context_counter.py:656-662 | reaps, then counts the retired and starting helpers, a start without a child as one |
| `CheckpointIds.ValueOfFormat` | dream/core/checkpoints.py:306-317 | an id's text reads back as its number |
| `CheckpointIds.IdOrderIsNumeric` | dream/core/checkpoints.py:300-304 | sorting ids by length and then text is sorting them by number, past four digits too |
| `CheckpointIds.IdIsCanonical` | dream/core/checkpoints.py:313-317 | any numeral is normalised to one file name, and no two numbers share one |
| `Checkpoints.RestoreFrame` | dream/core/checkpoints.py:221-274 | whatever fails and however much is forced, an unrecorded path that is no staging name is left alone |
| `Checkpoints.ObserveIsExact` | dream/core/checkpoints.py:352-385 | take records a path if and only if nothing is there or a readable file within the limit, and then exactly what is there |
| `Checkpoints.SealForgetsTheUnread` | dream/core/checkpoints.py:152-166 | sealing records what is there now, or nothing for a path that cannot be read, however it was sealed before; undo without force then leaves that path alone |
| `Checkpoints.RestoreAt` | dream/core/checkpoints.py:221-274 | each recorded path ends as a function of its own node and entry alone |
| `Checkpoints.RestoreStage` | dream/core/checkpoints.py:397-403 | under any faults an unrecorded staging name ends as its one entry leaves it: moved away, left behind in part, or untouched |
| `Checkpoints.RestoreStagedPath` | dream/core/checkpoints.py:221-274 | a recorded path that is the staging name of another entry ends as the two entries make it, in their order |
| `Checkpoints.OutcomeIsTrue` | dream/core/checkpoints.py:227-273 | under any faults each entry's outcome is decided by what was found at its turn and what is left: deleted if and only if a node is gone, restored if and only if another content became that of take, unchanged if and only if its contents were there, skipped with the exact reason if and only if nothing was done |
| `Checkpoints.OutcomeIsTrueOfTheWhole` | dream/core/checkpoints.py:221-274 | and where no other recorded file is staged at the path, by what was there before the restore and what is there after it |
| `Checkpoints.UndoRestoresContents` | dream/core/checkpoints.py:118-274 | after take, any writes, seal and restore a path has its contents or absence of take; its whole node exactly when the writes changed the contents or left it |
| `Checkpoints.ModeChangeStays` | dream/core/checkpoints.py:242-246 | files for which a change of mode alone is not undone |
| `Checkpoints.LaterEditKept` | dream/core/checkpoints.py:221-274 | without force, a file is left as edited after the seal if and only if it is no file now, has its contents of take, or differs from the sealed state in what is compared; edits of the mode included |
| `Checkpoints.ModeEditIsOverwritten` | dream/core/checkpoints.py:243-269 | files for which a later edit of the mode alone is overwritten |
| `Checkpoints.LaterContentsKept` | dream/core/checkpoints.py:221-274 | of edits to the contents, exactly those with the edited and the sealed file both past the limit are overwritten |
| `Checkpoints.RestoreNeverInvents` | dream/core/checkpoints.py:221-274 | under any faults a path ends as found or as it was at take |
| `Checkpoints.RestoreTwice` | dream/core/checkpoints.py:221-274 | a second unhindered restore changes nothing more at a recorded path |
| `Checkpoints.StagingNameIsLost` | dream/core/checkpoints.py:397-403 | a workspace in which a user's file of the staging name is destroyed |
| `Checkpoints.StagingNameLost` | dream/core/checkpoints.py:221-274 | without faults, a file of an unrecorded staging name is removed if and only if its entry is put back from the store, condition by condition; else it is untouched |
| `CheckpointStore.RecordIsComplete` | dream/core/checkpoints.py:141-146 | every path asked for is recorded once, earlier entries stay as first observed |
| `CheckpointStore.ReportNamesAll` | dream/core/checkpoints.py:51-61 | the lists of the report together name the recorded paths, each as often as it is recorded |
| `CheckpointStore.ReportSorts` | dream/core/checkpoints.py:221-274 | a path is in a list of the report, with a reason if skipped, if and only if an entry of that path came out so |
| `CheckpointStore.ReportInOrder` | dream/core/checkpoints.py:221-274 | each list of the report is in the order of the entries |
| `CheckpointStore.TakeSealRestore` | dream/core/checkpoints.py:118-274 | take of several paths, any writes, seal, restore: each path recorded in the limit is back |
| `CheckpointStore.LargestStays` | dream/core/checkpoints.py:147-150 | pruning to at least one never drops the checkpoint just taken |
| `CheckpointStore.Store.constructor` | dream/core/checkpoints.py:101-114 | an empty store is consistent |
| `CheckpointStore.Store.WriteBlob` | dream/core/checkpoints.py:334-342 | one file operation: the store before and after it is consistent |
| `CheckpointStore.Store.WriteManifest` | dream/core/checkpoints.py:325-329 | a manifest is replaced whole, its blobs already there |
| `CheckpointStore.Store.DeleteManifest` | dream/core/checkpoints.py:285-286 | one file operation that keeps the store consistent |
| `CheckpointStore.Store.DeleteBlob` | dream/core/checkpoints.py:292-294 | a blob goes only when no manifest needs it |
| `CheckpointStore.Store.Ids` | dream/core/checkpoints.py:300-304 | all ids, in increasing order |
| `CheckpointStore.Store.NextId` | dream/core/checkpoints.py:306-311 | fresh and larger than every other |
| `CheckpointStore.Store.Prune` | dream/core/checkpoints.py:278-296 | drops exactly the oldest beyond the number to keep, and then the store holds exactly the referenced blobs; every disk state on the way is consistent |
| `CheckpointStore.Store.Sweep` | dream/core/checkpoints.py:287-296 | leaves exactly the referenced blobs |
| `CheckpointStore.Store.Take` | dream/core/checkpoints.py:118-150 | extends the named checkpoint or makes the largest one; on the way no manifest ever names a blob that is not there |
| `CheckpointStore.Store.Seal` | dream/core/checkpoints.py:152-166 | records the present state of every kept entry, and nothing for an unknown id |
| `CheckpointStore.Store.Restore` | dream/core/checkpoints.py:221-274 | does what the per-path results are about and gives the report that `OutcomeIsTrue`, `ReportNamesAll` and `ReportSorts` are about |
| `CheckpointStore.Store.RestoreOne` | dream/core/checkpoints.py:227-273 | one entry: the files and the outcome are those of the step whose outcome `OutcomeIsTrue` decides from what was found and left |
| `CheckpointStore.Store.WriteBack` | dream/core/checkpoints.py:397-403 | the scratch file, its mode and the move, each of which may fail, amount to the step the laws are about |
| `JsonWeight.KeysOutweigh` | dream/core/context_inspection.py:154-182 | different keys weigh at least their number less one, so elements visited never outrun the weight |
| `JsonWeight.WeightIsSum` | dream/core/context_inspection.py:154-182 | the weight is the sum of what each of a value's nodes adds, and each of them is one element |
| `JsonWeight.WalkedOnce` | dream/core/context_inspection.py:154-182 | for any value past the limit the elements the walk visits before it stops are of one number, and in one order |
| `JsonWeight.Weigh` | dream/core/context_inspection.py:154-182 | the early-stopping walk returns the recursive weight when that is within the limit and more than the limit otherwise; it takes elements from the top of its stack, all of an accepted value once, at 8 or more of weight each, and of a refused one those before the first element, list or key that passes a bound |
| `CaptureWork.Work.Take` | dream/core/context_inspection.py:770-775 | charges text exactly when it fits, else notes the refusal |
| `CaptureWork.Work.Allow` | dream/core/context_inspection.py:777-781 | the counting allowance never goes below zero |
| `CaptureWork.Work.Canonical` | dream/core/context_inspection.py:793-810 | a value is serialised exactly when its recursive weight is within what is left, and charged that, or exactly the elements the walk visits to tell; spent, refused and left add up to the allowance |
| `CaptureWork.CanonicalAll` | dream/core/context_inspection.py:793-810 | over any sequence of values each is accepted exactly when it fits in what is left at its turn, and charged its weight or its visits |
| `CaptureWork.BooksBalance` | dream/core/context_inspection.py:793-810 | so weight accepted plus elements visited for refused values plus what is left is the allowance |
| `Journal.ReducedIsLeastLoss` | dream/core/context_inspection.py:506-519 | a record fits if any number of the reductions makes it fit, and then with the fewest |
| `Journal.AfterIsExact` | dream/core/context_inspection.py:502-519 | the k-th attempt has made those of the first k of previews, tool listing and components that were not made before, in that order, named them, and been measured again |
| `Journal.FreshIsKept` | dream/core/context_inspection.py:539-563 | a new record within its bound is never itself evicted |
| `Journal.KnownIsKept` | dream/core/context_inspection.py:539-563 | a record under an id already there stays if and only if it fits together with the records newer than its place |
| `Journal.KnownMayGo` | dream/core/context_inspection.py:550-563 | a record under an id already there may be evicted at once |
| `Journal.AddIsSound` | dream/core/context_inspection.py:550-563 | adding keeps every bound, true sizes and distinct ids, and a fresh id is found afterwards |
| `Journal.UpdateIsSound` | dream/core/context_inspection.py:565-575 | so does updating, which drops what no longer fits |
| `Journal.UpdateIsExact` | dream/core/context_inspection.py:565-575 | the records of the session are those that fit of the old ones with the changed record, reduced, in its old place, or without it when it cannot be; every other session is as it was and where it was |
| `Journal.AddedIsThere` | dream/core/context_inspection.py:550-563 | the added record is the newest of its session and its session the newest of all |
| `Journal.AddedRecords` | dream/core/context_inspection.py:550-563 | the session added to has exactly the records that fit, whatever other sessions go |
| `Journal.AddedIsExact` | dream/core/context_inspection.py:550-563 | the other sessions are as they were and in their order, the oldest gone while there are too many, the one added to behind them |
| `Journal.Journal.constructor` | dream/core/context_inspection.py:522-537 | every bound below one becomes one, and a record's is its session's when it is larger |
| `Journal.Journal.Reduce` | dream/core/context_inspection.py:506-519 | the loop computes the least loss, and says whether that fits |
| `Journal.Journal.FitRecords` | dream/core/context_inspection.py:539-548 | drops the fewest oldest records that bring count and bytes within bounds |
| `Journal.Journal.Add` | dream/core/context_inspection.py:550-563 | the other kind's store is untouched, oldest sessions go first, and the answer is true if and only if the reduced record is within its bound and, under a known id, fits with the newer records |
| `Journal.Journal.Update` | dream/core/context_inspection.py:565-575 | changes the named record as `UpdateIsExact` says, and nothing when there is none |
| `Journal.Journal.List` | dream/core/context_inspection.py:577-583 | a bound session's records, newest first; never a private one's |
| `ComponentSelection.SpansOf` | dream/core/context_inspection.py:243-262 | the loop returns the spans the exactness result is about |
| `ComponentSelection.SpanListIsExact` | dream/core/context_inspection.py:243-262 | the spans always tile the text: the provenance's exactly when that tiles it, else one unknown span |
| `ComponentSelection.SectionsTile` | dream/core/context_inspection.py:854-887 | a system message's sections with any merged stretch tile its text exactly, whatever the cap |
| `ComponentSelection.PlainUnits` | dream/core/context_inspection.py:866-879 | the units are the message with the exact numbers of its images and other parts, then each text part looked at, in order, then each tool call |
| `ComponentSelection.CapAccounts` | dream/core/context_inspection.py:880-887 | the first units are stored as they are, and with those merged add up to all, as a multiset of kinds |
| `ComponentSelection.KindsCounted` | dream/core/context_inspection.py:880-887 | the kinds of some units, of each as many as there are units of it |
| `ComponentSelection.UnitsOf` | dream/core/context_inspection.py:854-887 | every message has at least one unit and at most the cap |
| `ComponentSelection.Select` | dream/core/context_inspection.py:968-982 | head and tail fit the bounds and neither could have taken one more message |
| `ComponentSelection.UnwalkedIsBetween` | dream/core/context_inspection.py:983-995 | the unwalked stretch never meets a stored message and, when there are more messages than the limit, leaves exactly half the limit at each end |
| `ComponentSelection.SelectedFits` | dream/core/context_inspection.py:1018-1019 | the stored components are within the bound, so the final truncation cuts nothing |
| `ComponentSelection.StoredAt` | dream/core/context_inspection.py:996-1018 | the components of a stored message are its units, in order, behind those of the messages before it |
| `ComponentSelection.ByteSumsSplit` | dream/core/context_inspection.py:996-1024 | bytes and omitted bytes of some messages and more are those of the ones and of the others |
| `ComponentSelection.ImagesOfOne` | dream/core/context_inspection.py:957-961 | a message has as many images as there are among its first parts |
| `ComponentSelection.Visit` | dream/core/context_inspection.py:1001-1018 | a walked message is stored or counted as omitted, digested exactly when its weight is within what is left, totalled, and charged for |
| `ComponentSelection.Components` | dream/core/context_inspection.py:964-1024 | stored plus omitted messages are all messages, digested plus undigested too; each walked message is digested if and only if its weight is within what is left at its turn, and what is left is followed from the first to the last; images, bytes and omitted bytes are the sums over what was walked and digested; what was not walked is named; a digest is given exactly when every message went into it, in order |
| `PacedPlan.RoundIsNear` | dream/computer.py:1066 | rounding, ties to even, is off by a half at most |
| `PacedPlan.RoundIsExact` | dream/computer.py:1066 | rounding gives the nearest integer, and of two equally near the even one |
| `PacedPlan.StepIsShort` | dream/computer.py:1056-1066 | two-pixel steps before rounding are at most four pixels after it |
| `PacedPlan.StepBetween` | dream/computer.py:1066 | a rounded point stays in the box of its line |
| `PacedPlan.CountIsLeast` | dream/computer.py:1057-1058 | the subdivision of a line is the least one with short enough and quick enough steps |
| `PacedPlan.CountsAreFewest` | dream/computer.py:1054-1059 | no subdivision of the whole path into such steps has fewer points |
| `PacedPlan.Divide` | dream/computer.py:1054-1060 | the segments share out the time by length, and their counts are the fewest |
| `PacedPlan.Walk` | dream/computer.py:1064-1068 | one line appended has its points at equal steps of time and, rounded, of way, keeps the pace and ends at its far point on time |
| `PacedPlan.Hold` | dream/computer.py:1051-1053 | a path that does not move is the one point at equal intervals, the fewest that are short enough, over the whole duration |
| `PacedPlan.Draw` | dream/computer.py:1062-1069 | the plan of a moving path goes along its lines one after the other, is accepted, and the final assignment changes nothing |
| `PacedPlan.Build` | dream/computer.py:1045-1070 | refused if and only if the duration is out of range or no subdivision fits 256 points; otherwise every point and time of the plan is given, and it starts at the first point, ends at the last at exactly the duration, never goes back in time, waits at most 20 ms, moves at most four pixels, and visits every point in order after its share of the way |
| `PacedPlan.StaysInside` | dream/computer.py:1045-1070 | every planned point is inside every viewport that holds the path |
| `PacedPlan.TimesRise` | dream/computer.py:1045-1070 | times never decrease over the whole plan |
| `ProcessTree.Group` | dream/computer.py:147-161 | the children map answers every parent with its children, and there is none if and only if a row could not be read |
| `ProcessTree.Expand` | dream/computer.py:163-169 | one process's unseen children join the found ones and the worklist; refused only when there are too many below |
| `ProcessTree.Descendants` | dream/computer.py:142-170 | terminates on any links, cycles included; each process below is found exactly once; None if and only if a row was unreadable or more than the cap are below |
| `ProcessTree.ClosedHoldsAll` | dream/computer.py:163-170 | a set closed under children that holds the root holds everything below it |
| `ProcessTree.AnyOrder` | dream/computer.py:147-170 | the answer does not depend on the order of the table |
| `ObservationTokens.AtMostOneDispatch` | dream/computer.py:842-932 | in a sound log, as every run leaves, no two dispatches are under the same observation |
| `ObservationTokens.Run` | dream/computer.py:842-932 | over any sequence of open, observe, act and close, no two actions that went out, failed ones included, were under the same observation, and the log is sound |
| `ObservationTokens.SentAsObserved` | dream/computer.py:851-894 | what was sent went to the state that was observed, at most 300 seconds after |
| `ObservationTokens.SentWasChecked` | dream/computer.py:857-893 | over the log of any run: a coordinate action had the pixels of the issued screenshot, an element action an enabled element shown under that observation, nothing went to an own window and nothing but a focus to a view-only one |
| `ObservationTokens.IssueKeeps` | dream/computer.py:809-811 | a new token keeps the log sound and belongs to what its target's dictionary now holds |
| `ObservationTokens.SendKeeps` | dream/computer.py:894 | a dispatch that what its target holds allows uses up the token and keeps the log sound |
| `ObservationTokens.ShownAre` | dream/computer.py:776-779 | the elements shown are the first of the thirty from the offset on, as many as were left of them |
| `ObservationTokens.SucceedsExactly` | dream/computer.py:738-812 | a token is issued if and only if one state, settled or not, was read before the capture and after it, and what showing it takes went through |
| `ObservationTokens.GoesExactly` | dream/computer.py:842-893 | for every kind of target and action: it goes out if and only if the observation is its unused one and at most 300 s old, the target looks as it did and takes the action, and, at a place on the screen, pixels and state are found so once more |
| `ObservationTokens.MovedExactly` | dream/computer.py:851-893 | a refusal takes the token if and only if state or pixels are seen to have changed |
| `ObservationTokens.Computer.constructor` | dream/computer.py:440-445 | no targets, nothing issued |
| `ObservationTokens.Computer.Look` | dream/computer.py:738-812 | a token is issued exactly when every step went through, for the state read last; a failed refresh leaves none; shown elements have handles of the same observation |
| `ObservationTokens.Computer.Open` | dream/computer.py:459-528 | at most four targets; a failed first observation leaves no target |
| `ObservationTokens.Computer.Close` | dream/computer.py:1179-1186 | forgets the target and its token |
| `ObservationTokens.Computer.Act` | dream/computer.py:842-932 | something goes out if and only if every check passes; it is logged once, its token is gone whatever happens then, and a refusal sends nothing and takes the token only when the target is seen to have changed |
| `InputRelease.ReleaseKeys` | dream/computer.py:990-998 | releases are attempted in reverse order, each once, a refused one not stopping the rest; only a hung one does |
| `InputRelease.PressKeys` | dream/computer.py:988-1022 | attempted presses are a prefix of the chord, each check passed before its press; releases follow in reverse order; which failure is reported; without a reported release failure no key is down |
| `InputRelease.AttemptedExactly` | dream/computer.py:1001-1007 | a key is attempted if and only if every key before it went down and its own check let it through |
| `InputRelease.LeftUnreleased` | dream/computer.py:990-998 | after n attempted releases exactly the keys pressed first have none |
| `InputRelease.EveryPressHasARelease` | dream/computer.py:279-290 | every attempted press has its release attempted if and only if no release but the last hangs |
| `InputRelease.HeldUntilFreed` | dream/computer.py:988-1010 | the keys down after a chord are those with no accepted release |
| `InputRelease.NothingStaysHeld` | dream/computer.py:279-290 | no key stays down if and only if each has an accepted release; for a chord of different keys, if and only if all releases are accepted |
| `InputRelease.HungReleaseLeavesKeys` | dream/computer.py:279-290 | a chord of two keys whose first release hangs: one key has no release attempted and both are down |
| `InputRelease.Drag` | dream/computer.py:936-972 | nothing before the checks, then one press at the first point, moves along the path each after its check, and one release last, whatever failed |
| `InputRelease.OneReleaseEach` | dream/computer.py:963-971 | such a log has exactly one press and one release |
| `CouncilProjection.ExcerptIsEnds` | dream/core/council_context.py:68-74 | an excerpt is the two ends of the text, balanced, with exactly the excess left out between |
| `CouncilProjection.ExcerptGrows` | dream/core/council_context.py:68-74 | a larger allowance never keeps less |
| `CouncilProjection.AnswersAccounted` | dream/core/council_context.py:77-107 | kept plus omitted characters are each answer's length, its advisor is named, and the status says which of the three it is |
| `CouncilProjection.MessageSpeaks` | dream/core/council_context.py:77-119 | a record's message carries its source; a turn's own role and text with what was not stored counted; a consultation's question and each advisor's answer as the two ends of each, with what is left out counted; an unreadable record's size |
| `CouncilProjection.ChosenSpeaks` | dream/core/council_context.py:122-154 | the messages are those of the records that were given an allowance, one for each and in their order |
| `CouncilProjection.NoticesTell` | dream/core/council_context.py:114-119 | a record left out is noticed by its source, its kind and every one of its advisors; an included one if and only if an answer is longer than its allowance |
| `CouncilProjection.Allocate` | dream/core/council_context.py:130-141 | for any test of fitting, monotone or not: left out only when the shortest form does not fit, else an allowance that fits while one more does not |
| `CouncilProjection.PickedIsLargest` | dream/core/council_context.py:134-140 | where fitting is monotone, exactly the allowances up to the one picked fit |
| `CouncilProjection.ChosenFits` | dream/core/council_context.py:122-154 | the whole selection is a list the test accepted |
| `CouncilProjection.Accounted` | dream/core/council_context.py:130-154 | every record is included or has an omission notice, and a shortened one a notice of that |
| `CouncilProjection.ChosenCount` | dream/core/council_context.py:130-154 | included messages plus omission notices number the records |
| `CouncilProjection.ReadsInOrder` | dream/core/council_context.py:154 | the reversed selection is the selection of the reversed offers |
| `CouncilProjection.OfferedInReverse` | dream/core/council_context.py:130-154 | so the projection reads history first, oldest first, then the consultations |
| `CouncilProjection.Project` | dream/core/council_context.py:122-154 | the messages, history first, are those of the records with an allowance, each saying what `MessageSpeaks` says; the notices are those of one pick for each record, made beside what was chosen before; and the result fits |
| `Presets.WithoutIsExact` | dream/presets.py:251-252 | every spelling of the item goes, every other item stays as often as it was |
| `Presets.WithoutIsInOrder` | dream/presets.py:251-252 | the other items stay in the order they stood |
| `Presets.AllowedExactly` | dream/presets.py:219-272 | which edits are allowed, by what is built in and what is the owner's: a free proper name for a new preset, assignments to any but a malformed one, renaming and deleting his own, resetting an edited built-in, nothing of Default |
| `Presets.EffectKeepsSane` | dream/presets.py:228-276 | every allowed edit keeps the choice meaningful and the names apart in more than case |
| `Presets.BuiltinsStay` | dream/presets.py:228-276 | no edit loses a built-in, and only its own assign or reset changes it |
| `Presets.ResetUndoesAssign` | dream/presets.py:245-269 | editing a built-in and resetting it leaves everything as before |
| `Presets.Editor.constructor` | dream/presets.py:55-65 | with no file the choice is Default |
| `Presets.Editor.SetActive` | dream/presets.py:207-216 | accepted if and only if the file is readable and as seen and the preset usable; changes nothing but the choice |
| `Presets.Editor.Edit` | dream/presets.py:228-276 | made if and only if the revision is the file's own and the edit is allowed, and answered with the name the preset has or had; otherwise the file is untouched |
| `Presets.Editor.Change` | dream/presets.py:232-272 | the steps on the owner's entries have the stated effect on the presets that are known |
| `Presets.Run` | dream/presets.py:191-276 | from no file, over any edits and choices with any revisions: in every file on the way the choice is meaningful, the names apart and the built-ins there; a command is accepted exactly when its caller saw the file and it is allowed, and then does what it says |
| `Presets.NothingIsOverwritten` | dream/presets.py:191-204 | of two edits made from the same sight of the file, the later is accepted only if the file is as it was then |

## Left out

- Process creation, signals, polling, the ready line's own checks and file identities: they appear as steps that succeed, fail or give an arbitrary value. `Thread.start` failing is not part of this model.
- In `HelperLifecycle` a session's death is one arbitrary step and its close one atomic one; the interleavings inside `_Session.close` and `count` are `SessionClose`'s subject. `HelperShutdown` runs the two side by side: the counter counts a session as dead from the moment it calls its close.
- HelperSafety.PublishedIsCurrent: an open file's identity never goes back to an old one, since its times move on; the hash of the helper's bytes and the checks of who owns the files are arbitrary faults of a start.
- HelperWire.Session.Count: one call alone, with the I/O lock held; waiting for the lock and the deferred close are in `SessionClose`. The text of requests and the decoding of answers are parameters.
- Sha256Spec.PadIsStandard: for messages under 2^61 bytes, the standard's own bound; past it the 64-bit counter wraps, and `HashPieces` still states what is computed.
- LineReader.Lines.Next: `EINTR` and failing reads are modelled, the file descriptor is not.
- Checkpoints.UndoRestoresContents: for a path that is no other entry's staging name (`RestoreStagedPath` says what happens to one that is) and where no directory stands in the way; SHA-256 is taken to be injective. Its clause on modes is exact.
- Checkpoints.LaterEditKept: SHA-256 is taken to be injective.
- CheckpointStore.Store.Take: one writer at a time and a limit of at least one, as the code assumes; manifests whose names are no numerals, damaged manifests and blobs, temporary files of an atomic replace, symlinks, version-control directories, setuid bits and paths outside the workspace are not part of this model. Manifests are written whole.
- Journal.Journal.Add: the size of a body and what a reduction leaves of it are arbitrary functions; redaction and previews are not modelled.
- ComponentSelection.Components: the running digest is the list of what went into it, and a message's size is given with it; the text fields of a component are left out; the further work that hashing, previewing and serialising a stored message's pieces is charged is one arbitrary amount for each.
- JsonWeight.Weigh: values of types JSON does not have weigh as scalars, as in the source; shared or cyclic Python objects are not modelled.
- PacedPlan.Build: floating point is taken as exact reals, and a distance as a non-negative real with the right square; at least two points, as `_points` demands.
- ProcessTree.Descendants: one reading of the table, in which a row may be gone or unreadable; a `/proc` that cannot be listed is the same as an unreadable row.
- ObservationTokens.Computer.Look: sampling until quiet is one settled state or none; writing the screenshot and cutting the observation to its budget are one step that goes through or not, leaving a first part of the page's elements. Fresh ids are taken to be fresh.
- ObservationTokens.Computer.Act: the formats of text, keys, points and scroll distances are one condition; what the dispatch does is `InputRelease`'s subject for keys and pointer in the browser. `target['dispatched']` and the wording of refusals are left out, and so is the closing of a breached page.
- InputRelease.NothingStaysHeld: a press that failed counts as one that may have gone down.
- InputRelease.Drag: the path is the list of points to move through, planned or not.
- Desktop input through xdotool and its revalidation, scrolling, element clicks and fills: outside effects behind the same checks.
- CouncilProjection.Project: the JSON text of a message is not modelled, so fitting is an arbitrary test; answers and questions that are not text count as the text they are shown as.
- Presets.Editor.Edit: case folding and stripping are arbitrary functions, a revision is the file itself, an edit by hand is not a step, and runs begin with no file; a session's use of a preset (`keeps_tool`, `keeps_mcp`, `keeps_skill`, costs) is left out.
- GGUF parsing and the tokenizer in the native helper, network boundary, Playwright and X11, `_pty_ownership`.
- Diagnostics, backup, hooks, extensions, evaluation scripts, the text interface and the GUI: mostly input checks and I/O that would add easy members.
