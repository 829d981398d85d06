# Verified models of bosh-windows-stemcell-builder

This project models the parts of the repository whose behaviour is hard to see from one
function, and proves properties of them for every input, every run and every interleaving.

| files | what they model |
|---|---|
| `Utf8.dfy`, `Utf16.dfy`, `Base64.dfy`, `Powershell.dfy` | how `EncodePowershellCommand` turns bytes into an `-EncodedCommand` argument, the decoder the guest applies, and `WinRMManager.Enable` |
| `Streams.dfy`, `TarGenerator.dfy` | the writer stack tar, gzip, `io.MultiWriter(file, hash)`; `TarGenerator` and `CreateImage` on a disk of limited size |
| `StemcellScript.dfy`, `Packaging.dfy`, `PackagingCleanup.dfy`, `PackagingProgress.dfy`, `PackagingSuccess.dfy`, `PackagingStop.dfy` | `VmdkPackager.Package`: the packaging goroutine, the interrupt handler and the ovftool process, interleaved over one file system; when its directory is gone, that it ends, when it succeeds, and what an interrupt still allows |
| `WinRM.dfy`, `Construct.dfy`, `ConstructRuns.dfy` | remote command errors, the reboot checker, the pollers and `PrepareVM` against a VM that may answer anything |
| `PartnerCenter.dfy`, `SlowEndpoint.dfy`, `FailureRun.dfy`, `RedactSas.dfy`, `RedactAmpersand.dfy` | the Partner Center client: token cache, retries and job wait, how long the wait can take, the failure run, the SAS redaction, and where it stops |
| `StdoutCapture.dfy` | `RunWithOutput`: a caller and a copier over a bounded pipe |
| `GovcArgs.dfy` | `buildGovcCommand` and `Start` over Go slices with capacity |
| `ZipTree.dfy` | the directory tree written into a zip archive and read back |
| `AzureVersion.dfy` | the Azure version packing |
| `Basics.dfy` | shared types and sequence facts |

How the models are built:

- Sequential code that changes state is written as methods and classes with loops, proved against
  specification functions, and results about those functions are lemmas.
- Concurrent code (`Packaging`, `StdoutCapture`) is a step function on a state value. An event that
  is not possible in a state changes nothing, so every list of events is a run, and a statement for
  all lists of events holds in every interleaving.
- gzip, tar and SHA-1 are parameters: arbitrary deterministic functions of everything they were given
  before. What such an archive contains is said by a reader of what tar was given: headers, as much
  data as each announces, and the closing block last (`Streams.IsArchiveOf`). UTF-8 (RFC 3629), UTF-16 (RFC 2781) and Base64 (RFC 4648) are concrete.
- What the code computes with a table or a branch of its own is stated in the results in other terms:
  the keys, stop characters, HTTP codes, times, exit codes and message texts are written out there.
- Every induction is written out: all lemmas carry `{:induction false}`.
- Answers of vCenter, WinRM, the guest and the Microsoft endpoints are parameters or a sequence of
  arbitrary replies. Where the code could poll for ever, the outcome `Waiting` means that the replies
  given so far leave it waiting.

## What the proofs found

- `PackagingCleanup.StopBranchDecides`: `ConvertVMX2OVA` kills ovftool on an interrupt and returns
  without waiting for it. Where the select can take its stop branch, `Package` can still leave its
  temporary directory behind exactly if ovftool is running then and the directory is there; no other
  branch leads there (`PackagingCleanup.TempDirIsGone`). For a caller this means that the directory is
  sure to be gone exactly if `Package` is not interrupted (`PackagingCleanup.GoneExactlyUninterrupted`).
- `PackagingStop.StopDecidesSuccess`: an interrupt does not always prevent success. Once Stop is closed,
  `Package` can still succeed exactly if every read and write of the copying has passed its stop check and
  no Cleanup has unlinked the stemcell yet.
- `ConstructRuns.LostAbortIsFatal`: once `shutdown /a` took effect but its reply was lost, or the reboot
  ran before it, the wait for the reboot can no longer succeed; a failed wait leaves the reboot scheduled
  exactly if neither happened. `ConstructRuns.PendingAtTheEnd`: when the setup script is reported as failed
  although it came to its last line, the restart it scheduled is still to come after `PrepareVM` returned,
  and likewise the shutdown of the post-reboot script.
- `StdoutCapture.DeadlockExactlyWhen`: a read error on the pipe can block `RunWithOutput` until somebody
  closes the pipe's read end, which nothing in the program does, exactly when the output is larger than
  the pipe.
- `RedactAmpersand.RedactedUpToAmpersand`: the comment in `partner-center.sh` says that an encoded
  signature is redacted up to the next `%26`. It is exactly if the text before that `%26` divides into
  whole rounds of the second expression and holds no plain `sig=`. Otherwise the match stops earlier or
  swallows the `%26` and what follows: `RedactAmpersand.StrayPercentSwallowsAmpersand` and
  `RedactAmpersand.PlainKeySwallowsAmpersand` give lines for both ways. The model follows the code.
- `AzureVersion.InjectiveExactlyBelow1000`: only the build number needs the bound 1000, the patch number
  needs none. `AzureVersion.LeadingZeros`: Ruby reads a patch or build with a leading zero as octal.
- `PartnerCenter.GetSends` and `PartnerCenter.WaitSends`: all requests carry issued tokens exactly if the
  cache was stale or issued at the start. It need not be: a 2xx answer without `access_token` replaces the
  cached token but not its date, and `PartnerCenter.NullTokenIsSent` is a run in which that is sent.
- `SlowEndpoint.InTimeExactlyWithoutEmptyToken`: the 4800 s bound of the job wait holds exactly for
  endpoints that never issue an empty token; with such tokens the least bound is 7080 s
  (`SlowEndpoint.LeastBound`).

## Model

| member | source | states |
|---|---|---|
| `Utf8.FrontOfEncoding` | `stembuild/construct/vmconstruct.go:274` | the decoder recognises the RFC 3629 encoding of any scalar value at the front of any bytes, with its exact length |
| `Utf8.FrontIsEncoding` | `stembuild/construct/vmconstruct.go:274` | conversely, whatever it accepts is the encoding of the scalar value it returns: no overlong forms, no surrogates, nothing above U+10FFFF |
| `Utf8.DecodeOfEncode` | `stembuild/construct/vmconstruct.go:274` | `[]rune(string(...))` of encoded code points gives the code points back, supplementary planes included |
| `Utf8.EncodeOfDecode` | `stembuild/construct/vmconstruct.go:274` | decoding yields scalar values only, and re-encoding restores the bytes if and only if they were UTF-8 |
| `Utf8.DecodeIsTheReading` | `stembuild/construct/vmconstruct.go:274` | in terms of encodings alone, for all bytes: where a scalar value is encoded it is read and its encoding skipped, and every other byte becomes one U+FFFD; there is exactly one such reading, and it is what the conversion yields |
| `Utf8.DecodeDistributes` | `stembuild/construct/winrm.go:34` | decoding distributes over appending b to arbitrary bytes if and only if b is empty or does not begin with a continuation byte |
| `Utf16.DecodeOfEncode` | `stembuild/construct/vmconstruct.go:275` | for all numbers, the strict RFC 2781 decoder undoes `utf16.Encode`, surrogate pairs included, with U+FFFD for what is no scalar value |
| `Utf16.PairOfLittleEndian` | `stembuild/construct/vmconstruct.go:277-281` | pairing the written bytes low byte first gives the units back |
| `Base64.DecodeOfEncode` | `stembuild/construct/vmconstruct.go:282` | strict decoding undoes the encoding for every number of bytes |
| `Base64.DecodeIsCanonical` | `stembuild/construct/vmconstruct.go:282` | the only text that strictly decodes to given bytes is the encoder's: fill bits zero, padding minimal |
| `Base64.EncodeShape` | `stembuild/construct/vmconstruct.go:282` | the length is 4 ceil(n/3), and `=` stands exactly in the last (-n mod 3) positions |
| `Powershell.GuestRunsTheRunes` | `stembuild/construct/vmconstruct.go:273-283` | for any bytes, valid or not, Base64, little-endian pairing and UTF-16 decoding yield exactly the reading of the command: its scalar values, and one U+FFFD for each byte at which none is encoded |
| `Powershell.GuestRunsTheCodePoints` | `stembuild/construct/vmconstruct.go:273-283` | a command written in UTF-8 reaches the guest as exactly its code points |
| `Powershell.GuestRestoresTheBytes` | `stembuild/construct/vmconstruct.go:273-283` | the guest's text re-encodes to the command's bytes if and only if these were UTF-8 |
| `Powershell.EqualEncodings` | `stembuild/construct/vmconstruct.go:273-283` | two commands encode equally if and only if their runes are equal |
| `Powershell.EncodingShape` | `stembuild/construct/vmconstruct.go:273-283` | the output has 4 ceil(2u/3) characters for u UTF-16 units, with `=` in exactly the padding positions |
| `Powershell.EncodingIsCanonical` | `stembuild/construct/vmconstruct.go:282` | no other Base64 text decodes to what the output decodes to |
| `Powershell.EncodePowershellCommand` | `stembuild/construct/vmconstruct.go:273-283` | the buffer loop produces a text that the guest decodes to the reading of the command |
| `Powershell.Samples` | `stembuild/construct/vmconstruct.go:273-283` | the texts for a supplementary code point and for a byte that is not UTF-8 before a newline |
| `Powershell.InvocationSurvives` | `stembuild/construct/winrm.go:34` | the runes of module plus invocation line are the module's runes followed by exactly the line, even after a truncated sequence |
| `Powershell.Enable` | `stembuild/construct/winrm.go:20-53` | a program is started exactly when both unzips succeed, its argument is `-EncodedCommand` and a text that decodes to the reading of the module followed by the code points of the invocation line, and nil is returned exactly when everything succeeds and the exit code is 0 |
| `Streams.ChunksFlatten` | `stembuild/package_stemcell/packager/packager_utility.go:122` | the pieces in which a file is copied are non-empty, as few as pieces of 32 KiB can be, and add up to the file |
| `Streams.StreamIsArchive` | `stembuild/package_stemcell/packager/packager_utility.go:77-103` | what tar and gzip write for intact files reads as exactly the names and contents of those that are not directories, in order, closed at both levels |
| `Streams.UnpackingGivesFiles` | `stembuild/package_stemcell/packager/packager_utility.go:77-103` | whatever decompressor and archive reader undo the two codecs unpack such a stream to its files |
| `TarGenerator.WriteBoth` | `stembuild/package_stemcell/packager/packager_utility.go:74` | a write that the file cuts short never reaches the hash; one the file takes reaches it whole |
| `TarGenerator.GzipWriter.Put` | `stembuild/package_stemcell/packager/packager_utility.go:74` | file content and hash input stay equal through every write and the flush on Close until a write fails; the file is always the compressed stream cut at the disk's capacity; errors stick |
| `TarGenerator.TarWriter.Write` | `stembuild/package_stemcell/packager/packager_utility.go:115-128` | a write succeeds exactly when it fits in what the header announced and on the disk |
| `TarGenerator.WriteFilePathToTar` | `stembuild/package_stemcell/packager/packager_utility.go:115-128` | copying a file succeeds exactly when it is no longer than announced and fits on the disk, and then hands over exactly its chunks in order |
| `TarGenerator.AddFiles` | `stembuild/package_stemcell/packager/packager_utility.go:77-91` | the loop skips directories, hands over header and content of every other file in order, and fails only on a changed or unreadable file or a full disk |
| `TarGenerator.CutFromStream` | `stembuild/package_stemcell/packager/packager_utility.go:77-103` | what reached the file during any part of the archive is a prefix of the complete stream |
| `TarGenerator.TarGenerator` | `stembuild/package_stemcell/packager/packager_utility.go:54-103` | a digest is returned if and only if every listed file is readable with its listed size and the stream fits on the disk; it is the digest of the bytes of the destination file, which is a complete archive of the listed files that are not directories |
| `TarGenerator.CreateImage` | `stembuild/package_stemcell/packager/vmdk_packager.go:271-299` | the checksum is recorded if and only if the compressed image fits on the disk, and is the digest of the image file's bytes, which are a closed gzip stream of the OVA; a failed run leaves a prefix |
| `StemcellScript.ScriptWritesTheArchive` | `stembuild/package_stemcell/packager/vmdk_packager.go:167-187` | the reads and writes of the copying code, in order through tar and gzip, write exactly a complete archive of `image` and `stemcell.MF` with their contents |
| `StemcellScript.ScriptReadsBothFiles` | `stembuild/package_stemcell/packager/vmdk_packager.go:97-118` | it opens the image and then the manifest, and reads each in its pieces and up to its end |
| `Packaging.StepKeepsInv` | `stembuild/package_stemcell/packager/vmdk_packager.go:79-364` | every step of any of the three processes keeps the invariant on links, file contents, tmpdir, Stop and ovftool |
| `Packaging.FinalStemcellIsComplete` | `stembuild/package_stemcell/packager/vmdk_packager.go:137-192` | in every interleaving with any interrupts, errors and exits the final path is absent or holds a complete archive of two files, `image` with the bytes of the image file, a closed gzip stream of the OVA, and `stemcell.MF` with the text for the digest of those bytes; the temporary stemcell is a prefix of it, and no longer linked once the final path is made; Package succeeds if and only if that was made |
| `Packaging.FinalStemcellUnpacks` | `stembuild/package_stemcell/packager/vmdk_packager.go:137-192` | so it unpacks, with any programs that undo the codecs, to an image that unpacks to the OVA and a manifest with that image's digest |
| `Packaging.StopIsClosedOnce` | `stembuild/package_stemcell/packager/vmdk_packager.go:330-345` | however many interrupts arrive, Stop is closed at most once, and never without one |
| `Packaging.StopFreezesTheStemcell` | `stembuild/package_stemcell/packager/vmdk_packager.go:46-67` | after Stop is closed at most one more write reaches the temporary stemcell in any interleaving, whole or in part: the one that had passed its stop check |
| `PackagingStop.StopDecidesSuccess` | `stembuild/package_stemcell/packager/vmdk_packager.go:46-67` | in every reachable state with Stop closed, some continuation of Package succeeds if and only if no read or write of the copying is left that has not passed its stop check and the stemcell is still linked, or the rename is done |
| `PackagingStop.PackagerEndsChecked` | `stembuild/package_stemcell/packager/vmdk_packager.go:167-187` | the copying code ends with such a read or write, as the result above asks |
| `PackagingStop.ExitTakesTwo` | `stembuild/package_stemcell/packager/vmdk_packager.go:330-345` | an interrupt that comes before the packager listens ends the process, and otherwise it does not end before a second one |
| `PackagingStop.SecondInterruptExits` | `stembuild/package_stemcell/packager/vmdk_packager.go:330-345` | once a second interrupt is queued, the handler alone can bring the process to its end, with the worker where it was |
| `PackagingCleanup.KilledExactlyIf` | `stembuild/package_stemcell/packager/vmdk_packager.go:223-229` | in any run ovftool has been killed if and only if the stop branch was taken while it ran |
| `PackagingCleanup.TempDirIsGone` | `stembuild/package_stemcell/packager/vmdk_packager.go:347-364` | in every run without I/O errors in the removal, Package returns without its directory unless the stop branch was taken while ovftool ran; in particular when it succeeds and when it is not interrupted |
| `PackagingCleanup.StopBranchDecides` | `stembuild/package_stemcell/packager/vmdk_packager.go:223-229` | in every reachable state in which the stop branch can be taken, it leads to Cleanup with an error, and Package can still return and leave the directory if and only if ovftool is running and the directory is there |
| `PackagingCleanup.GoneExactlyUninterrupted` | `stembuild/package_stemcell/packager/vmdk_packager.go:330-364` | Package leaves no directory in any run with at most n interrupts if and only if n is 0 |
| `PackagingCleanup.NoPartialIsLeft` | `stembuild/package_stemcell/packager/vmdk_packager.go:158-185` | in every run in which removing a half-written file does not fail, a manifest or stemcell that is linked outside the steps that write or discard it is complete |
| `PackagingProgress.WorkerEnds` | `stembuild/package_stemcell/packager/vmdk_packager.go:302-364` | in every interleaving Package takes at most a number of steps that its OVA determines |
| `PackagingSuccess.StuckMeansReturned` | `stembuild/package_stemcell/packager/vmdk_packager.go:302-364` | a run without interrupts and I/O errors that cannot go on is waiting for a running ovftool, or has returned without the directory, with success if and only if ovftool succeeded and made its output |
| `PackagingSuccess.UndisturbedRunSucceeds` | `stembuild/package_stemcell/packager/vmdk_packager.go:302-328` | for every OVA a run without disturbances returns success without the temporary directory, and at the final path with a complete archive of the compressed OVA and the manifest with its digest |
| `WinRM.ExecuteCommandWithTimeout` | `stembuild/remotemanager/winrm_remotemanager.go:111-122` | no error is returned if and only if the transport succeeded and the command exited 0, and what the error says otherwise |
| `WinRM.NoStraddle` | `stembuild/construct/vmconstruct.go:193` | the event text occurs in marker plus stderr if and only if it occurs in stderr |
| `WinRM.PostRebootClassification` | `stembuild/construct/script_executor.go:34-47` | exactly which outcomes of the post-reboot script are fatal, for every exit code, stderr and transport error, with the two texts written out |
| `Construct.Session.RebootHasFinished` | `stembuild/remotemanager/winrm_rebootchecker.go:49-78` | after one schedule the checker asks for aborts up to five times and reports finished, not yet, or an error exactly as the replies decide |
| `Construct.Session.WaitForRebootFinished` | `stembuild/remotemanager/winrm_rebootchecker.go:26-33` | polling goes on exactly until the checker finishes or fails, consuming every reply once and in order |
| `Construct.Session.WaitForPowerOff` | `stembuild/construct/vmconstruct.go:257-271` | it asks as long as vm.info succeeds with output that does not contain "poweredOff", ends well once the output contains it, and fails once vm.info fails |
| `Construct.Session.PrepareVM` | `stembuild/construct/vmconstruct.go:132-208` | the calls made follow the protocol automaton; nil is returned if and only if it is done, an error if and only if it has failed; after nil the last answer was a vm.info output containing "poweredOff" |
| `ConstructRuns.RebootShape` | `stembuild/remotemanager/winrm_rebootchecker.go:26-78` | the wait succeeds if and only if the trace is failed schedules, one accepted, at most four failed aborts, and one abort that exits 0 |
| `ConstructRuns.PendingAfterTheWait` | `stembuild/remotemanager/winrm_rebootchecker.go:49-78` | whichever commands or replies were lost, a successful wait leaves no reboot scheduled, and a failed one leaves it if and only if it has not run and each of the five aborts was lost on its way or refused |
| `ConstructRuns.PendingAtTheEnd` | `stembuild/construct/vmconstruct.go:132-208` | what any finished PrepareVM leaves scheduled: after five failed aborts as above; past the wait, the shutdown of the post-reboot script if that was scheduled and has not run; after a failed step, the restart that the setup script scheduled, or what was scheduled before and has not run |
| `ConstructRuns.LostAbortIsFatal` | `stembuild/remotemanager/winrm_rebootchecker.go:58-68` | after an abort that took effect without its reply arriving, or that the reboot itself anticipated, the wait cannot succeed |
| `ConstructRuns.PrepareShape` | `stembuild/construct/vmconstruct.go:132-208` | nil is returned if and only if the trace is the twelve steps with the replies each needs, a successful wait, a tolerable post-reboot script, and vm.info outputs of which only the last contains "poweredOff" |
| `ConstructRuns.CallsInSequence` | `stembuild/construct/vmconstruct.go:132-208` | the calls are a prefix of one fixed sequence, repeating only where the code polls |
| `ConstructRuns.CutAtFirstFatal` | `stembuild/construct/vmconstruct.go:132-208` | no call follows a fatal reply, spelled out for each call, or a fifth failed abort in a row, and an error is returned if and only if the last exchange is one of these |
| `PartnerCenter.AttemptsMade` | `ci/common-scripts/partner-center.sh:31-57` | a request is repeated, at most to the fourth call and with exactly 30 s between calls, while curl fails or the code is 000, 429 or 5xx |
| `PartnerCenter.TokenOutcome` | `ci/common-scripts/partner-center.sh:29-59` | pc_token takes at most 570 s; success caches the last answer's token with the present date, and each failure leaves the cache as stated |
| `PartnerCenter.UnsoundExactlyAfter` | `ci/common-scripts/partner-center.sh:45-50` | exactly when pc_token leaves a token that looks fresh and was never issued |
| `PartnerCenter.NullTokenIsSent` | `ci/common-scripts/partner-center.sh:45-63` | on a fresh shell: a token, a 2xx answer without one, and the next GET carries `null` |
| `PartnerCenter.EnsureOutcome` | `ci/common-scripts/partner-center.sh:62-66` | afterwards the token is under 3000 s old, no request is made unless it was stale, and it is an issued one if and only if it was stale or issued before |
| `PartnerCenter.GetSends` | `ci/common-scripts/partner-center.sh:70-97` | pc_get sends at most four requests, all with fresh tokens; all tokens are issued ones if and only if the cache was stale or issued at the start |
| `PartnerCenter.GetPrints` | `ci/common-scripts/partner-center.sh:83-87` | a body is printed if and only if the last call was a GET answered with 2xx, and it is that answer |
| `PartnerCenter.GetRetries` | `ci/common-scripts/partner-center.sh:74-96` | every GET but the last was answered by a failing curl or the code 000, 429 or 5xx, and if the last one was too it was the fourth |
| `PartnerCenter.GetFails` | `ci/common-scripts/partner-center.sh:74-96` | it fails on a refused GET, on a fourth failed one or on a failed token request |
| `PartnerCenter.GetTimeNonEmpty` | `ci/common-scripts/partner-center.sh:70-97` | with non-empty tokens pc_get needs at most one refresh |
| `PartnerCenter.IterationSends` | `ci/common-scripts/partner-center.sh:142-144` | the subshell's cache is lost, and the one the loop goes on with is issued if it was stale or issued before |
| `PartnerCenter.WaitSends` | `ci/common-scripts/partner-center.sh:138-167` | every request of pc_wait_job carries a token under 3000 s old when checked; all are issued ones if and only if the cache was stale or issued at the start |
| `PartnerCenter.WaitEnds` | `ci/common-scripts/partner-center.sh:138-167` | pc_wait_job ends with the first iteration after which the job is completed, a request has failed or the deadline has passed; each of its four ends is characterised on the last answer: a 2xx GET whose job succeeded, one whose job failed, one without a completed job after the deadline, or anything else |
| `PartnerCenter.JobBounds` | `ci/common-scripts/partner-center.sh:138-167` | from every state at most 61 polls, 244 requests and 7080 s, and 4800 s with non-empty tokens |
| `PartnerCenter.Shell.PcToken` | `ci/common-scripts/partner-center.sh:29-59` | the loop computes the run that the lemmas speak of |
| `PartnerCenter.Shell.EnsureToken` | `ci/common-scripts/partner-center.sh:62-66` | the same for the token check |
| `PartnerCenter.Shell.PcGet` | `ci/common-scripts/partner-center.sh:70-97` | the same for the request loop |
| `PartnerCenter.Shell.PollStatus` | `ci/common-scripts/partner-center.sh:144` | the same for the command substitution, after which the caller's token cache is as it was |
| `PartnerCenter.Shell.PcWaitJob` | `ci/common-scripts/partner-center.sh:138-167` | the same for the polling loop, which ends |
| `SlowEndpoint.LeastBound` | `ci/common-scripts/partner-center.sh:138-167` | over all endpoints and states, a number bounds the time of pc_wait_job if and only if it is at least 7080 s: shorter bounds are exceeded by runs with empty tokens |
| `SlowEndpoint.InTimeExactlyWithoutEmptyToken` | `ci/common-scripts/partner-center.sh:138-167` | for any set of tokens: on every endpoint that issues only these, from every state, pc_wait_job takes at most 4800 s, if and only if the empty token is not among them |
| `FailureRun.PollRun.PcPollFailed` | `ci/common-scripts/partner-center.sh:239-250` | PC_POLL_FIRST_FAILURE is what the polls so far call for, and the caller goes on exactly while the run is under an hour |
| `FailureRun.PollRun.FollowPolls` | `ci/common-scripts/partner-center.sh:234-255` | a caller's loop over any polls stops exactly with the first that is given up on |
| `FailureRun.GivesUpAfterAnHour` | `ci/common-scripts/partner-center.sh:239-255` | over any trace, polling is given up if and only if 3600 s have passed since the first failure after the last success |
| `FailureRun.SeventhFailureGivesUp` | `ci/common-scripts/partner-center.sh:239-255` | n consecutive failures, ten minutes apart at least, always end the polling if and only if n is at least 7 |
| `RedactSas.BodyIsLongestMatch` | `ci/common-scripts/partner-center.sh:18-19` | the greedy scan takes the longest match of the regular expression's repetition |
| `RedactSas.SubstituteRewritesMatches` | `ci/common-scripts/partner-center.sh:18-19` | the output is the input with every leftmost longest match rewritten and everything else kept in order |
| `RedactSas.RedactedIsClean` | `ci/common-scripts/partner-center.sh:17-20` | in the output every `sig=`, `sig%3D` and `sig%3d` is followed at once by REDACTED, and that by the end of the line or text at which the expression stops, with its stop characters written out |
| `RedactSas.RedactIsIdempotent` | `ci/common-scripts/partner-center.sh:17-20` | redaction is idempotent, and leaves a line alone if and only if the line is already clean for both patterns |
| `RedactAmpersand.RedactedUpToAmpersand` | `ci/common-scripts/partner-center.sh:15-20` | for any text w without `%26` and any text behind it, the whole redaction of an encoded signature w ends exactly at the next `%26` if and only if w is whole rounds of the second expression and holds no `sig=` |
| `RedactAmpersand.EndsAtAmpersand` | `ci/common-scripts/partner-center.sh:19` | the second expression alone: its match ends at a `%26` if and only if the text before is whole rounds, and runs over it if and only if that is whole rounds and then `%` or `%2` |
| `RedactAmpersand.StrayPercentSwallowsAmpersand` | `ci/common-scripts/partner-center.sh:17-20` | lines on which a stray `%` makes the redaction swallow the `%26` and everything behind it |
| `RedactAmpersand.PlainKeySwallowsAmpersand` | `ci/common-scripts/partner-center.sh:17-20` | lines on which a plain `sig=` inside an encoded signature does so |
| `StdoutCapture.StepKeepsInv` | `stembuild/iaas_cli/govc_cli.go:33-68` | buffer, pipe and unwritten output always add up to the output, in order |
| `StdoutCapture.SchedulesEnd` | `stembuild/iaas_cli/govc_cli.go:33-68` | the number of effective steps of any schedule is bounded by the size of the output |
| `StdoutCapture.StuckMeansReturnedOrDeadlocked` | `stembuild/iaas_cli/govc_cli.go:43-67` | the only state before the return in which neither side can move is a failed reader with a full pipe and output left |
| `StdoutCapture.ReturnsTheOutput` | `stembuild/iaas_cli/govc_cli.go:33-68` | without read and close errors every schedule that cannot go on has returned exactly the output with stdout restored |
| `StdoutCapture.ReturnsTheErrors` | `stembuild/iaas_cli/govc_cli.go:54-67` | with errors allowed every return is the error of Close if that failed, else the read error if and only if a read failed, else the whole output |
| `StdoutCapture.StdoutIsRestored` | `stembuild/iaas_cli/govc_cli.go:55-60` | stdout is restored whenever the call returns, also with errors |
| `StdoutCapture.DeadlockExactlyWhen` | `stembuild/iaas_cli/govc_cli.go:43-67` | some schedule blocks, as long as nobody closes the read end of the pipe, if and only if reads can fail and the output exceeds the pipe |
| `GovcArgs.Append` | `stembuild/iaas_cli/iaas_clients/vcenter_client.go:209` | append yields both contents in order, in place exactly when the capacity suffices, and says what the array then holds |
| `GovcArgs.BuildGovcCommand` | `stembuild/iaas_cli/iaas_clients/vcenter_client.go:204-212` | the result is args[0], `-u` with the URL, the CA flag if there is a file, and args[1..] for every capacity and content of the array, which is overwritten exactly when the capacity suffices |
| `GovcArgs.StartCommand` | `stembuild/iaas_cli/iaas_clients/vcenter_client.go:169-170` | the whole command line, written out, and that the caller's variadic slice is left untouched |
| `ZipTree.FlattenThenExtract` | `lib/zip_file.rb:14-43` | extracting the members of any tree gives the same tree back, empty directories included |
| `ZipTree.EachNodeOnce` | `lib/zip_file.rb:25-43` | in any member list that extracts, no path occurs twice |
| `ZipTree.DirectoryFirst` | `lib/zip_file.rb:39-43` | in any member list that extracts, the directory of every member comes before it |
| `ZipTree.FlatIsOrdered` | `lib/zip_file.rb:25-43` | the members of a tree have each path once and each directory before everything in it |
| `ZipTree.Archive.WriteEntries` | `lib/zip_file.rb:25-37` | a pass over a listing appends exactly its members at its path, and mkdir never finds its name taken |
| `ZipTree.Write` | `lib/zip_file.rb:14-20` | the written archive extracts to the input directory |
| `AzureVersion.MatchOfVersion` | `lib/stemcell/manifest.rb:69` | in any text the match is the leftmost "a.b.p-build.c", with all the digits of c |
| `AzureVersion.NoMatchExactly` | `lib/stemcell/manifest.rb:69` | there is none if and only if no text of that form stands anywhere |
| `AzureVersion.FormatOfVersion` | `lib/stemcell/manifest.rb:67-73` | versions without leading zeros become a.b followed by the two numbers in decimal, each with zeros up to three digits |
| `AzureVersion.PackedValue` | `lib/stemcell/manifest.rb:70-72` | the packed component reads as 1000p+c for every p and every c below 1000 |
| `AzureVersion.PackedOrder` | `lib/stemcell/manifest.rb:70-72` | for builds below 1000 numeric order is the order of (patch, build) and packing is injective |
| `AzureVersion.InjectiveExactlyBelow1000` | `lib/stemcell/manifest.rb:70-72` | packing is injective on builds below a bound if and only if the bound is at most 1000 |
| `AzureVersion.TightCollision` | `lib/stemcell/manifest.rb:70-72` | (100, 1000) and (1001, 0) pack to the same text |
| `AzureVersion.LeadingZeros` | `lib/stemcell/manifest.rb:70-72` | for any digits, both numbers are packed as decimal if and only if each has no leading zero or is zeros and one digit below 8, and the version is refused if and only if one of them has a leading zero and a digit above 7 |
| `AzureVersion.OctalOrDecimal` | `lib/stemcell/manifest.rb:70-72` | what is not refused is read as octal if it has a leading zero and as decimal otherwise |

## Left out

- PcWaitJob: the `done_fn` argument of `pc_wait_job` is not modelled.
- PrepareVM: the arguments of the calls (paths, credentials, script flags), the messages and the pauses between polls are not modelled; the poller's loop is written out at its two uses.
- CreateImage: the method covers the copying and hashing; the steps around it (template, ovftool, file creation) are in the step system, where the sizes of failing writes are arbitrary instead of following from the disk's capacity.
- FinalStemcellIsComplete: the final path is assumed not to exist before the run, as in the design; a file that Package cannot unlink counts as an I/O error.
- ScriptReadsBothFiles: the list of reads and writes is made from the two files' contents when the stemcell is created, which no step changes afterwards; a read takes no bytes from the disk at its own time.
- EnsureOutcome: dates are whole seconds of one clock that only curl and sleep advance, HTTP codes are three digits, and of a job status only completed and succeeded are distinguished.
- RedactIsIdempotent: a line is a sequence of characters; bytes that are invalid in the locale's encoding, at which sed's bracket expressions stop, are not modelled.
- WriteEntries: symbolic links (which Ruby follows) and an archive that exists before are not modelled.
- `pc_configure`, `pc_product_id`, `pc_plan_tech_config`, `pc_tech_config_blob_state` and `pc_release_submission`: their substance is in jq programs.
- `VCenterPackager.Package` ignores the errors of `TarGenerator` and `WriteManifest`, so the digest result stops at `TarGenerator`.
- The manifest's wording, the VMX template, free-space checks, command-line parsing, the packer configuration and the PowerShell modules: configuration and text.
- `ListDevices`, `WaitForExit` and the other vCenter calls: one branch on an exit code each.
- tar headers that cannot be encoded, and the closing of files, whose errors the code ignores.
- StopBranchDecides: a killed ovftool may create its output again after that was unlinked, and a Cleanup lists the directory once, as `os.RemoveAll` does on Unix; it may list it again elsewhere.
- DeadlockExactlyWhen: a finalizer that closes the abandoned read end of the pipe is not modelled.
- PendingAtTheEnd: that `Restart-Computer` and `shutdown /s` (`stembuild/stemcell-automation/AutomationHelpers.psm1`) are the last lines of the two scripts is taken over; what the scripts do before is not modelled.
