# IronDrive, modelled and proved in Dafny

IronDrive is encrypted file storage: a browser uploads files in chunks, the server stages and then encrypts them, and
libraries and shared spaces are directories of such files behind permissions. This project models that logic and proves
what it is for. Everything below holds for every input, every run and every interleaving unless a row says otherwise.

| file | what it models |
|---|---|
| `ByteStrings`, `Decimal`, `Crypto` | bytes and integer encodings; padded decimal text and its order; AES-GCM and SHA-256 as function values with four laws |
| `HashTrailer`, `StreamFormat`, `StreamCodec`, `StreamTheorems`, `EncryptedFile`, `RefusedFiles` | the two on-disk containers, their writers, readers and verifiers; which files are refused and why |
| `MasterKey`, `KeyStore`, `KeyRaces` | the first-boot race for the master key; data keys in the database and in memory; creations and deletions of spaces that overlap |
| `ChunkArithmetic`, `UploadProtocol`, `WorkerPool`, `EndToEnd`, `JointUpload` | chunk counts and lengths; a chunked upload on the server; the browser's workers; server and container together; browser, server and container together |
| `UploadProgress`, `UploadRecovery`, `PoolProgress`, `JointProgress` | that calls are answered and uploads go through, on the server, in the browser and in both; what a PUT that dies leaves behind |
| `Calendar`, `Timestamps`, `Sessions`, `SessionRuns` | day numbers to dates; timestamps as text; session expiry, lazy and in bulk; sessions over whole runs |
| `FileSystem`, `SafeJoin`, `JoinedTexts`, `FileOps`, `BulkMoves` | paths and links; the path guard; which texts it takes; rename, delete and bulk forms; where a bulk move puts an entry and what is reported |
| `TreeWalk`, `TreeListing`, `ScanKinds` | usage and integrity walks over listings; what the listings are of; which kind of event a damaged file is recorded as |
| `Permissions`, `AccessControl`, `AccessAuthority` | the permission queries and checks; groups, spaces and grants over whole runs; who may change what |
| `RateLimit` | the login and registration limiter |

How the model is built:

- Code that changes state in one place is a class or a method with loops (`Library`, `Server`, `SessionTable`,
  `RateLimiter`, the codecs, the walks), proved equal to a specification function whose properties are then proved.
- Code that runs concurrently is a state machine: a `Step` is one uninterrupted action of one party, `Run` is any
  sequence of steps, and a step that is not due changes nothing. Theorems quantify over all step sequences.
- AES-GCM is a pair of functions of which only "open undoes seal" and "sealing adds 16 bytes" are used; SHA-256 is an
  incremental hash of which only "updates join" and "a digest has 32 bytes" are used. `Crypto.LawsAreConsistent` shows the
  laws can be met. Where forgery matters, an explicit premise says which sealed strings exist (`Unforged`, `OneUpload`).
- Random keys, nonces and ids, the clock, and the order in which a directory is listed are parameters.

Where the code does not do what its comments or a first reading suggest, the code is modelled and a lemma says what happens:

- The reader accepts a STREAM file with no segment as the empty string, so dropping every segment goes unnoticed
  (`StreamTheorems.EmptiedFileIsAccepted`); dropping, repeating or reordering some of them does not.
- The streaming verifier passes a 35-byte file that the reader refuses (`StreamTheorems.VerifierAcceptsHeaderlessFile`).
- The segment length is a 32-bit cast, so a chunk of 2^32 - 16 bytes or more is written but cannot be read back; the chunk
  count is a 32-bit cast too, so a file of 2^32 chunks or more is served incompletely.
- The size shown for a file is exact for single-shot files only (`EncryptedFile.ReportedSize`).
- `safe_join` resolves component by component, each with a fresh allowance of links. It accepts texts that the kernel
  refuses in one go (`SafeJoin.WalkOutlastsTheKernel`): exactly those whose links, all components together, exceed the
  allowance (`SafeJoin.OrdinaryAllowance`).
- A failed rename can leave new directories behind (`FileOps.FailedRenameLeavesADirectory`): exactly when it tried to move
  an entry below itself into a directory that was missing (`FileOps.RenameMovesTheSubtree`).
- A bulk move takes what follows the last slash for the name, but paths are cut at backslashes too: an entry named with a
  backslash lands deeper than the target directory (`BulkMoves.BackslashNamesGoDeeper`).
- A PUT that fails while writing leaves its file, so the retry the browser makes is refused as already uploaded. From then
  on no complete can succeed until the session is torn down; otherwise one always can
  (`UploadRecovery.CanFinishIffNoneDead`, `JointProgress.DeadChunkStopsThePool`).
- The limiter calls itself a sliding window; its fixed windows let twice the limit less one through within a nanosecond
  (`RateLimit.BoundIsMet`), so it is one exactly for a limit of one (`RateLimit.SlidesIffLimitIsOne`).
- Expiry texts stop sorting by time in the year 10000 (`Timestamps.ComparableIffFourDigits`), so bulk expiry takes live
  sessions exactly when one expires later than that (`Sessions.BulkIsLiveIffInYears`).
- A group is created in two inserts. A grant made between them raises the creator's level with the second insert, with
  nobody adding them to anything (`AccessControl.HalfMadeGroupRaisesItsCreator`). When an operation raises a level is
  read off the tables before it (`AccessControl.RaisesExactly`), and without stakes given that early second inserts raise
  nobody (`AccessControl.SecondInsertsRaiseNobody`).
- Undoing a failed library or space creation is best effort. Rows, flags and keys stay in step exactly when the row's undo
  succeeds (`KeyStore.Server.SetupLibrary`, `KeyStore.Server.CreateSpace`).
- A space becomes deletable before its key is in memory. A deletion that overtakes the creation leaves a key without a row
  until the next restart (`KeyRaces.OvertakenCreationLeavesAKey`), and nothing else does
  (`KeyRaces.RestartInvisibleIffNoneLate`).

## Model

| member | source | states |
|---|---|---|
| HashTrailer.IntactIffTrailed | src/services/crypto_service.rs:443-463 | a file passes the key-free check exactly when it is some content of three bytes or more followed by its own digest; it is too small exactly below 35 bytes |
| HashTrailer.VerifyFileHashBytes | src/services/crypto_service.rs:443-463 | the in-memory check gives that verdict, error for error |
| HashTrailer.VerifyFileHash | src/services/crypto_service.rs:468-522 | the buffered check gives the same verdict as the in-memory one under any sequence of short reads |
| StreamFormat.ScanTiles | src/services/crypto_service.rs:853-900 | the parse of segments laid end to end is those segments |
| StreamFormat.TilesScan | src/services/crypto_service.rs:853-900 | the parse ends cleanly only on a region that is exactly a tiling of the segments it returns, and it ends on any bytes |
| StreamFormat.ParseIsUnique | src/services/crypto_service.rs:853-900 | a region is a tiling of given segments exactly when the parse returns them, so the tiling is unique |
| StreamCodec.WriteSegments | src/services/crypto_service.rs:636-697 | the writing loop seals the chunks in order with counter and last flag, hashes what it writes and adds up what it read; which chunk was missing or could not be sealed otherwise |
| StreamCodec.StreamEncryptChunksToFile | src/services/crypto_service.rs:629-725 | the writer succeeds exactly when every chunk could be read, the counter suffices and the lengths add up to the promised total, and the file is then the STREAM file of the chunks; it reports a missing chunk exactly for the first one missing, a sealing failure exactly when the counter runs out first, a wrong total exactly when all could be sealed |
| StreamCodec.StopsOnce | src/services/crypto_service.rs:636-697 | a list of chunks stops the writer for one reason only, at one index |
| StreamCodec.StreamDecryptFile | src/services/crypto_service.rs:824-903 | the loop with one segment of lookahead decides every file as parse-then-open does, error for error |
| StreamCodec.ResumedIsOpenScanned | src/services/crypto_service.rs:853-903 | resumed at any offset with any held-back segment, the loop answers what opening all segments found from there answers |
| StreamCodec.StreamVerifyDecryption | src/services/crypto_service.rs:741-820 | the streaming verifier, which checks no bounds, decides every file as its own parse-then-open does |
| StreamTheorems.RoundTrip | src/services/crypto_service.rs:629-725 | reading what was written gives the concatenation of the chunks, for any chunks that fit the length prefix |
| StreamTheorems.ReadableIffChunksFit | src/services/crypto_service.rs:686-696 | with an ideal AEAD, what was written reads back exactly when no chunk with its tag reaches 2^32 bytes |
| StreamTheorems.DiskLength | src/services/crypto_service.rs:43-48 | a STREAM file is 42 bytes and 20 per chunk longer than the plaintext |
| StreamTheorems.ReaderIffVerifierOnTilings | src/services/crypto_service.rs:741-820 | the reader decrypts a file exactly when the verifier passes it and segments tile the space between header and trailer |
| StreamTheorems.VerifierAcceptsHeaderlessFile | src/services/crypto_service.rs:741-783 | magic and digest alone pass the verifier and are too small for the reader |
| StreamTheorems.SegmentNonceInjective | src/services/crypto_service.rs:38-40 | counter and last flag are recovered from a segment's nonce |
| StreamTheorems.OpenedWasWritten | src/services/crypto_service.rs:671-684 | with an ideal AEAD, a segment that opens at a position was written at that position with that last flag |
| StreamTheorems.OpenedListIsWritten | src/services/crypto_service.rs:853-900 | with an ideal AEAD, a non-empty list of segments that opens to its end is the written list |
| StreamTheorems.AcceptedIsWritten | src/services/crypto_service.rs:824-903 | a file accepted under an upload's nonce with at least one segment is byte for byte the file that was written |
| StreamTheorems.RearrangedIsRejected | src/services/crypto_service.rs:853-900 | any other non-empty segment list is rejected even with a recomputed trailer |
| StreamTheorems.EmptiedFileIsAccepted | src/services/crypto_service.rs:892-903 | a file stripped of all segments reads as the empty string |
| StreamTheorems.AcceptedIffWrittenOrEmpty | src/services/crypto_service.rs:853-903 | with an ideal AEAD exactly two segment lists are accepted under an upload's nonce, whoever computed the trailer: the written one and the empty one |
| EncryptedFile.EncryptFileBytes | src/services/crypto_service.rs:291-314 | the file is 63 bytes longer than the plaintext, carries its nonce, passes the key-free check, is not taken for a STREAM file, and reads back as the plaintext |
| EncryptedFile.EncryptAndWriteFileOwned | src/services/crypto_service.rs:540-618 | the in-place writer with detached tag and piecewise digest produces the same file, and its write-verify pass cannot fail |
| EncryptedFile.DecryptFileBytes | src/services/crypto_service.rs:330-371 | the single-shot reader's outcome for every file, error for error |
| EncryptedFile.SingleLayout | src/services/crypto_service.rs:291-371 | a single-shot file is intact, 63 bytes longer than its plaintext, and opens to it |
| EncryptedFile.OpenedSingleIsWritten | src/services/crypto_service.rs:330-371 | with an ideal AEAD, a single-shot file that opens is byte for byte the file written under its nonce |
| EncryptedFile.ReportedSize | src/services/fs_service.rs:191-198 | the reported size is the plaintext size for single-shot files; for chunked ones it is off by 20 per chunk less 21, and right only for nothing in at most one chunk |
| EncryptedFile.ReadAndDecryptFile | src/services/crypto_service.rs:951-960 | the common reader dispatches on the magic |
| EncryptedFile.ReadsWhatWasWritten | src/services/crypto_service.rs:951-960 | whichever writer produced a file, the common reader returns its plaintext |
| EncryptedFile.VerifyFileIntegrity | src/services/crypto_service.rs:923-948 | the method computes the specified status, whose meaning is the next row |
| EncryptedFile.StatusesMean | src/services/crypto_service.rs:923-948 | with or without a key, a hash mismatch exactly for files that are not some content with its own digest; without a key every other file is fine; with one exactly those are that open, and the rest failed to decrypt |
| RefusedFiles.ParsedExactly | src/services/crypto_service.rs:741-900 | the parse finds given segments and a given reason to stop exactly when the bytes of the file hold them and stop so; at most one list can be held |
| RefusedFiles.ReaderErrors | src/services/crypto_service.rs:824-903 | each error of the reader, told from the bytes: below 42 bytes, no digest of its own, another magic, then whichever comes first of a segment cut in its length, one cut in its body, and one that does not open |
| RefusedFiles.VerifierErrors | src/services/crypto_service.rs:741-820 | the same for the streaming verifier, whose segments may run into the trailer |
| RefusedFiles.SingleErrors | src/services/crypto_service.rs:330-371 | each outcome of the single-shot reader, told from the bytes |
| EncryptedFile.CleanIffReadable | src/services/crypto_service.rs:923-960 | a file can be downloaded exactly when it checks clean with the key and, if STREAM, its segments tile |
| MasterKey.UnwrapUndoesWrap | src/services/crypto_service.rs:171-224 | unwrapping a wrapped key returns it |
| MasterKey.UnwrappedWasWrapped | src/services/crypto_service.rs:193-224 | when only sealed bytes open, what unwraps to a key is exactly that key wrapped under some nonce |
| MasterKey.RunKeepsAgreement | src/services/crypto_service.rs:113-142 | in every interleaving every key returned unwraps from the stored row, and a stored row never changes |
| MasterKey.AllReturnedKeysAgree | src/services/crypto_service.rs:113-142 | any two processes that return hold the same key, now and after any further steps |
| MasterKey.RestartLoadsTheKey | src/services/crypto_service.rs:261-279 | a process that lost the race and starts again returns that key |
| MasterKey.WinnerReturnsItsKey | src/services/crypto_service.rs:113-142 | on an empty row the process whose insert comes first returns the key it generated, and the row is that key wrapped, whatever the others do meanwhile |
| MasterKey.LoserFails | src/services/crypto_service.rs:113-142 | a process whose insert found another row fails |
| MasterKey.LoadingReturnsTheRow | src/services/crypto_service.rs:113-142 | a process that finds a row returns what it unwraps to, or fails if it does not unwrap |
| KeyStore.LoadServerKeys | src/services/space_service.rs:395-430 | the loader adds exactly the key of every server-mode row that unwraps, in any row order, and counts them |
| KeyStore.NewRowAddsItsKey | src/services/library_service.rs:56-71 | a row made by wrapping a key adds that very key to what the rows unwrap to |
| KeyStore.SetupKeepsUsers | src/services/library_service.rs:56-135 | a completed setup keeps flags equal to having a library, and one library a user |
| KeyStore.StuckRowShows | src/services/library_service.rs:76-135 | a row whose undo failed belongs to a user not marked set up, and its key is in no map until a restart loads it |
| KeyStore.Server.SetupLibrary | src/services/library_service.rs:29-142 | setup succeeds exactly for a known user with neither flag nor library when no step fails; rows, flags, keys and directories after every failure and every outcome of its undo steps; consistency is kept exactly when no undo leaves the row behind |
| KeyStore.Server.CreateSpace | src/services/space_service.rs:57-173 | row, directory and key after success and after every failure and undo; consistency is kept exactly when no undo leaves the row behind |
| KeyStore.Server.DeleteSpace | src/services/space_service.rs:223-255 | a refused caller changes nothing; deletion removes row and key together, and the directory if it can |
| KeyRaces.LiveSpacesAreHeld | src/services/space_service.rs:57-255 | in every interleaving of creations and deletions, a space that was created and has its row has its key in memory |
| KeyRaces.RestartInvisibleIffNoneLate | src/services/space_service.rs:57-255 | when no call is under way, the keys in memory are those a restart loads if and only if no key was put in after the deletion of its space was through |
| KeyRaces.OvertakenCreationLeavesAKey | src/services/space_service.rs:71-100 | that happens: a deletion between a creation's insert and its last step |
| KeyStore.Server.Restart | src/services/library_service.rs:144-186 | clearing both maps and loading again gives the unwrapped rows, and from a consistent state the identical maps |
| ChunkArithmetic.FewestThatHold | src/services/chunk_service.rs:119-124 | the chunk count is the least, but at least one, whose chunks hold all bytes, as long as that fits 32 bits |
| ChunkArithmetic.ExpectedLensSum | src/services/chunk_service.rs:119-138 | the lengths demanded of an upload's chunks add up to its total, even when the count lost its high bits |
| ChunkArithmetic.LastChunkBounds | src/services/chunk_service.rs:126-138 | the last chunk is not empty, and is at most a full chunk exactly when the count fits 32 bits |
| ChunkArithmetic.SlicesTile | static/js/upload.js:391-398 | the client's slices tile the file, each with the length the server demands |
| ChunkArithmetic.ServedIsWhole | src/services/chunk_service.rs:591-637 | fetching every index gives the file, the empty one included, exactly when the count fits 32 bits |
| ChunkArithmetic.ServedIffInRange | src/services/chunk_service.rs:591-637 | an index is served exactly when it is below the count shown at the start of the download |
| ChunkArithmetic.ChunkNameInjective | src/services/chunk_service.rs:115-117 | no two indices share a staging file |
| ChunkArithmetic.ChunkNameReads | src/services/chunk_service.rs:115-117 | the name is the index in eight digits, more only from 100000000 on, and the suffix |
| ChunkArithmetic.CountUploadedChunks | src/services/chunk_service.rs:175-199 | the loop counts the chunk files of a listing, held at the largest u32 |
| ChunkArithmetic.StagedCount | src/services/chunk_service.rs:175-199 | a directory holding the files of a set of indices counts as many as there are indices |
| UploadProtocol.ApplyKeeps | src/services/chunk_service.rs:375-535 | one step of a receive, complete, cancel or clean-up keeps: staged files are prefixes of length-checked bodies created for their index, and pieces read come from such files |
| UploadProtocol.RunKeeps | src/services/chunk_service.rs:375-561 | every reachable state satisfies it |
| UploadProtocol.NoPieceIsShort | src/services/crypto_service.rs:686-703 | pieces no longer than demanded that add up to the total are each exactly as long as demanded |
| UploadProtocol.StoredPiecesAreWholeBodies | src/services/chunk_service.rs:465-535 | a complete that succeeds stored, for each index in order, the whole body of a length-checked PUT for that index |
| UploadProtocol.StoredBodyIsUnique | src/services/chunk_service.rs:421-438 | while nothing was torn down, that body is the one body ever accepted for the index |
| UploadProtocol.ProgressNeverOverstated | src/services/chunk_service.rs:449-462 | however entries are listed one by one while others stage theirs, recorded progress exceeds the staged files only while a teardown that unlinked some is unfinished |
| UploadProtocol.CompleteCanSucceed | src/services/chunk_service.rs:465-535 | from any reachable state with every chunk written and the session live, a complete can succeed |
| UploadProgress.TakenIffWelcome | src/services/chunk_service.rs:387-424 | a PUT is checked and its file made exactly when there is a row, the expiry has not come, the index is below the count and not staged, and the body has the demanded length; otherwise nothing changes |
| UploadProgress.WelcomePutIsAnswered | src/services/chunk_service.rs:375-462 | from any state at all such a PUT, left alone, is answered, with its whole body staged under its index and every staged file counted |
| UploadProgress.EveryFileIsCounted | src/services/chunk_service.rs:449-454 | a call that lists the directory undisturbed records the number of staged files, not less |
| UploadProgress.WholeUploadGoesThrough | src/services/chunk_service.rs:375-535 | from the start of any session that init accepts, PUTs of fitting bodies upload everything and a complete then stores exactly these bodies in order |
| UploadProgress.TeardownStarts | src/services/chunk_service.rs:537-667 | a cancel tears down exactly when there is a row, a clean-up when the expiry has passed, too, a complete once it has stored |
| UploadProgress.TeardownEmpties | src/services/chunk_service.rs:537-561 | a teardown that runs to its end leaves neither a staged file nor the row |
| UploadProgress.NothingIsTakenAfterTheEnd | src/services/chunk_service.rs:387-398 | once the row is gone or the expiry has come, no PUT and no complete that comes in is ever taken, in any run |
| UploadRecovery.AnyPutCanDie | src/services/chunk_service.rs:407-447 | a PUT that dies right after its file was made leaves it staged, shorter than its body |
| UploadRecovery.DeadPutBlocks | src/services/chunk_service.rs:407-424 | from then on, in every run that unlinks nothing, that index takes no PUT and no complete stores anything |
| UploadRecovery.CanFinishIffNoneDead | src/services/chunk_service.rs:375-535 | wherever a live session has got to with nothing unlinked, some continuation completes the upload if and only if no PUT died leaving an unfinished file |
| WorkerPool.ReactKeeps | static/js/upload.js:391-418 | one callback keeps: every index below the counter is confirmed or held by exactly one worker |
| WorkerPool.ClaimedByOne | static/js/upload.js:347-418 | no index is in two workers' hands, or sent again once confirmed, and no worker makes more than three attempts |
| WorkerPool.BoundedParallelism | static/js/upload.js:420-424 | at most `maxParallel` uploads are in flight |
| WorkerPool.AllDoneMeansUploaded | static/js/upload.js:376-424 | when all workers stop, each index was uploaded once, the committed bytes are the file size, and the slices tile the file with the lengths the server demands |
| PoolProgress.TwoFailuresAreForgiven | static/js/upload.js:347-362 | two transient failures are retried, and the third attempt's success confirms the chunk once |
| PoolProgress.GivingUp | static/js/upload.js:347-362 | a third transient failure and any other failure end the worker; fewer do not |
| PoolProgress.GivenUpForGood | static/js/upload.js:364-431 | with a worker that gave up, the pool never finishes in any run |
| PoolProgress.SuccessesFinish | static/js/upload.js:364-424 | a pool whose requests all succeed has finished exactly when as many have been answered as there are chunks, never more; then every index is confirmed once |
| EndToEnd.StoredPiecesAreTheFile | src/services/chunk_service.rs:465-535 | the pieces a successful complete encrypts are, end to end, the client's file |
| EndToEnd.UploadedFileReadsBack | src/services/chunk_service.rs:465-535 | if every PUT carries the slice for its index, then, however PUTs, completes, cancels and clean-ups interleave, the file a complete wrote decrypts to exactly the client's file |
| JointUpload.RunIsBothRuns | static/js/upload.js:364-445 | a run of browser and server together is a run of each, joined by requests and answers |
| JointUpload.AllDoneMeansAllThere | static/js/upload.js:411-431 | when every worker has stopped and nothing was torn down, the server has every chunk, fully written |
| JointUpload.WhateverIsStoredIsTheFile | src/services/chunk_service.rs:465-535 | however browser, server, cancels and clean-ups interleave, whatever a complete stores decrypts to the file the browser was given |
| JointUpload.FinishedUploadReadsBack | static/js/upload.js:424-431 | from there a complete on a live session can go through, and what it stores decrypts to that file |
| JointProgress.ChunkGoesThrough | static/js/upload.js:391-418 | a chunk the server has a place for is sent, staged and confirmed, and the next index is claimed |
| JointProgress.UploadGoesThrough | static/js/upload.js:364-445 | from the start of any upload both sides agree on, there is a run in which every worker finishes and a complete stores a file that decrypts to the browser's |
| JointProgress.AnyRequestCanFail | static/js/upload.js:347-362 | any request under way can be lost or refused, with the pool's reaction and nothing else |
| JointProgress.DeadChunkStopsThePool | static/js/upload.js:347-362 | a chunk whose PUT died on the server is not mended by retrying: while nothing is unlinked the pool never finishes |
| Calendar.YearOfEraIsRight | src/services/fs_service.rs:170-183 | the division formula finds the year whose days contain the given one |
| Calendar.EpochIsDayZero | src/services/fs_service.rs:170-183 | day 0 is 1 January 1970 |
| Calendar.SuccessorDay | src/services/fs_service.rs:170-183 | every day number names a date of the calendar, and the next number names the next day (month lengths of section 5.7 and leap years of Appendix C of RFC 3339) |
| Calendar.CountsBack | src/services/fs_service.rs:170-183 | counting days year by year and month by month undoes the conversion |
| Calendar.StrictlyIncreasingAndOnto | src/services/fs_service.rs:170-183 | the conversion is strictly increasing and reaches every date from 1970 on |
| Timestamps.NamesExactlyTheSecond | src/services/fs_service.rs:151-167 | a listing time reads as a date and time exactly when that is the second it was made from |
| Timestamps.ListingTimeLayout | src/services/fs_service.rs:151-167 | where in the text each number stands, and with which marks |
| Timestamps.StampInjective | src/models/session.rs:24-25 | an expiry text names one second, whatever its year |
| Timestamps.StampOrderInWidth | src/models/session.rs:24-25 | texts of years printed in equally many places are ordered as the times they name |
| Timestamps.StampOrder | src/models/session.rs:24-25 | in particular up to the year 9999 |
| Timestamps.LateStampSortsFirst | src/models/session.rs:24-25 | a text of a later year sorts before all of them |
| Timestamps.ComparableIffFourDigits | src/models/session.rs:113-125 | in a four-digit year, comparing texts tells whether a time has come exactly when that time's year has four digits |
| Timestamps.StampLayout | src/models/session.rs:24-25 | the same for the expiry texts of four-digit years |
| Sessions.BulkIsLazy | src/models/session.rs:113-135 | bulk and lazy expiry agree on a row, to the nanosecond, exactly when its expiry has a four-digit year |
| Sessions.BulkWithLateClock | src/models/session.rs:113-135 | under a clock past the year 9999, rows of four-digit years are never listed though expired, and rows whose year is as wide as the clock's are listed exactly when expired |
| Sessions.BulkIsLiveIffInYears | src/models/session.rs:113-135 | under a four-digit clock bulk expiry keeps exactly the live sessions if and only if all expiries have four-digit years |
| Sessions.ParserExists | src/models/session.rs:128-134 | a parser that reads back every text written exists |
| Sessions.CleanupSparesLiveUploads | src/services/chunk_service.rs:643-667 | upload clean-up lists a session one second after uploads stop accepting pieces, never sooner |
| Sessions.CleanupTakesLateUploads | src/services/chunk_service.rs:643-667 | a session whose expiry year has five digits or more is cleaned up while live |
| Sessions.SessionTable.Create | src/models/session.rs:18-40 | a session with any expiry is added unless its id or token is taken |
| Sessions.SessionTable.Validate | src/models/session.rs:57-73 | a token yields exactly the unexpired session that carries it; an expired one is deleted; no other row changes |
| Sessions.SessionTable.DeleteByUserAndToken | src/models/session.rs:86-99 | logout removes exactly the rows of that user and token |
| Sessions.LogoutEndsThatSessionOnly | src/models/session.rs:86-99 | after a logout that token admits no session of that user any more, and every other session is admitted as before |
| Sessions.ExpiredFromItsSecond | src/models/session.rs:128-134 | a session is expired from the second its text names on, and not a moment before |
| Sessions.SessionTable.DeleteExpired | src/models/session.rs:113-125 | the rows whose text does not come after the clock's go, and how many; under a four-digit clock these are the rows validation would refuse if and only if all expiries have four-digit years |
| SessionRuns.PresentThenPurge | src/models/session.rs:57-73 | a look-up and, at once, the deletion of what it found expired leave the rows that validation leaves |
| SessionRuns.StepsAreTheMethods | src/models/session.rs:57-125 | the steps of the runs are the methods of the table |
| SessionRuns.BulkExpiryIsInvisible | src/models/session.rs:57-125 | over whole runs in four-digit years, with any steps between a look-up and its deletion, leaving out every bulk expiry changes no answer |
| SessionRuns.AdmittedUntilItExpires | src/models/session.rs:18-73 | a new session's token admits that session, and it only, until the instant its text names, and nothing from then on |
| FileSystem.FollowIsCanonical | src/utils/path_safety.rs:111-113 | what resolution returns exists and is no link |
| FileSystem.FollowOn | src/utils/path_safety.rs:102-124 | resolving in two stages is resolving in one, allowances added |
| FileSystem.FitsIffLinksFit | src/utils/path_safety.rs:111-113 | a resolution gets by with another allowance of links exactly when the links it follows fit it |
| SafeJoin.SplitRejoins | src/utils/path_safety.rs:66-67 | splitting loses nothing but which separator was written, and leaves none in a component |
| SafeJoin.ValidateComponents | src/utils/path_safety.rs:75-77 | the loop accepts exactly when every component is valid |
| SafeJoin.SafeJoinPath | src/utils/path_safety.rs:45-157 | the checks and the walk with its growing `current` compute the recursive walk |
| SafeJoin.WalkIsOneGo | src/utils/path_safety.rs:100-146 | a walk that succeeds is one resolution of the part that exists, and the rest appended below a directory that lacks it |
| SafeJoin.JoinedIsOneResolution | src/utils/path_safety.rs:45-157 | a successful join is the one-go resolution of the longest existing part with the rest appended; it lies under the canonical root, and nothing existing on the way is a link |
| SafeJoin.OrdinaryAllowance | src/utils/path_safety.rs:100-146 | one resolution with the ordinary allowance finds what the walk found exactly when the links of all components together fit it, and otherwise gives up |
| SafeJoin.InsideIsAccepted | src/utils/path_safety.rs:100-155 | a path whose every prefix the kernel resolves inside the root is accepted, with the kernel's answer |
| SafeJoin.WalkOutlastsTheKernel | src/utils/path_safety.rs:45-157 | a text naming a link to its own directory 41 to 128 times is accepted where one resolution has too many links |
| JoinedTexts.ComponentsArePlainNames | src/utils/path_safety.rs:163-223 | the valid components: 1 to 255 bytes, no control character, no dot in front, no white space at either end |
| JoinedTexts.RefusedNames | src/utils/path_safety.rs:163-223 | a dot in front, a control character anywhere, white space at an end, more than 255 characters, or nothing, is refused whatever the rest is |
| JoinedTexts.AsciiNamesAreTaken | src/utils/path_safety.rs:163-223 | any other printable ASCII name is taken |
| JoinedTexts.EmptyRootJoinsPlainTexts | src/utils/path_safety.rs:45-157 | under an empty root the texts that join are exactly the plain ones, and they join to the root with their components behind |
| JoinedTexts.NewNamesAreTaken | src/utils/path_safety.rs:100-155 | behind a part that resolves inside the root, names that are not there yet are taken as they stand |
| JoinedTexts.WhatIsRefused | src/utils/path_safety.rs:100-146 | a name below a file, one that does not resolve, and one that resolves outside are refused |
| FileOps.JoinedExists | src/services/fs_service.rs:711-720 | a joined path exists exactly when it is an entry, and is then that very entry |
| FileOps.Library.Rename | src/services/fs_service.rs:692-745 | the method computes the specified tree and answer |
| FileOps.MovedIsPrefixSwap | src/services/fs_service.rs:736-738 | after a move the destination subtree is the source subtree, the source is vacant, the rest is unchanged |
| FileOps.RenameMovesTheSubtree | src/services/fs_service.rs:692-745 | a rename goes through exactly when the source exists, the destination does not and is not below the source, and then re-keys the subtree; a failed one changes the tree exactly when it would move an entry below itself and the directory to go into is missing, and then adds that directory's missing parts |
| FileOps.FailedRenameLeavesADirectory | src/services/fs_service.rs:728-738 | that happens: "a" to "a/b/c" is refused and leaves "a/b" |
| FileOps.RenameConserves | src/services/fs_service.rs:692-745 | whatever the answer, files and links before and after are in a content-preserving bijection |
| BulkMoves.RenameErrors | src/services/fs_service.rs:692-745 | each error of a rename: texts that do not join, a source that is missing, a destination that is there, a move below itself |
| FileOps.Library.BulkMove | src/routes/pages.rs:932-959 | the loop computes the specified tree, count and errors; an empty or oversized list changes nothing |
| FileOps.BulkMoveConserves | src/routes/pages.rs:938-954 | over all paths the composed prefix swaps are a content-preserving bijection, and successes plus errors are the number of paths |
| BulkMoves.NewPathIsInTarget | src/routes/pages.rs:944-949 | whatever directory stands in front, a path goes to its last name behind the target directory and a slash, or to that name when the target is empty |
| BulkMoves.SurroundingsDoNotMatter | src/routes/pages.rs:1883-1885 | white space around a target directory, and slashes inside that, do not matter |
| BulkMoves.NewEntryIsBelowTarget | src/routes/pages.rs:949-951 | the new path resolves to what the target directory resolves to, with the name behind it |
| BulkMoves.TurnMovesIntoTarget | src/routes/pages.rs:943-951 | a successful turn takes an existing entry, with everything below it and unchanged, to the target directory under its own name, where nothing was, and leaves its old place vacant |
| BulkMoves.BackslashNamesGoDeeper | src/routes/pages.rs:1887-1897 | a name with a backslash in it is one name to the mover and two to the path guard |
| BulkMoves.BulkMoveReportsFailures | src/routes/pages.rs:938-959 | the errors are the failed turns in order, each with its path and its reason, and the count is the other turns |
| FileOps.Library.Delete | src/services/fs_service.rs:634-683 | the method computes the specified tree and answer |
| FileOps.DeleteTakesTheSubtree | src/services/fs_service.rs:634-683 | a delete goes through exactly for an entry other than the root, and takes its subtree only |
| FileOps.Library.BulkDelete | src/routes/pages.rs:893-911 | the loop computes the specified tree, count and errors |
| FileOps.BulkDeleteTakesSubtrees | src/routes/pages.rs:893-911 | what is left is what lies under none of the entries taken; every path is counted once |
| BulkMoves.DeleteErrors | src/services/fs_service.rs:634-683 | each error of a delete |
| BulkMoves.BulkDeleteReportsFailures | src/routes/pages.rs:893-911 | the errors are the failed deletions in order, each with its path and its reason |
| TreeWalk.FoldReordered | src/services/fs_service.rs:859-871 | a fold over a directory does not depend on the order of its listing |
| TreeWalk.EntryAccounted | src/services/fs_service.rs:871-899 | counting one entry moves its weight to what is seen and what is below it to the stack |
| TreeWalk.CalculateUsage | src/services/fs_service.rs:852-907 | whatever the listing order, the stack walk ends, with bytes, files and directories equal to the recursive fold over the visible tree, each held at 2^64 - 1 |
| TreeListing.FoldIsTotal | src/services/fs_service.rs:859-899 | folding any weight over the listings of a directory sums it up over everything below that no hidden name hides |
| TreeListing.CountsWhatIsVisible | src/services/fs_service.rs:859-899 | the walk's three totals: how many files and how many directories are visible below a directory, and how many bytes those files have together |
| TreeWalk.CountEntry | src/services/fs_service.rs:871-899 | one entry is counted, saturating, or stacked, or skipped |
| TreeWalk.ScanListing | src/services/integrity_service.rs:194-276 | one listing accounts for its files, its directories' files and their events |
| TreeWalk.ScanDirectory | src/services/integrity_service.rs:169-285 | the files scanned are the files of the same fold, the failures are the files whose check fails, and the rows are one for each |
| TreeWalk.EventsAreFailures | src/services/integrity_service.rs:222-269 | there is a row for a path and kind exactly when a visible file at that path fails its check in that kind |
| TreeWalk.OneEventPerFailureInAll | src/services/integrity_service.rs:222-269 | as many rows as failing files |
| ScanKinds.KindsMean | src/services/integrity_service.rs:222-269 | a checksum mismatch is recorded exactly for files that do not end in their own digest, a truncation exactly for others that are cut short, a failed decryption for what else does not open, and nothing for the rest |
| ScanKinds.CutShortMeans | src/services/integrity_service.rs:244-250 | what cut short comes to in the bytes of the file |
| TreeWalk.DotEntriesAreSkipped | src/services/fs_service.rs:871-878 | a dot entry counts for nothing, whatever is below it |
| Permissions.QueriesCompared | src/models/space.rs:126-288 | on any tables, list and single lookup show exactly what the resolver resolves for an existing space, but the single lookup hides "none" |
| Permissions.QueriesAgree | src/models/space.rs:126-540 | with grants that refer to spaces and carry a permission, the three queries give one answer |
| Permissions.GuardIsService | src/guards/space_guard.rs:74-106 | request guard and service check decide alike, error for error |
| Permissions.DecisionsAreLevels | src/guards/space_guard.rs:74-106 | guard and service let a user pass exactly when their level is at least the one required; not found is the answer exactly at level 0, forbidden in between |
| Permissions.PassesIffEntitled | src/services/space_service.rs:467-494 | they let a user pass exactly when some party the user speaks for owns the space or has a grant that includes the permission required |
| Permissions.UnknownPermissionSplitsThem | src/services/space_service.rs:467-494 | an unknown permission would make the guard say not found and the service forbidden |
| Permissions.LevelIsBestPath | src/models/space.rs:492-540 | a user has a level exactly through a party they speak for that owns the space or has a grant of that level |
| Permissions.InsertsNeverLower | src/models/space.rs:346-378 | inserting a grant or a membership lowers nobody's level |
| AccessControl.ApplyKeeps | src/services/group_service.rs:25-267 | each step, every statement of every check apart, keeps grants, memberships and what passed checks still guarantee |
| AccessControl.RunKeeps | src/services/space_service.rs:57-367 | every reachable state satisfies it |
| AccessControl.ReachableQueriesAgree | src/guards/space_guard.rs:74-106 | in every reachable state queries, guard and service agree |
| AccessControl.ReachablePassesIffEntitled | src/services/space_service.rs:467-494 | so in every reachable state |
| AccessControl.OnlyTheCreatorOwns | src/services/group_service.rs:25-59 | a group's only owner row is its creator's, and a group with any member has it |
| AccessControl.UserOwnerStaysAdmin | src/services/space_service.rs:223-367 | a user who owns a space stays its owner and admin until it is deleted |
| AccessControl.RaisesExactly | src/services/space_service.rs:262-367 | an operation raises a user's level on a space exactly when the tables before it say so: a new grant, a changed one, a membership or an owner row through which the user comes to a higher level |
| AccessControl.RiseOpens | src/services/space_service.rs:262-367 | a step of a run raises a level exactly when it performs such an operation |
| AccessControl.EveryCallWasVetted | src/services/space_service.rs:467-485 | a request that may proceed passed its first check at an earlier step, on the tables of that moment |
| AccessControl.LevelsRiseByAuthority | src/services/group_service.rs:145-267 | a rise goes back to an earlier check passed by an admin of the space, or by an owner or manager of a group with a stake in it, or to the user's own creation of such a group |
| AccessControl.SecondInsertsRaiseNobody | src/services/group_service.rs:25-59 | in a run that gives no stake to a group before its creator's row is in, the last of these never happens |
| AccessControl.HalfMadeGroupRaisesItsCreator | src/services/group_service.rs:25-59 | otherwise it does: a grant between the two inserts |
| AccessAuthority.ChecksAreMayDo | src/services/space_service.rs:223-367 | the checks of each operation pass exactly when its caller may do it, in terms of levels, roles and creators |
| AccessAuthority.AloneTakesEffectIffAllowed | src/services/group_service.rs:105-267 | after any run, a request that nothing comes between takes effect exactly when its caller may make it; otherwise no row changes |
| AccessAuthority.EffectIsMade | src/services/space_service.rs:223-367 | which rows each operation leaves, row by row |
| AccessAuthority.EveryCheckWasPassed | src/services/space_service.rs:467-485 | a request that has got past a check passed it at an earlier step, on the tables of that moment |
| AccessAuthority.SpacesGoByAdmins | src/services/space_service.rs:223-255 | a space that goes in a run was deleted by somebody who was its admin when checked, at an earlier step |
| AccessAuthority.GrantsChangeByAdmins | src/services/space_service.rs:262-367 | a grant that appears, changes or goes goes back to an admin of its space |
| AccessAuthority.GroupsGoByTheirCreators | src/services/group_service.rs:105-131 | a group that goes was deleted by its creator |
| AccessAuthority.RolesChangeByRight | src/services/group_service.rs:145-267 | a membership that appears, changes or goes goes back to an owner or manager, the member, or the creator, as the operation demands |
| AccessAuthority.MembershipsEndByRight | src/services/group_service.rs:199-267 | a membership that ends was ended by an owner or manager, by the member, or with the group by its creator |
| AccessAuthority.LevelsFallByAuthority | src/services/space_service.rs:223-367 | a user's level on a space falls in a run only by an admin's deleting the space or cutting a grant, or by a membership's end, each checked at an earlier step |
| AccessAuthority.CreatorIsAdmin | src/services/space_service.rs:57-100 | creating a space makes its creator its admin and leaves everybody else without access |
| AccessAuthority.MembersAreAdmins | src/services/space_service.rs:117-178 | creating one for a group makes the group's members its admins and leaves everybody else without access |
| AccessAuthority.CreatorHeadsTheGroup | src/services/group_service.rs:25-59 | creating a group makes its creator its owner and only member |
| RateLimit.RateLimiter.Check | src/services/rate_limit.rs:19-34 | the answer and the whole new table |
| RateLimit.SpanIsBounded | src/services/rate_limit.rs:19-34 | less than window + 1 seconds hold at most twice the limit less one accepts for a key |
| RateLimit.BoundIsMet | src/services/rate_limit.rs:19-34 | that many happen within one nanosecond |
| RateLimit.SlidesIffLimitIsOne | src/services/rate_limit.rs:8-34 | no span of a lifetime ever holds more than the limit if and only if the limit is one |
| RateLimit.RejectionIsEarned | src/services/rate_limit.rs:19-34 | a rejection follows at least the limit of accepts less than window + 1 seconds old |
| RateLimit.OtherKeysIrrelevant | src/services/rate_limit.rs:19-34 | a key's entry depends on that key's calls only |

## Left out

- Real AES-GCM, SHA-256, HMAC, Argon2, base64, random numbers and UUIDs: abstract functions with laws, or fresh values passed in.
- Forgery and hash collisions: premises of the authenticity theorems, not consequences.
- HTTP routes, templates, cookies, CSRF, error messages and logging; errors are kinds, and error texts appear only where code inspects them.
- SQL as a language: tables are maps by primary key, queries are set expressions, each statement is one atomic step.
- Operating-system failures: unreadable entries, partial writes that lose data, fsync and other programs changing the tree during a call. Failure of a step is modelled for uploads, the master key, setup and space creation only.
- UploadProtocol.StoredPiecesAreWholeBodies: one upload session with a chunk size that never changes; requests with a wrong user or target are turned away before any step. One completed write per destination at a time.
- JointUpload.FinishedUploadReadsBack: only the pool's workers send chunks to the session, and the page's chunk size is the server's. The complete request itself is a step of the server.
- WorkerPool.AllDoneMeansUploaded: byte counts are exact integers (in the browser they are exact to 2^53); progress bars, the rest of the page and the order of the cancel request are not modelled.
- Calendar.SuccessorDay: day numbers are at most 2^64 / 86400, so the 64-bit arithmetic of the source does not overflow and is not bounded here.
- SafeJoin.JoinedIsOneResolution: the tree does not change during the call, a resolution follows at most 40 links, and a link target is a list of components.
- FileOps.RenameConserves: one request at a time; `create_dir_all` and `rename` succeed when POSIX lets them.
- BulkMoves.TurnMovesIntoTarget: names with a backslash in them, for which `BulkMoves.BackslashNamesGoDeeper` shows that they land elsewhere, are not followed to the entry they become.
- UploadRecovery.CanFinishIffNoneDead: from states in which a teardown has unlinked something the upload is not followed further.
- TreeWalk.ScanDirectory: inserting an event row always succeeds, counters are unbounded, and the check of a file is a function of its bytes.
- KeyStore.Server.SetupLibrary: setups run one after the other; for spaces, overlapping calls are in `KeyRaces`. The content of the metadata file is not modelled.
- AccessControl.LevelsRiseByAuthority: look-ups that only prevent an operation (user names, unique group names) are left out, so the runs covered are a superset; removal of user accounts is not modelled.
- Sessions.BulkWithLateClock: years past 9999 printed in different numbers of places are not compared.
- SessionRuns.BulkExpiryIsInvisible: clock and expiries in four-digit years, where the two tests agree; ids and tokens are never used twice.
- RateLimit.SpanIsBounded: the limit of a key is the same in all its calls and at least 1, and the clock does not run back.
- The copies of the file operations for spaces: the same bodies with another root and key map; the root is a parameter here.
- Download tokens, quotas, listing, directory creation, user accounts and format helpers: single-branch checks or plumbing.
- Background loops: timers that call the modelled clean-up and scan.
