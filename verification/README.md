# Verified model of the playback, lyrics and session core

This project models the parts of the Fura music core whose guarantees span whole runs or whole
documents, and proves those guarantees.

- **Lyric alignment** (`LyricAlignment*.dfy`). Auxiliary lyric rows are grouped by time, exact times become
  anchors, and the gaps between anchors are filled by mutual unique nearest neighbours. `LyricAlignmentSpec`
  says declaratively which row belongs to which original; the array algorithm is proved against it and the
  guarantees are proved of it. `LyricAlignmentInputs` tells the answer from lines and rows alone.
- **Session owner** (`Session*.dfy`, `AuthOwner.dfy`). A transition system: every locked section is one step,
  every await is a point where any other event may come first, and a set of operations in flight carries the
  generation each began in. Network answers are arbitrary. `AuthOwner` is the owner as a class, one method per
  locked section, each proved to make the step the transition system makes.
  `SessionEndings` and `SessionAnswers` say what ends a login for good and what each answer leads to.
- **Media cache** (`MediaCache*.dfy`), used by the session model and proved on its own over whole runs.
- **Playback queue** (`PlaybackQueue*.dfy`). All operations, sequential and shuffled, with the generator's
  64-bit arithmetic in the class and arbitrary draws in the theorems.
- **Byte checks**: Ogg pages with their checksum (`OggCrc`, `OggBits`, `OggPage`; section 6 of RFC 3533), MP4 boxes and
  AAC descriptions (`ByteWords`, `BoxParser`, `Descriptor`, `AacContainer`; section 4.2 of ISO/IEC 14496-12) and MP3 frames
  (`Mp3Prefix`). `OggFile`, `AacMovie` and `Mp3Frames` write out, byte by byte, exactly what each check accepts.
- **Word-timed lyrics** (`Yrc*.dfy`): parser, printer, round trip, normal form, the grammar of a line and the account of
  a document's rows.
- **One-shot admission** (`OneShot*.dfy`): budgets over every interleaving of clearing, dropping and answering.
- **Recent listening** (`RecentListening*.dfy`): what enters the history and how a choice is weighed.

Specification modules hold the values and theorems about them, modules named after theorems, inputs, rows or files say
what the specification comes to without naming its functions, and the modules named after the component hold the
class or the loops. Check everything with `dafny verify dfyconfig.toml`.

## What the proofs say about the code

- The comment on the alignment promises a monotonic result. The code gives one exactly when the originals that are
  met exactly increase in time (`IncreasingIffExactOriginalsIncrease`); in a document out of order the exact matches
  are kept although they cross (`CrossingAnchorsRunBackwards`).
- The tie flag of an auxiliary row is sticky: an equal distance of two earlier originals keeps a strictly nearer
  later one from being chosen (`RepeatedOriginalsHideNearest`). `AcceptedIff` is the exact condition.
- The guard that discards a crossing batch of near pairs can never discard one (`AcceptedIncrease`).
- The cached liked set can silently disagree with the server when the future of a write is dropped
  (`DroppedWriteBreaksAgreement`); `DroppedWriteAgreesIff` says exactly when it cannot. It can also disagree when a
  write that failed for lack of network lands only after the set was reloaded (`LateWriteBreaksAgreement`): a load is
  safe exactly when its answer shows every write of the account still unsettled (`LoadAgreesIff`). The same is said
  of beginning a write (`NewWriteAgreesIff`) and of recording one (`RecordedWriteAgreesIff`); all rest on
  `AgreesEverAfterIff`.
- An operation whose generation has ended no longer reaches the session, with one exception: a media request takes
  its generation again when it is sent, so one begun before a replacement and sent after it acts for the new session,
  and its refusal ends that session (`StaleEventLeavesSession`, `LateRejectionEndsNewSession`).
- In the one-shot owner a call started with a token really held can only be refused as replaced. The refusals for
  a spent budget and for a halt guard against states that no run reaches with a token out
  (`HeldTokensAreOnlyReplaced`).

## Model

| member | source | states |
|---|---|---|
| LyricAlignmentMain.AlignAuxiliaryLyricTrack | crates/provider-api/src/lyric_alignment.rs:108-172 | on every input the assignments and all statistics are those of the declarative specification `Aligned`: exact anchors, then mutual unique nearest pairs inside the gaps between anchors, everything else ambiguous or unmatched |
| LyricAlignmentMain.IndexOriginals | crates/provider-api/src/lyric_alignment.rs:118-121 | the table lists, for every start, exactly the indexes of the originals with it, in order |
| LyricAlignmentMain.PinExact | crates/provider-api/src/lyric_alignment.rs:123-140 | a group is pinned exactly when it is not conflicting and its start belongs to one original only; conflicting groups and repeated originals are marked ambiguous |
| LyricAlignmentMain.SortAnchors | crates/provider-api/src/lyric_alignment.rs:141-141 | the anchors in increasing order of original, none lost or added |
| LyricAlignmentMain.MonotoneIffIncreasing | crates/provider-api/src/lyric_alignment.rs:143-144 | on sorted anchors the pairwise window test decides whether any two exact matches cross |
| LyricAlignmentMain.AlignNearSegments | crates/provider-api/src/lyric_alignment.rs:246-280 | after the walk over the anchors every gap between neighbouring anchors, and both outer ones, holds its specified pairs and refusals |
| LyricAlignmentMain.RefuseNearMatches | crates/provider-api/src/lyric_alignment.rs:153-161 | with crossing anchors the remaining groups become ambiguous, which is what the specification says of them |
| LyricAlignmentMain.CountRemaining | crates/provider-api/src/lyric_alignment.rs:163-169 | ambiguous and unmatched counters are the saturated sums of the source rows of the groups with that fate |
| LyricAlignmentMain.AnchorsCountOriginals | crates/provider-api/src/lyric_alignment.rs:132-137 | the number of anchors is the number of originals with an exact match |
| LyricAlignmentGroups.GroupAuxiliaryRows | crates/provider-api/src/lyric_alignment.rs:174-209 | the groups partition the rows by start in increasing time; each stands for its smallest row index, counts its rows, and is conflicting exactly when two of its texts differ; deduplicated rows are counted |
| LyricAlignmentGroups.PopulateDeltaBuckets | crates/provider-api/src/lyric_alignment.rs:211-244 | each bucket counts the groups whose least distance to any original lies in its range, although only the two neighbours in sorted order are compared |
| LyricAlignmentGaps.ScanGap | crates/provider-api/src/lyric_alignment.rs:306-382 | the double scan ends with exactly the specified pairs of the gap accepted, in order of original, and with the candidate flag of exactly the groups that have one |
| LyricAlignmentGaps.AcceptMutual | crates/provider-api/src/lyric_alignment.rs:366-382 | the accepted pairs are exactly the specified pairs of the gap, in order of original |
| LyricAlignmentGaps.AcceptedIncrease | crates/provider-api/src/lyric_alignment.rs:401-401 | the accepted pairs always have strictly increasing group indexes, so the monotonicity guard never discards a batch |
| LyricAlignmentGaps.FinalizeNearCandidates | crates/provider-api/src/lyric_alignment.rs:393-414 | accepted pairs are assigned and counted; every other group that had a candidate becomes ambiguous |
| LyricAlignmentGaps.AlignNearSegment | crates/provider-api/src/lyric_alignment.rs:282-391 | one gap ends in its specified state, and nothing outside the gap changes |
| LyricAlignmentTheorems.NonCrossing | crates/provider-api/src/lyric_alignment.rs:294-401 | two pairs of mutual unique nearest neighbours inside one gap never cross and never share a group (exchange argument on absolute differences) |
| LyricAlignmentTheorems.PairsAreOneToOne | crates/provider-api/src/lyric_alignment.rs:99-106 | on any input no original takes two groups and no group serves two originals, across gaps and anchors |
| LyricAlignmentTheorems.PairsAreOrdered | crates/provider-api/src/lyric_alignment.rs:246-280 | with monotone anchors all pairs, exact and near, increase together |
| LyricAlignmentTheorems.PairsAreClose | crates/provider-api/src/lyric_alignment.rs:312-329 | every pair lies within the tolerance |
| LyricAlignmentTheorems.AlignmentIsSafe | crates/provider-api/src/lyric_alignment.rs:99-172 | for any two assigned originals: distinct row indexes in range, both within the tolerance, and increasing times when the exact anchors are monotone |
| LyricAlignmentTheorems.IncreasingIffAnchorsMonotone | crates/provider-api/src/lyric_alignment.rs:99-106 | the attached times increase along the originals if and only if the exact anchors do not cross: the exact condition under which the documented monotonicity holds |
| LyricAlignmentTheorems.IncreasingIffExactOriginalsIncrease | crates/provider-api/src/lyric_alignment.rs:99-106 | for every result of the alignment the same in terms of the input alone: the times increase if and only if the originals that are met exactly do, being the only one at their time and met by rows of one text |
| LyricAlignmentTheorems.CrossingAnchorsRunBackwards | crates/provider-api/src/lyric_alignment.rs:153-161 | on the originals 2000, 1000 and rows at 1000 and 2000 every result of the alignment runs backwards |
| LyricAlignmentTheorems.AcceptedIffMutuallyNearest | crates/provider-api/src/lyric_alignment.rs:306-382 | with strictly increasing originals in the gap a near pair is accepted exactly when each is the other's unique nearest eligible candidate |
| LyricAlignmentTheorems.AcceptedIff | crates/provider-api/src/lyric_alignment.rs:306-382 | for any gap the exact condition of acceptance: ordered originals, mutual unique nearest, and no pair of earlier candidates at one equal distance (the sticky tie) |
| LyricAlignmentTheorems.RepeatedOriginalsHideNearest | crates/provider-api/src/lyric_alignment.rs:348-362 | on the originals 0, 0, 10, one row at 11 and tolerance 20 every result of the alignment leaves the row unattached, although it and the last original are each other's unique nearest in their gap |
| LyricAlignmentTheorems.MatchedIsNotAmbiguous | crates/provider-api/src/lyric_alignment.rs:163-169 | no matched group is ever counted ambiguous |
| LyricAlignmentTheorems.RowAccounting | crates/provider-api/src/lyric_alignment.rs:163-169 | below 2^32 rows: rows of matched groups plus ambiguous plus unmatched rows are all auxiliary rows |
| LyricAlignmentTheorems.MatchAccounting | crates/provider-api/src/lyric_alignment.rs:135-135 | below 2^32 rows: exact plus near matches is the number of assigned originals |
| LyricAlignmentOrder.ExactlyOneBucket | crates/provider-api/src/lyric_alignment.rs:222-242 | with any original present the least distance of a group falls in exactly one bucket |
| LyricAlignmentOrder.BucketsPartitionGroups | crates/provider-api/src/lyric_alignment.rs:221-243 | the six bucket counts add up to the number of groups |
| LyricAlignmentOrder.PermutedGroupsAgree | crates/provider-api/src/lyric_alignment.rs:174-209 | permuted rows give the same groups up to the index of the representing row |
| LyricAlignmentOrder.OrderIndependence | crates/provider-api/src/lyric_alignment.rs:108-172 | permuting the auxiliary rows changes no statistic and neither time nor text attached to any original |
| LyricAlignmentSteps.OriginalScanEnds | crates/provider-api/src/lyric_alignment.rs:324-346 | the running best and tie of one original decide whether a unique nearest group exists and which |
| LyricAlignmentSteps.GroupScanEnds | crates/provider-api/src/lyric_alignment.rs:348-362 | the running choice and sticky tie of one group, fed original by original, decide its nearest original in the specified sense |
| SessionTheorems.RunKeepsInvariant | crates/provider-netease/src/auth.rs:32-182 | over every interleaving of the modelled operations the invariant on the session, the operations in flight, the locks and the media cache holds |
| SessionTheorems.CredentialExclusivity | crates/provider-netease/src/auth.rs:104-153 | in every reachable state at most one of active account, pending credential and challenge is present |
| SessionTheorems.CachedDataIsTheActiveAccounts | crates/provider-netease/src/auth.rs:155-182 | in every reachable state the cached liked playlist, liked set and recent history are the active account's own |
| SessionTheorems.SingleFlight | crates/provider-netease/src/auth.rs:1048-1064 | at most one liked-set load and at most one media resolution are ever in flight |
| SessionTheorems.DeliveredLikedBelongsToActive | crates/provider-netease/src/auth.rs:1024-1104 | a liked set handed to a caller is the one cached, fetched for the account still active, in the caller's own generation |
| SessionTheorems.DeliveredMediaIsFresh | crates/provider-netease/src/catalog.rs:497-554 | a source returned under a generation was requested and answered within it, and that generation is current |
| SessionFencing.StaleEventLeavesSession | crates/provider-netease/src/auth.rs:77-182 | whatever event hits an operation after the generation it began in ended (answer, lock, recheck, advance, cancel, close, abandonment), session, cache and ownership of cached data stay as they are, if and only if it is not the refusal of a media request that was sent only in the generation now current |
| SessionFencing.StaleOutcome | crates/provider-netease/src/auth.rs:92-98 | the caller of such an operation is told that the session was replaced, that its QR attempt timed out, or, advancing a finished attempt or getting an answer that does not fit, nothing; only a media request sent in the generation now current reports its own failure |
| SessionFencing.StaleForever | crates/provider-netease/src/auth.rs:117-139 | for as long as an operation is in flight, over any run, its generation is fixed and stays over once over, so the two statements above hold of every later event on it |
| SessionFencing.BirthIsFixed | crates/provider-netease/src/auth.rs:99-103 | an operation in flight throughout a run keeps the generation it began in |
| SessionFencing.LateRejectionEndsNewSession | crates/provider-netease/src/auth.rs:1299-1324 | a concrete run: a media request begun before an import and sent after it is refused, and that discards the imported candidate |
| SessionTheorems.RunNeverLowersGeneration | crates/provider-netease/src/auth.rs:77-88 | the generation never falls over any run |
| SessionTheorems.ActivationNeedsVerification | crates/provider-netease/src/auth.rs:140-153 | an account becomes active only by the verdict on its own credential, awaited in the generation still current |
| SessionTheorems.StepKeepsInvariant | crates/provider-netease/src/auth.rs:289-721 | every single event keeps the invariant |
| SessionTheorems.QrConfirmedIsLocal | crates/provider-netease/src/auth.rs:669-683 | confirmation of a QR poll retains its credential without a bump, and still only this attempt's own operation and the empty session change |
| SessionTheorems.LocalKeeps | crates/provider-netease/src/auth.rs:104-116 | an event confined to one operation and the session keeps the facts about every other operation in flight |
| SessionTheorems.GetIsFresh | crates/provider-netease/src/catalog.rs:509-515 | a cache lookup returns only sources fetched wholly within the generation asked for |
| SessionAgreement.LikedSetAgreesWithServer | crates/provider-netease/src/auth.rs:155-182 | after every run in which writes and loads do not overlap, answers are truthful, a write is given up only where the cached set shows its outcome, a new write does not reverse one given up and unsettled, and a load's answer shows those: with no write in flight the cached liked set is the server's or marked for refresh, whenever the server applies or loses what was given up |
| SessionAgreement.RunAgrees | crates/provider-netease/src/auth.rs:932-963 | the agreement, with its account of the one write in flight and of the writes given up that the server may still apply, holds after every such run |
| SessionAgreement.WriteAnswered | crates/provider-netease/src/auth.rs:936-962 | any truthful answer to a write, success or failure, leaves the cache in agreement |
| SessionAgreement.LoadAnswered | crates/provider-netease/src/auth.rs:1072-1103 | any answer to a load leaves the cache in agreement |
| SessionAgreement.SettleAgrees | crates/provider-netease/src/auth.rs:932-963 | the server applying, or losing, a write whose caller is gone keeps the agreement, at any later time |
| SessionAgreement.DroppedWriteAgreesIff | crates/provider-netease/src/auth.rs:932-963 | giving up a write of the current session, applied or not, leaves the cached set right over every honest continuation, late application included, if and only if nothing usable is cached or it already shows the outcome |
| SessionAgreement.AgreesEverAfterIff | crates/provider-netease/src/auth.rs:155-182 | with no write or load in flight, the cached set stays right over every honest continuation if and only if it is right now and shows every write given up that the server may still apply |
| SessionAgreement.LoadAgreesIff | crates/provider-netease/src/auth.rs:1072-1103 | storing what the server truthfully answers to a load is safe over every honest continuation if and only if the answer shows every write of the account that was given up and is unsettled |
| SessionAgreement.RecordedWriteAgreesIff | crates/provider-netease/src/auth.rs:944-948 | recording an applied write is safe over every honest continuation if and only if no unsettled write of the account would change the recorded set |
| SessionAgreement.NewWriteAgreesIff | crates/provider-netease/src/auth.rs:932-943 | beginning a write is safe over every honest continuation if and only if no unsettled write of the account may reverse it in a cached set that is relied on |
| SessionDroppedWrite.LateWriteBreaksAgreement | crates/provider-netease/src/auth.rs:946-962 | a concrete run: a write fails for lack of network, the set is reloaded, and then the server applies the write: the cache answers without the track and without a refresh mark |
| SessionDroppedWrite.DroppedWriteBreaksAgreement | crates/provider-netease/src/auth.rs:932-963 | a concrete run: the server holds the track, the write's future is dropped, and the cache answers without the track and without a refresh mark |
| SessionProgress.ImportSignsIn | crates/provider-netease/src/auth.rs:293-353 | from any state, importing and verifying a credential ends signed in with nothing left over |
| SessionProgress.SmsSignsIn | crates/provider-netease/src/auth.rs:394-484 | from any state, asking for a code and redeeming it ends signed in |
| SessionProgress.QrSignsIn | crates/provider-netease/src/auth.rs:510-719 | from any state, opening a QR attempt and confirming it ends signed in |
| SessionProgress.EndingForgets | crates/provider-netease/src/auth.rs:77-153 | after ending or replacing a session nothing but the counters depends on what was there before |
| SessionProgress.WaiterJoinsLoad | crates/provider-netease/src/auth.rs:1049-1064 | a caller waiting on the load lock is answered by the finished load, even when it asked for a forced refresh |
| SessionProgress.CachedSetIsServed | crates/provider-netease/src/auth.rs:1031-1063 | one load answers every later unforced caller, new or waiting for the lock, with the loaded set, over any run until the session is replaced, a write or load is answered or a refresh is asked for |
| SessionProgress.MarkedSetIsReloaded | crates/provider-netease/src/auth.rs:1019-1022 | after a refresh request the next unforced caller loads anew |
| SessionProgress.LatestRecentRequestWins | crates/provider-netease/src/auth.rs:876-886 | of two requests for the recent history only the later one is stored, whichever is answered first |
| SessionProgress.ThirdFailureEnds | crates/provider-netease/src/auth.rs:651-658 | a QR attempt outlives two network failures in a row and ends with the third |
| SessionProgress.WaitingForgivesFailures | crates/provider-netease/src/auth.rs:665-668 | an answered poll starts the count of failures again |
| AuthOwner.AuthOwner.Bump | crates/provider-netease/src/auth.rs:77-88 | one generation later; recent history, liked set and refresh mark dropped, revision moved with wrap-around |
| AuthOwner.AuthOwner.Snapshot | crates/provider-netease/src/auth.rs:99-103 | generation and account exactly when an account is active |
| AuthOwner.AuthOwner.RetainPending | crates/provider-netease/src/auth.rs:104-116 | the credential is kept exactly in its own generation, in place of account and challenge |
| AuthOwner.AuthOwner.RejectCredential | crates/provider-netease/src/auth.rs:126-137 | a rejected credential ends the session of exactly the generation that used it |
| AuthOwner.AuthOwner.Install | crates/provider-netease/src/auth.rs:140-153 | the verified account becomes active exactly in the generation that verified it, and a new generation begins |
| AuthOwner.AuthOwner.ApplyLikedDelta | crates/provider-netease/src/auth.rs:155-173 | the cached set, if any, gains or loses the track, in the writer's generation only |
| AuthOwner.AuthOwner.MarkLikedMembershipRefresh | crates/provider-netease/src/auth.rs:174-182 | marks exactly a cached set of this generation |
| AuthOwner.AuthOwner.ImportCredential | crates/provider-netease/src/auth.rs:293-303 | a new generation with only the imported candidate |
| AuthOwner.AuthOwner.CancelPendingCredentialVerification | crates/provider-netease/src/auth.rs:364-371 | ends the verification but keeps the candidate; false and no change without one |
| AuthOwner.AuthOwner.BeginLogin | crates/provider-netease/src/auth.rs:399-407 | a new generation with nothing present, which it returns |
| AuthOwner.AuthOwner.StoreChallenge | crates/provider-netease/src/auth.rs:413-418 | the challenge is kept only in the generation that asked for it |
| AuthOwner.AuthOwner.CancelSmsAuthentication | crates/provider-netease/src/auth.rs:486-492 | challenge and candidate removed, new generation, and whether either was there |
| AuthOwner.AuthOwner.SignOut | crates/provider-netease/src/auth.rs:554-561 | a new generation with nothing present |
| AuthOwner.AuthOwner.EndGeneration | crates/provider-netease/src/auth.rs:574-580 | a new generation only if the attempt's own is still current |
| AuthOwner.AuthOwner.StoreLikedPlaylist | crates/provider-netease/src/auth.rs:781-787 | the liked playlist is stored only in its own generation |
| AuthOwner.AuthOwner.BeginRecent | crates/provider-netease/src/auth.rs:857-860 | the new request replaces any earlier one and the old snapshot |
| AuthOwner.AuthOwner.StoreRecent | crates/provider-netease/src/auth.rs:876-887 | a snapshot is stored only by the latest request of the current generation |
| AuthOwner.AuthOwner.StoreLikedMembership | crates/provider-netease/src/auth.rs:1091-1103 | a loaded set is stored only in its own generation, unmarked, with a new revision |
| AuthOwner.AuthOwner.PeekLikedMembership | crates/provider-netease/src/auth.rs:1031-1046 | a usable cached set or the revision seen |
| AuthOwner.AuthOwner.RecheckLikedMembership | crates/provider-netease/src/auth.rs:1050-1063 | after the lock: also a set stored meanwhile answers |
| SessionCalls.StepIsACall | crates/provider-netease/src/auth.rs:63-182 | every step of the protocol moves the session by at most one of the owner's calls |
| SessionCalls.MarksStandOnData | crates/provider-netease/src/auth.rs:77-182 | over every run a refresh mark stands on a cached liked set only, and a snapshot of the history on the request it answered |
| AuthOwner.Make | crates/provider-netease/src/auth.rs:63-182 | each call moves the object's fields as the protocol's step does |
| AuthOwner.Replay | crates/provider-netease/src/auth.rs:63-182 | a fresh owner on which the calls of any run are made is in the state the protocol reaches, and holds at most one of account, candidate and challenge |
| AuthOwner.QrSession.Finish | crates/provider-netease/src/auth.rs:600-603 | finished, and the cancellation handle is spent |
| AuthOwner.QrSession.Advance | crates/provider-netease/src/auth.rs:631-640 | polls only when unfinished, before the deadline and in its own generation |
| AuthOwner.QrSession.Answer | crates/provider-netease/src/auth.rs:641-719 | what an answer does to attempt and session together: third network failure, expiry, rejection and confirmation each end the attempt |
| AuthOwner.QrSession.Cancel | crates/provider-netease/src/auth.rs:571-580 | works once, and bumps only the attempt's own generation |
| AuthOwner.QrSession.Drop | crates/provider-netease/src/auth.rs:606-616 | an unfinished attempt ends its own generation and no other |
| PlaybackQueueSpec.Run | crates/music-domain/src/playback_queue.rs:21-29 | after any commands, each with any random draws: the current index is in range exactly when the queue is not empty, and in shuffle the order is a permutation whose cursor entry is the current index |
| PlaybackQueueSpec.PreviewsAreExact | crates/music-domain/src/playback_queue.rs:127-149 | has-next and has-previous say exactly what advance and rewind answer, and a refused move changes nothing |
| PlaybackQueueSpec.RewindUndoesAdvance | crates/music-domain/src/playback_queue.rs:195-243 | one rewind restores the exact state before any advance that began no new shuffle cycle |
| PlaybackQueueSpec.AdvanceUndoesRewind | crates/music-domain/src/playback_queue.rs:195-243 | one advance restores the exact state before any rewind that did not wrap a cycle |
| PlaybackQueueSpec.RemovalKeepsCurrentTrack | crates/music-domain/src/playback_queue.rs:336-366 | removing another position keeps the same track current |
| PlaybackQueueSpec.RemovalOfCurrentSelectsNeighbour | crates/music-domain/src/playback_queue.rs:336-366 | removing the current position selects the next track, else the one before, else none |
| PlaybackQueueSpec.NavigationKeepsTracks | crates/music-domain/src/playback_queue.rs:195-256 | no run of navigation and mode commands changes the tracks |
| PlaybackQueueSpec.EveryLapIsAPermutation | crates/music-domain/src/playback_queue.rs:375-446 | repeat-all shuffle: every block of n positions from a cycle start plays each position once, for any draws |
| PlaybackQueueSpec.NoImmediateReplay | crates/music-domain/src/playback_queue.rs:428-437 | repeat-all shuffle over two or more tracks: no advance, also across laps, replays the position just played |
| PlaybackQueueSpec.FiniteCycleEnds | crates/music-domain/src/playback_queue.rs:375-391 | without repeat-all exactly n - 1 advances of a cycle succeed and walk it in order |
| PlaybackQueueSpec.ShuffledIsPermutation | crates/music-domain/src/playback_queue.rs:439-446 | the in-place shuffle yields a permutation for any draws |
| PlaybackQueueSpec.RebuiltIsPermutation | crates/music-domain/src/playback_queue.rs:411-426 | a rebuilt cycle is a permutation that starts at the current position |
| PlaybackQueueSpec.NextCycleFacts | crates/music-domain/src/playback_queue.rs:428-437 | the next cycle is a permutation and never starts with the position just played when there is another |
| PlaybackQueue.PlaybackQueue.WithShuffleSeed | crates/music-domain/src/playback_queue.rs:41-51 | an empty sequential queue; a zero seed is replaced |
| PlaybackQueue.PlaybackQueue.NextShuffleU64 | crates/music-domain/src/playback_queue.rs:448-455 | one splitmix64 value and its next state, in 64-bit wrap-around arithmetic |
| PlaybackQueue.PlaybackQueue.ShufflePositions | crates/music-domain/src/playback_queue.rs:439-446 | the order becomes the specified Fisher-Yates result of its former contents and the drawn values, by swaps in place |
| PlaybackQueue.PlaybackQueue.RebuildShuffleCycle | crates/music-domain/src/playback_queue.rs:411-426 | order and cursor as specified, one draw per swap consumed |
| PlaybackQueue.PlaybackQueue.StartNextShuffleCycle | crates/music-domain/src/playback_queue.rs:428-437 | the next cycle, with the first position exchanged when it would repeat |
| PlaybackQueue.PlaybackQueue.Replace | crates/music-domain/src/playback_queue.rs:79-90 | validated replacement; an invalid position changes nothing, the generator included |
| PlaybackQueue.PlaybackQueue.SetOrder | crates/music-domain/src/playback_queue.rs:151-160 | order changed and a cycle built or dropped; the generator moves by its draws, and not when nothing changed |
| PlaybackQueue.PlaybackQueue.SetRepeatMode | crates/music-domain/src/playback_queue.rs:162-168 | only the repeat mode changes |
| PlaybackQueue.PlaybackQueue.Select | crates/music-domain/src/playback_queue.rs:176-189 | selection and its errors, restarting the cycle in shuffle; the generator moves only then |
| PlaybackQueue.PlaybackQueue.Advance | crates/music-domain/src/playback_queue.rs:195-214 | the specified move and whether it moved, in both orders and all repeat modes |
| PlaybackQueue.PlaybackQueue.Rewind | crates/music-domain/src/playback_queue.rs:220-243 | the specified move back and whether it moved |
| PlaybackQueue.PlaybackQueue.CompleteCurrent | crates/music-domain/src/playback_queue.rs:246-256 | what completion does under each repeat mode, and to the generator |
| PlaybackQueue.PlaybackQueue.Push | crates/music-domain/src/playback_queue.rs:259-276 | the track appended; first track becomes current; the generator moves by the draws of the rebuilt cycle |
| PlaybackQueue.PlaybackQueue.Extend | crates/music-domain/src/playback_queue.rs:282-302 | all tracks appended in order; an empty batch is refused and changes nothing, the generator included |
| PlaybackQueue.PlaybackQueue.ExtendAndAdvanceFromTerminal | crates/music-domain/src/playback_queue.rs:308-330 | continuation only from the terminal position; a refusal changes nothing, the generator included |
| PlaybackQueue.PlaybackQueue.Remove | crates/music-domain/src/playback_queue.rs:336-366 | removal, the removed track and whether it was current, and the generator after the rebuilt cycle |
| PlaybackQueue.PlaybackQueue.Clear | crates/music-domain/src/playback_queue.rs:368-373 | nothing left but the modes |
| PlaybackQueue.PlaybackQueue.HasNext | crates/music-domain/src/playback_queue.rs:136-149 | the preview of advance |
| PlaybackQueue.PlaybackQueue.HasPrevious | crates/music-domain/src/playback_queue.rs:127-134 | the preview of rewind |
| MediaCacheSpec.CacheInvariant | crates/provider-api/src/media_cache.rs:29-85 | after every run: at most 16 entries, distinct keys, one generation, and each entry is the last source stored under its key and generation |
| MediaCacheSpec.HitIsLatestAndNotOverValid | crates/provider-api/src/media_cache.rs:29-56 | a hit no earlier than all events before it is the last source stored for that key and generation, valid for at least a second and never beyond its true expiry |
| MediaCacheSpec.RecentlyUsedSurvives | crates/provider-api/src/media_cache.rs:54-78 | an entry just used is still served while fewer than sixteen other keys of its generation were stored or hit since |
| MediaCacheSpec.UsePutsLast | crates/provider-api/src/media_cache.rs:54-85 | storing or hitting puts the entry last, which is where the survival statement starts |
| MediaCacheSpec.GetKeepsShape | crates/provider-api/src/media_cache.rs:36-55 | a lookup keeps distinct keys, one generation and the bound |
| MediaCacheSpec.InsertKeepsShape | crates/provider-api/src/media_cache.rs:60-85 | a store does so too |
| MediaCache.MediaResolutionCache.Get | crates/provider-api/src/media_cache.rs:29-56 | entries and answer are the specified ones |
| MediaCache.MediaResolutionCache.Insert | crates/provider-api/src/media_cache.rs:60-85 | entries are the specified ones; an expiry beyond the clock stores nothing |
| OggCrc.ShiftIsReversible | crates/kugou-client/src/web_playback_candidate.rs:1329-1336 | one step of the register can be undone: it is a bijection on 32-bit states |
| OggCrc.ShiftsAreLinear | crates/kugou-client/src/web_playback_candidate.rs:1329-1336 | any number of steps is linear over exclusive or |
| OggBits.RegisterIsBits | crates/kugou-client/src/web_playback_candidate.rs:1326-1337 | the register of a message is reached by feeding its bits, highest of each byte first |
| OggBits.BurstReachesRegister | crates/kugou-client/src/web_playback_candidate.rs:1326-1337 | two different bit strings of equal length up to 32 lead from any register to different ones |
| OggBits.BitBurstChangesRegister | crates/kugou-client/src/web_playback_candidate.rs:1326-1337 | two messages that differ only inside 32 consecutive bits, at any bit offset, have different checksums |
| OggPage.OggPrefix | crates/kugou-client/src/web_playback_candidate.rs:1307-1357 | the imperative check, with its byte and bit loops, decides exactly the specified acceptance, on every byte sequence and without leaving it |
| OggPage.Checksum | crates/kugou-client/src/web_playback_candidate.rs:1326-1337 | the nested loops compute the register of the page with its checksum field read as zero |
| OggPage.BurstIsDetected | crates/kugou-client/src/web_playback_candidate.rs:1307-1357 | any damage of an accepted page within 32 consecutive bits, at any bit offset, that leaves segment count and lacing values alone, makes it rejected |
| OggPage.SingleByteIsDetected | crates/kugou-client/src/web_playback_candidate.rs:1326-1340 | changing any single byte of an accepted page other than the segment count and lacing values makes it rejected |
| OggPage.ChecksumDamageIsDetected | crates/kugou-client/src/web_playback_candidate.rs:1338-1340 | any change confined to the checksum field makes it rejected |
| OggPage.SealedIsAccepted | crates/kugou-client/src/web_playback_candidate.rs:1307-1357 | a complete first page with an identification packet is accepted with its computed checksum and with no other |
| OggPage.AcceptsPrefixIff | crates/kugou-client/src/web_playback_candidate.rs:1322-1325 | cutting an accepted start keeps it accepted exactly when the whole page remains |
| OggPage.FirstPacketInPage | crates/kugou-client/src/web_playback_candidate.rs:1342-1344 | the first packet lies inside the page, so its slice is in bounds |
| BoxParser.ReadPrinted | crates/kugou-client/src/web_playback_candidate.rs:1447-1454 | reading a printed box returns its kind, its payload and exactly what follows |
| BoxParser.PrintedRead | crates/kugou-client/src/web_playback_candidate.rs:1447-1454 | whatever is read is a printed box followed by the rest: no bytes lost or invented |
| BoxParser.SplitPrinted | crates/kugou-client/src/web_playback_candidate.rs:1456-1472 | splitting a concatenation of well-formed boxes gives those boxes |
| BoxParser.Mp4Child | crates/kugou-client/src/web_playback_candidate.rs:1456-1472 | the loop computes the specified lookup on every byte sequence |
| BoxParser.ChildOfBoxes | crates/kugou-client/src/web_playback_candidate.rs:1456-1472 | on any concatenation of well-formed boxes the result is the payload of the one box so named, and nothing if none, several, or any encrypted box is present |
| BoxParser.ChildIff | crates/kugou-client/src/web_playback_candidate.rs:1456-1472 | on any bytes at all: a payload is returned exactly when they are such boxes, naming it once and encrypting nothing |
| Descriptor.ReadDescriptor | crates/kugou-client/src/web_playback_candidate.rs:1474-1487 | the loop computes the specified content on every byte sequence |
| Descriptor.ContentIff | crates/kugou-client/src/web_playback_candidate.rs:1474-1487 | a content is returned exactly when the bytes are the tag, one to four seven-bit length digits for it, the content, and anything |
| AacContainer.Mp4AacPrefix | crates/kugou-client/src/web_playback_candidate.rs:1359-1445 | the imperative check decides exactly the specified acceptance on every byte sequence |
| AacContainer.AcceptsIff | crates/kugou-client/src/web_playback_candidate.rs:1359-1445 | bytes are accepted exactly when they are a file type box with a known brand, then padding boxes around one movie box with its AAC-LC sound track, then media data with at least one byte |
| AacContainer.AcceptsPrefixIff | crates/kugou-client/src/web_playback_candidate.rs:1359-1445 | a cut of an accepted start is accepted exactly when it keeps the boxes before the media data whole, the media header and one byte more |
| AacContainer.MoreBytesKeepAcceptance | crates/kugou-client/src/web_playback_candidate.rs:1387-1389 | more bytes never turn an accepted start into a rejected one |
| AacContainer.AacEsds | crates/kugou-client/src/web_playback_candidate.rs:1489-1513 | the nested descriptors are read as specified |
| AacContainer.ReadMovie | crates/kugou-client/src/web_playback_candidate.rs:1393-1438 | the movie box is judged as specified |
| AacContainer.LowComplexityIff | crates/kugou-client/src/web_playback_candidate.rs:1508-1512 | two configuration bytes pass exactly when they spell object type 2, a rate index up to 12 and 1 to 7 channels |
| Mp3Prefix.AcceptsPrefixIff | crates/kugou-client/src/web_playback_candidate.rs:1241-1268 | an accepted MP3 start is accepted from exactly the cuts that keep both frames whole |
| Mp3Prefix.FrameLengthBounds | crates/kugou-client/src/web_playback_candidate.rs:1286-1304 | a frame is 24 to 1441 bytes long, so the second header is never read from inside the first |
| Mp3Prefix.FrameInPrefix | crates/kugou-client/src/web_playback_candidate.rs:1270-1305 | whether and what a frame is depends on nothing behind its end |
| Yrc.ParseYrc | crates/netease-client/src/lyrics.rs:85-121 | the loop with its bounds, omissions and skipped rows computes the specified result |
| Yrc.ParseYrcLine | crates/netease-client/src/lyrics.rs:123-189 | the loop over one line computes the specified line, mismatch or breached bound |
| YrcRoundTrip.RoundTrip | crates/netease-client/src/lyrics.rs:85-199 | printing sorted valid lines within the bounds and parsing them gives the same lines and no omission |
| YrcRoundTrip.PrintThenParse | crates/netease-client/src/lyrics.rs:85-199 | unsorted valid lines come back too, in order of time |
| YrcRoundTrip.LinePrinted | crates/netease-client/src/lyrics.rs:123-189 | a printed line parses to itself |
| YrcRoundTrip.ChainIff | crates/netease-client/src/lyrics.rs:160-166 | the segment conditions say: inside the line, ordered and disjoint |
| YrcRoundTrip.SortSorts | crates/netease-client/src/lyrics.rs:119-119 | the rows come out in order of time, none lost or added |
| YrcRoundTrip.SortIsStable | crates/netease-client/src/lyrics.rs:119-119 | rows of equal start keep their order |
| YrcParsed.ParsedIsValid | crates/netease-client/src/lyrics.rs:85-189 | whatever the text, parsed lines are valid (text is the concatenation of the segments, which are ordered, disjoint and inside the line), sorted and within all bounds, and every row that is not skipped is parsed or counted omitted |
| YrcParsed.PrintIsNormalForm | crates/netease-client/src/lyrics.rs:85-199 | whatever the text, printing the parsed lines and parsing again gives the same lines with no omission: the printed form always fits the bounds |
| YrcParsed.LineFacts | crates/netease-client/src/lyrics.rs:123-189 | a parsed line is valid and its printed form is no longer than the line was |
| YrcText.ParsePrinted | crates/netease-client/src/lyrics.rs:191-199 | a printed number parses back to itself |
| OneShotSpec.BudgetsAreOneShot | crates/provider-kugou/src/web_playback_candidate.rs:288-378 | over every interleaving at most one capture is admitted, one first-stage and one final call start, one source is delivered, and one token is held |
| OneShotSpec.RunKeepsInvariant | crates/provider-kugou/src/web_playback_candidate.rs:114-378 | the budgets, the one token and what it proves stay consistent over every run |
| OneShotSpec.NothingIsRefilled | crates/provider-kugou/src/web_playback_candidate.rs:110-117 | no event undoes a halt or refills a budget |
| OneShotSpec.HaltIsFinal | crates/provider-kugou/src/web_playback_candidate.rs:318-323 | after a halt nothing is admitted, started or delivered, however the run goes on, and nothing ever was delivered |
| OneShotSpec.DeliveryIsCurrent | crates/provider-kugou/src/web_playback_candidate.rs:308-313 | a source is delivered only while its call's generation and track are current and nothing halted |
| OneShotSpec.HeldTokensAreOnlyReplaced | crates/provider-kugou/src/web_playback_candidate.rs:292-306 | starting a call with a token actually held fails only because the token was replaced: the spent and halted refusals cannot strike it |
| OneShotSpec.ClearedTokensNeverDeliver | crates/provider-kugou/src/web_playback_candidate.rs:110-118 | after clearing, whatever token was out can start and deliver nothing over any later run |
| OneShotSpec.UndisturbedRunDelivers | crates/provider-kugou/src/web_playback_candidate.rs:124-378 | left alone, the two-stage path delivers the source of the final answer |
| OneShot.AuthenticatedStandardCandidate.Clear | crates/provider-kugou/src/web_playback_candidate.rs:114-118 | a new generation and no track; budgets and halt untouched |
| OneShot.AuthenticatedStandardCandidate.BeginCapture | crates/provider-kugou/src/web_playback_candidate.rs:124-149 | admission exactly once and never after a halt |
| OneShot.AuthenticatedStandardCandidate.RequireCurrent | crates/provider-kugou/src/web_playback_candidate.rs:196-207 | replaced, halted or admitted, in this order |
| OneShot.AuthenticatedStandardCandidate.StartStage1 | crates/provider-kugou/src/web_playback_candidate.rs:292-306 | the first-stage budget is spent before the call, only by a current token with both stages unspent |
| OneShot.AuthenticatedStandardCandidate.FinishStage1 | crates/provider-kugou/src/web_playback_candidate.rs:308-338 | a stale answer changes nothing, a risk answer halts, a direct source spends the final stage |
| OneShot.AuthenticatedStandardCandidate.StartFinal | crates/provider-kugou/src/web_playback_candidate.rs:348-362 | the final budget is spent before the call |
| OneShot.AuthenticatedStandardCandidate.FinishFinal | crates/provider-kugou/src/web_playback_candidate.rs:364-378 | a stale answer changes nothing and a risk answer halts |
| OneShot.AuthenticatedStandardCandidate.State | crates/provider-kugou/src/web_playback_candidate.rs:264-275 | halted, missing, spent or pending, in this order |
| RecentListeningSpec.HistoryIsDistinctAndBounded | crates/music-domain/src/recent_listening.rs:47-52 | after every run the history names each track once and at most thirty |
| RecentListeningSpec.ChoiceFacts | crates/music-domain/src/recent_listening.rs:57-95 | no choice exactly on an empty history; otherwise a track of the history that avoids the last seed, and the playing track, whenever another one allows it, and that becomes the seed |
| RecentListeningSpec.WeightedByRecency | crates/music-domain/src/recent_listening.rs:78-93 | each candidate is chosen by exactly `length - index` of the residues of the entropy |
| RecentListeningSpec.PickIff | crates/music-domain/src/recent_listening.rs:86-93 | the decrementing draw partitions the total into one interval per candidate |
| RecentListeningSpec.ConsecutiveChoicesDiffer | crates/music-domain/src/recent_listening.rs:59-78 | after any run, two choices in a row differ when the history holds two tracks |
| RecentListeningSpec.HeardWithinTheClock | crates/music-domain/src/recent_listening.rs:29-43 | over every run of observations and choices on a clock that never runs back, no more listening is counted than has passed since the observed track was selected |
| RecentListeningSpec.RememberedAfterThreshold | crates/music-domain/src/recent_listening.rs:43-52 | over every such run the history changes only by an observation of a track that was selected at an earlier one, alone since then, at least its threshold of time ago |
| RecentListening.RecentListening.ObserveTrack | crates/music-domain/src/recent_listening.rs:16-53 | the new state is the specified one |
| RecentListening.RecentListening.ChooseTrack | crates/music-domain/src/recent_listening.rs:57-95 | seed and choice are the specified ones |
| RecentListening.RecentListening.DrawFrom | crates/music-domain/src/recent_listening.rs:85-94 | the loop finds the candidate whose interval holds the draw |
| LyricAlignmentInputs.AttachedIff | crates/provider-api/src/lyric_alignment.rs:108-172 | the whole answer told from the input, for every result with lines in order and rows at different times: a line receives the row at its time, else exactly the free row within the tolerance that is strictly nearest to it and it to the row, among the free rows and lines that no exactly met line parts from them |
| LyricAlignmentInputs.GapAround | crates/provider-api/src/lyric_alignment.rs:246-280 | every line without an exact match lies in a gap between neighbouring anchors, so none escapes the near pass |
| LyricAlignmentInputs.ExactIff | crates/provider-api/src/lyric_alignment.rs:123-140 | for every result: a line receives a row of its own time exactly when it alone has that time and the rows at it carry one text |
| LyricAlignmentInputs.AttachedSpeaksForItsTime | crates/provider-api/src/lyric_alignment.rs:174-209 | any row handed out is the first of its time, and all rows of that time carry its text |
| LyricAlignmentInputs.OneLineOneRow | crates/provider-api/src/lyric_alignment.rs:108-172 | one line and one row at any times and tolerance: attached exactly within the tolerance, and every counter and bucket, with the ranges 0, 20, 100, 250 and 500 ms |
| LyricAlignmentInputs.OneRowAmongLines | crates/provider-api/src/lyric_alignment.rs:348-414 | one row among any lines in order: ambiguous exactly when lines are within the tolerance but none is the strictly nearest, unmatched exactly when none is within it |
| LyricAlignmentInputs.DisorderRefusesAll | crates/provider-api/src/lyric_alignment.rs:282-305 | lines out of order that no row meets exactly: nothing is attached and every row counts as ambiguous |
| LyricAlignmentInputs.CrossingRefusesTheRest | crates/provider-api/src/lyric_alignment.rs:143-161 | when the exactly met lines do not increase, only these are attached and no row counts as unmatched |
| LyricAlignmentInputs.RepeatsAreDuplicates | crates/provider-api/src/lyric_alignment.rs:200-208 | when the rows of each time agree, the deduplicated rows are all rows but one of each time |
| SessionEndings.EndedLoginStaysOut | crates/provider-netease/src/auth.rs:486-599 | from any reachable state: after sign-out, SMS cancellation, or cancelling or closing the current QR attempt, nothing begun before retains a candidate, leaves a challenge or makes an account active, over any run that begins no new login or import |
| SessionEndings.CancelSmsEnds | crates/provider-netease/src/auth.rs:486-492 | cancelling removes challenge and candidate, ends the generation and keeps the account |
| SessionEndings.SignOutEnds | crates/provider-netease/src/auth.rs:554-561 | signing out removes account, candidate, challenge and everything cached, and ends the generation |
| SessionEndings.CancelPendingEnds | crates/provider-netease/src/auth.rs:364-371 | cancelling a verification ends its generation and keeps the candidate; without one nothing happens |
| SessionEndings.CancelQrEnds | crates/provider-netease/src/auth.rs:571-580 | the cancellation handle ends the attempt's own generation once and changes no other session |
| SessionEndings.CloseQrEnds | crates/provider-netease/src/auth.rs:605-615 | closing an unfinished attempt ends its own generation; closing any other changes no session |
| SessionAnswers.RejectionEndsSession | crates/provider-netease/src/auth.rs:117-139 | a rejected credential, whatever the request was, empties exactly the session it was sent in |
| SessionAnswers.FailureLeavesSession | crates/provider-netease/src/auth.rs:936-963 | any other failure is passed on and changes nothing, save the refresh mark after a write of unknown outcome |
| SessionAnswers.PollsIff | crates/provider-netease/src/auth.rs:623-645 | an attempt is polled exactly while it is unfinished, before its deadline and in its own generation; past the deadline it times out and spends its handle |
| SessionAnswers.PollEndsIff | crates/provider-netease/src/auth.rs:646-719 | exactly which poll answers end the attempt |
| SessionAnswers.PollReports | crates/provider-netease/src/auth.rs:646-672 | failures in a row are counted and forgiven by any answer of the server, and the caller hears which failure, timeout or progress it was |
| SessionAnswers.FencedCallsReport | crates/provider-netease/src/auth.rs:104-182 | every call that carries a generation reports success exactly in its own and otherwise changes nothing |
| SessionAnswers.ConfirmationRetains | crates/provider-netease/src/auth.rs:669-683 | a confirmed credential becomes the candidate of the attempt's generation |
| SessionAnswers.ForcedCallerLoads | crates/provider-netease/src/auth.rs:1024-1072 | a caller that insists on fresh data waits for the lock and then loads, whatever was cached before |
| SessionAnswers.RecentPageRequest | crates/provider-netease/src/auth.rs:846-860 | a later page is served from the snapshot; the first page, or one without a snapshot, is requested anew and retires the snapshot and every earlier request |
| SessionAnswers.AbandonedIsGone | crates/provider-netease/src/auth.rs:1048-1064 | an operation given up is gone with its locks and leaves session, server and cache alone |
| SessionAnswers.MediaAnswer | crates/provider-netease/src/catalog.rs:497-554 | a media answer in the caller's generation is handed out as it came |
| SessionAnswers.MediaIsFoundAgain | crates/provider-netease/src/catalog.rs:509-554 | the next request for the same media within its validity is answered from the cache |
| PlaybackQueueTheorems.SequentialRun | crates/music-domain/src/playback_queue.rs:195-219 | t advances of a sequential queue play the list in order from the current position, modulo its length under repeat-all, else up to its last track |
| PlaybackQueueTheorems.AdvanceIff | crates/music-domain/src/playback_queue.rs:195-219 | in both orders an advance succeeds exactly when a place follows or repeat-all wraps a queue that is not empty, goes one place on, and changes nothing else unless a shuffle wraps |
| PlaybackQueueTheorems.RewindIff | crates/music-domain/src/playback_queue.rs:220-243 | a rewind succeeds exactly when a place precedes or repeat-all wraps, goes one place back in the same order, and changes nothing else |
| PlaybackQueueTheorems.CompletionIff | crates/music-domain/src/playback_queue.rs:246-257 | the end of a track replays it exactly under repeat-one, plays the next place exactly when there is one or repeat-all wraps, and otherwise plays nothing and changes nothing |
| PlaybackQueueTheorems.EveryOrderIsReached | crates/music-domain/src/playback_queue.rs:439-446 | for every permutation some draws make the shuffle produce it |
| PlaybackQueueTheorems.EveryCycleIsReached | crates/music-domain/src/playback_queue.rs:151-160 | turning shuffle on can produce every order that starts with the current position |
| PlaybackQueueTheorems.ExtendIff | crates/music-domain/src/playback_queue.rs:282-305 | refused exactly for an empty batch; old and new tracks keep their places, and only an empty queue gains a current position, the first |
| PlaybackQueueTheorems.ContinueIff | crates/music-domain/src/playback_queue.rs:308-334 | accepted exactly for new tracks at the last track of a sequential queue without repeat, and then the first new track is current |
| PlaybackQueueTheorems.RemoveIff | crates/music-domain/src/playback_queue.rs:336-366 | takes out exactly one position, reports its track and whether it was current, and says which position is current after |
| PlaybackQueue.FirstDraws | crates/music-domain/src/playback_queue.rs:448-455 | the generator's first two numbers from state zero are those of splitmix64 |
| MediaCacheTheorems.StoredIsServed | crates/provider-api/src/media_cache.rs:29-85 | after any run a stored source is handed out with the whole seconds it has left, at any time it has between one second and 2^32 of them, as long as fewer than sixteen other keys were used since |
| MediaCacheTheorems.SixteenStoresEvict | crates/provider-api/src/media_cache.rs:60-85 | whatever was cached, sixteen stores of other keys leave exactly these sixteen |
| MediaCacheTheorems.LateIsNotServed | crates/provider-api/src/media_cache.rs:36-54 | in every reachable state a source with less than a second left, or too many seconds for 32 bits, is not handed out |
| MediaCacheTheorems.OtherGenerationsForgotten | crates/provider-api/src/media_cache.rs:36-85 | a lookup or store in one generation forgets every other |
| OggFile.AcceptsIff | crates/kugou-client/src/web_playback_candidate.rs:1307-1357 | any bytes are accepted exactly when they begin with a page written from its fields (serial number, checksum, lacing values, body) with the checksum of the page taken with zeros in its place, whose first packet is an Opus or Vorbis identification header |
| OggFile.IdentificationIff | crates/kugou-client/src/web_playback_candidate.rs:1345-1356 | a packet identifies a codec exactly when it is laid out byte by byte as one of the two headers with allowed fields |
| OggFile.OneBitLeavesPolynomial | crates/kugou-client/src/web_playback_candidate.rs:1327-1338 | the register after a message of one set bit is the polynomial, and the checksum is stored least significant byte first |
| Mp3Frames.AcceptsIff | crates/kugou-client/src/web_playback_candidate.rs:1241-1268 | any bytes are accepted exactly when two complete frames of one version and sample rate follow the tag, if there is one, each with the fields of its header and the length these stand for |
| Mp3Frames.LengthIs | crates/kugou-client/src/web_playback_candidate.rs:1286-1304 | the length read from a header is the one its fields stand for, with the tables of bitrates and sample rates written out |
| Mp3Frames.TagIff | crates/kugou-client/src/web_playback_candidate.rs:1243-1260 | where the frames start: at once without a tag, else behind its ten bytes, its size in seven-bit digits and a footer when announced |
| AacMovie.FileIff | crates/kugou-client/src/web_playback_candidate.rs:1359-1445 | any bytes are accepted exactly when they are a file type box with a known brand, padding boxes, one movie box, padding boxes and media data, all written out as bytes and boxes with no reference to how they are read |
| AacMovie.MovieIff | crates/kugou-client/src/web_playback_candidate.rs:1393-1438 | a movie box passes exactly when it is written from its fields, box within box: one track, one media box, a sound handler, and a table of one mp4a entry with its AAC-LC description |
| AacMovie.HandlerIff | crates/kugou-client/src/web_playback_candidate.rs:1403-1408 | a handler passes exactly when it is four zeros, four bytes, soun and at least twelve bytes more |
| AacMovie.EntryIff | crates/kugou-client/src/web_playback_candidate.rs:1424-1438 | a sample entry passes exactly when it is written from a data reference, one to eight channels, sixteen bits, a sample rate and boxes with one accepted description |
| AacMovie.DescriptionIff | crates/kugou-client/src/web_playback_candidate.rs:1489-1513 | a description passes exactly when it is written as the three nested descriptors with an AAC-LC configuration |
| AacMovie.ChildIsIff | crates/kugou-client/src/web_playback_candidate.rs:1456-1472 | a named box is found exactly when it stands alone of its kind among boxes none of which is encrypted |
| Descriptor.SpelledLengths | crates/kugou-client/src/web_playback_candidate.rs:1474-1487 | length digits are seven bits wide, most significant first, at most four of them |
| YrcGrammar.LineIff | crates/netease-client/src/lyrics.rs:123-189 | a text is read as a line exactly when it is written as its interval and segments, with any spelling of the numbers and any third number, segments ordered, disjoint and inside the line |
| YrcGrammar.OverlongIff | crates/netease-client/src/lyrics.rs:123-189 | a line breaches the bound exactly when it starts like a line of 4097 segments |
| YrcGrammar.NumberIff | crates/netease-client/src/lyrics.rs:191-199 | a text is read as a number exactly when it is that number's digits behind any zeros and fits 32 bits |
| YrcGrammar.TextIsConcatenation | crates/netease-client/src/lyrics.rs:167-168 | the text of a line is its segments' texts one after the other |
| YrcRows.DocumentIs | crates/netease-client/src/lyrics.rs:85-121 | any document, given as its rows: refused exactly for its bytes, an overlong line, more than 10000 lines or 100000 segments; else the rows that are lines come out in order of time, and the omission count is exactly the number of the other rows that show something but an opening brace first |
| YrcRows.RoundTripAmongRows | crates/netease-client/src/lyrics.rs:85-121 | printed lines with blank rows, metadata rows and carriage returns put anywhere among them come back as they were, with nothing omitted |
| YrcRows.SkippedIff | crates/netease-client/src/lyrics.rs:93-96 | a row is passed over exactly when it is white space up to its end or up to an opening brace |
| YrcRows.RowsIff | crates/netease-client/src/lyrics.rs:92-92 | the rows of a text are the texts without line feeds that give it when joined by them |
| OneShotTheorems.HaltsIff | crates/provider-kugou/src/web_playback_candidate.rs:308-378 | over every run: an event halts the owner exactly when it answers a running call of the current generation with a risk or rate refusal |
| OneShotTheorems.StateIsHistory | crates/provider-kugou/src/web_playback_candidate.rs:264-275 | over every run the reported state follows from the run alone: halted once a risk answer came in time, else missing without a capture since the last clear, else spent once a final call started or a source was delivered, else pending |
| OneShotTheorems.CaptureOutcome | crates/provider-kugou/src/web_playback_candidate.rs:124-149 | a capture is admitted exactly before a halt and before any other capture |
| OneShotTheorems.ExchangeOutcome | crates/provider-kugou/src/web_playback_candidate.rs:150-262 | a token is exchanged exactly while its generation lasts and its capture is accepted |
| OneShotTheorems.StartOutcome | crates/provider-kugou/src/web_playback_candidate.rs:292-362 | a bound token starts its call exactly while its generation lasts |
| OneShotTheorems.AnswerOutcome | crates/provider-kugou/src/web_playback_candidate.rs:308-378 | an answer in time is passed on as it came, a late one is reported as replaced |
| RecentListeningTheorems.CountsExactly | crates/music-domain/src/recent_listening.rs:29-43 | for the same track playing in both samples, at most five seconds apart and at most one second ahead of the clock, the counted time grows by exactly the smaller of clock and position; otherwise not at all |
| RecentListeningTheorems.PlayedTrackIsRemembered | crates/music-domain/src/recent_listening.rs:43-52 | after any run, a track observed playing along until its threshold of time has passed stands first in the history |
| RecentListeningTheorems.RunAccounts | crates/music-domain/src/recent_listening.rs:16-53 | over every run counted time, qualification and history are those of an account that never mentions the state |
| RecentListeningTheorems.ThresholdIs | crates/music-domain/src/recent_listening.rs:44-46 | the threshold is half the track, but no less than one second and no more than thirty, and thirty without a duration |
| RecentListeningTheorems.RememberIsToFront | crates/music-domain/src/recent_listening.rs:47-52 | a remembered track moves to the front, the others keep their order, and the thirty newest stay |
| RecentListeningTheorems.CandidatesIff | crates/music-domain/src/recent_listening.rs:58-77 | the candidates are exactly the tracks that avoid the last seed and the playing track, as far as any track does |
| RecentListeningTheorems.WeightedChoice | crates/music-domain/src/recent_listening.rs:78-95 | of the entropies below the total weight exactly `length - index` choose each eligible track and none another |

## Left out

- HTTP, TLS, timers, browser launch and process cleanup: a network answer is an arbitrary value at an await, a
  deadline is a flag of the event that meets it.
- Encryption, hashing other than the Ogg checksum, compression, JSON and URL parsing: library code.
- Domain value types, builders, error mapping, redacted output, diagnostics and constants of request headers: each
  is settled by reading one branch. Tracks, credentials and accounts are numbers or type parameters.
- QR images, secret wiping, cookie and media-host validation, the KuGou stage decoders: a capture that fails
  validation is the `accepted` flag of its event.
- Line-timed lyrics (`parse_lrc_with_integrity`) and the choice among lyric tracks: no property there is harder
  than those proved of the word-timed parser.
- Catalog pages, playlist writes, playlist creation and recent-history paging: their effect on the session is
  that of a read at a generation or of a playlist load, which `Read` and `Playlists` stand for.
- Python scripts, Flutter and iOS files.
- The pages of one playlist load are one answer; a failure of any page is the failure of the load.
- The session generation is unbounded; the code stops with a panic after 2^64 generations.
- Waiting for the media lock carries no state, so a media request begins when it has the lock.
- Pointer identity (`Arc::ptr_eq`) is a number never used twice.
- A token of another owner instance never has this owner's generation and is refused as replaced; only tokens of one
  owner are modelled.
- The early wake-up of a stale operation is not a separate event: a stale operation may be answered at any later
  time, always with the same effect.
- Text is a sequence of Unicode scalar values; byte limits count UTF-8 bytes, and white space is the White_Space
  property written out.
- Iterator chains that only compute a value (sums, folds, brand search conditions) are functions; library sorts are
  insertion sorts with the order the code asks for.
- LikedSetAgreesWithServer: holds for runs in which writes and loads do not overlap, answers are truthful and a failure
  other than network, shape or bound means nothing was written. Its remaining conditions, on giving up a write, on
  beginning one and on a load's answer, are exact (`DroppedWriteAgreesIff`, `NewWriteAgreesIff`, `LoadAgreesIff`).
  Likes changed by other clients of the account are not modelled.
- RecentlyUsedSurvives: speaks of uses within one generation and before the entry expires; a lookup in another
  generation empties the cache.
- DeliveredMediaIsFresh: the URI and its validity are what the server answered; nothing is said about the server.
- PlaybackQueue.PlaybackQueue.WithShuffleSeed: `try_new` is not modelled; it is `Replace` on a new queue.
- NextShuffleU64: nothing is said about the quality of the randomness.
- ObserveTrack: the listened time is unbounded; the code counts it in 64 bits.
- HeardWithinTheClock: assumes a clock that never runs back, as does RememberedAfterThreshold.
