# Quadrature: models and proofs of its core

Quadrature is a music player and library manager. This project models the parts of it whose correctness is least
visible from a single function, and proves what they promise.

- **Album reconciler** (`Genre.dfy`, `Reconciler*.dfy`): a desired, partial album state is merged into database rows,
  credits and search index. `Reconciler.dfy` is the engine as functions on a database value, `ReconcilerStore.dfy` the
  engine as it runs (a class with maps, loops and counters) proved equal to it; the other files prove what one
  reconcile leaves, when a second one does nothing, what comes to rest under repetition, and what holds over batches
  and runs. The tables' own constraints (unique path in an album, titles that are not NULL, known artists) are part of
  the model.
- **Audio cache and player handover** (`AudioCache.dfy`, `AudioPlayers.dfy`, `AudioSurplus.dfy`, `AudioUse.dfy`,
  `AudioHandover.dfy`, `AudioPipeline.dfy`): a recency cache with eviction locks and deferred unlocks, four players,
  the main thread's entry points and the real-time thread's end-of-track handover as steps that interleave in any
  order.
- **Position snapshot** (`Seqlock.dfy`, `SeqlockReads.dfy`): writer and reader interleaved load by load and store by
  store; what a read returns, when an attempt fails, and what the fall-through hands out.
- **Artist atlas** (`Crc32.dfy`, `AtlasFormat.dfy`, `ArtistAtlas.dfy`, `AtlasBuilder.dfy`, `AtlasEffects.dfy`):
  builder, binary layout, checksum (CRC-32 as in section 8 of RFC 1952), binary search.
- **Artist tags** (`ArtistTag.dfy`): the delimiter scanner and its agreement with the reconciler's display string.
- **Ring buffer and passthrough playback** (`ShuttleSpeed.dfy`).
- **Track numbering checks** (`TrackGaps.dfy`, `TrackReports.dfy`).
- **Nested and batch transactions** (`Transactions.dfy`, `TransactionResults.dfy`).

Code that changes things step by step is a method or a class proved equal to a specification function; what the
source promises is then proved about those functions, for all inputs and all runs; and what each of them computes is
stated a second time without naming its body, by values, positions and bytes.

Where the code and its comments disagree, the code is modelled and the difference is a lemma:

- The display reader expects stale data at worst after four failed attempts (`src/audio/pipeline.c:837-839`); it can get
  a mixture of any two snapshots at any split (`SeqlockReads.FallThroughMayTear`), and zeros when all four attempts found
  the counter odd, however much was published before (`SeqlockReads.FallThroughMayBeZero`). If an attempt copied, no field
  is older than the last publication before the read; it is one published snapshot whenever the attempt that copied last
  had finished its copies before the counter moved (`SeqlockReads.FallThroughIs`).
- An atlas is called unchanged when it is "byte-identical to disk" (`src/indexer/artist_atlas.c:403-407`); the code
  compares checksums. From some written file, one newly listed artist is therefore never written
  (`AtlasBuilder.ChangeCanBeMissed`); a change of at most four neighbouring bytes is always seen
  (`Crc32.ShortChangesShow`).
- Continuous numbering is described as a sequence 1..N of N tracks (`src/indexer/library_validation.c:18-25`); the code
  accepts gaps (`TrackGaps.ContinuousWithGap`, and exactly when in `TrackGaps.ContinuousCompleteIff`). "No gaps possible
  if count equals max" holds only for distinct, set numbers (`TrackGaps.ShortcutIff`): a file without a track number can
  hide a missing track from all checks (`TrackGaps.UnsetHidesGap`, exactly when in `TrackGaps.SilentIff`).

Other findings stated as lemmas: an album without an artist counts the same refused update on every run
(`ReconcilerConvergence.ArtistlessAlbumNeverSettles`); a genre tag of separators only, merged into a track without
genre names, is rewritten by every run (`Genre.AlternatesForever`), and a desired state not at rest in the fourth run
never is (`ReconcilerLimits.FourthRunDecides`); a new album title alone does not reach the index of its tracks
(`ReconcilerRuns.AlbumColumnIff`); credits at one position compare equal only in the order the load happens to give
them (`ReconcilerConvergence.CreditsSettleInAnyOrderIff`); preloading aborts when the next track cannot be loaded
(`AudioPlayers.PreloadAbortsIff`); a deferred advance that is still flagged replaces a track set since
(`AudioPlayers.WaitingTrackStaysIff`, reached in `AudioPlayers.ChosenTrackIsDropped`); locks outlive their holders
after exactly the steps that `AudioSurplus.LocksAreExact` counts; pixel offsets wrap in large atlases
(`AtlasBuilder.FortyEightPixelLimit`, and what is then read in `AtlasBuilder.LookupFinds`); a gap report for track
65535 does not end (`TrackGaps.CounterPassesIff`); passthrough playback replays the last frame at the end
(`ShuttleSpeed.AtTheEnd`); and a fade sounds different when it is divided into other blocks
(`ShuttleSpeed.SplitFadeIff`).

## Model

| member | source | states |
|---|---|---|
| Genre.MergeGenreStrings | src/database/reconciler.c:356-394 | The token loop over both values computes the merge that the genre lemmas are about; case folding is any function |
| Genre.JoinNames | src/database/reconciler.c:385-392 | The output loop joins the collected names with ";" |
| Genre.ScanParts | src/database/reconciler.c:366-383 | One value's pieces are trimmed, blanks skipped, and a name whose folded form is known is not listed again |
| Genre.TokensOfJoin | src/database/reconciler.c:356-394 | Split after join is the identity on trimmed, non-blank names |
| Genre.TrimIs | src/database/reconciler.c:366-371 | Trimming takes off all leading and trailing blanks, tabs, line and form feeds and carriage returns, and nothing else |
| Genre.FirstSpellings | src/database/reconciler.c:366-383 | The collected names are exactly those that are the first of their folded form, as spelled there and in their order |
| Genre.BlankMerge | src/database/reconciler.c:356-362 | A blank incoming value changes nothing, a blank existing one is replaced as it is |
| Genre.MergeListsBoth | src/database/reconciler.c:356-394 | The existing names come first, in order and first spelling; no two names are equal up to case; the folded names are exactly those of both inputs |
| Genre.SelfMergeIff | src/database/reconciler.c:356-394 | Merging a value with itself changes nothing exactly when it is canonical |
| Genre.MergeSettlesIff | src/database/reconciler.c:356-394 | merge(merge(e,i),i) equals merge(e,i) exactly when i is blank, or e is blank and i is canonical, or e is not blank and any name is listed |
| Genre.AlternatesForever | src/database/reconciler.c:356-394 | If neither value lists a name and the incoming one is not blank, every repeated merge changes the value, and from the first on every second one gives the same |
| Genre.RemergedSettlesIff | src/database/reconciler.c:356-394 | Merged again and again, a value stops changing after the second merge exactly unless neither value lists a name and the incoming one is not blank |
| ReconcilerStore.BuildArtistDisplay | src/database/reconciler.c:340-354 | The display loop equals the recursive display string: names with joining phrases between them, none after the last |
| ReconcilerStore.Database.AlbumUpdateCanonical | src/database/reconciler.c:401-464 | New table state and number of differing fields; an update the tables refuse (unknown artist, NULL title) changes no row but is counted |
| ReconcilerStore.Database.TrackUpdateCanonical | src/database/reconciler.c:467-554 | The row becomes its target if any field differs and the table accepts it; the result says whether a difference was found |
| ReconcilerStore.Database.InsertTrack | src/database/reconciler.c:558-605 | A new row at the next row id with the documented defaults, or 0 and no change when a constraint refuses it |
| ReconcilerStore.Database.ReplaceTrackArtists | src/database/reconciler.c:608-634 | The track's credits become the stored form of the desired ones: one row per known artist, last position wins, sorted |
| ReconcilerStore.Database.ReconcileTrackInsert | src/database/reconciler.c:641-655 | Insert plus credits, as the insert step of the specification |
| ReconcilerStore.Database.ReconcileTrackUpdate | src/database/reconciler.c:660-710 | Freeze, credit comparison, row update and counters, as the update step of the specification |
| ReconcilerStore.Database.PruneMissingTracks | src/database/reconciler.c:713-740 | Exactly the loaded tracks whose path is not desired are deleted, with their credits, and counted |
| ReconcilerStore.Database.UpdateAlbumFts | src/database/reconciler.c:790-796 | The album's index row becomes its title and its artist's name, empty for an unknown artist |
| ReconcilerStore.Database.SyncAlbumTracksFts | src/database/reconciler.c:797-803 | Every track of the album is re-indexed under its title, display and album title; no other entry changes |
| ReconcilerStore.Database.ReconcileOne | src/database/reconciler.c:742-807 | One album from loaded state: rows, credits, index and summary equal the pure specification |
| ReconcilerStore.Database.LoadAlbums | src/database/reconciler.c:193-224 | The snapshot holds the listed albums that have a row, with that row |
| ReconcilerStore.Database.LoadBuckets | src/database/reconciler.c:226-304 | The snapshot files every track of the listed albums with its credits under its album and path, and nothing else |
| ReconcilerStore.Database.ReconcileAlbums | src/database/reconciler.c:813-858 | The batch loop over one snapshot equals the specified steps, in rows and summaries; non-positive ids are skipped |
| ReconcilerMerge.ReconcileMerges | src/database/reconciler.c:742-807 | One reconcile is a merge: other albums untouched; the album holds the desired paths, plus its other paths unless the policy prunes; every desired path holds its merged entry; tracks after = before + inserted - deleted |
| ReconcilerMerge.MergedFields | src/database/reconciler.c:467-554 | Field by field: accepted present fields take the desired value, all others keep theirs, MusicBrainz positions move a track only at sufficient confidence, a NULL title refuses the whole row |
| ReconcilerMerge.InsertedFields | src/database/reconciler.c:558-605 | An inserted track has a fresh id, its album and path, never disc 0, the stated defaults, and credits of known artists only |
| ReconcilerFields.FreezeIs | src/database/reconciler.c:749-770 | For tags, under a policy that respects edits, on an album of status 2, exactly title, artist, ids, status and resolve time and the tracks' titles and credits are not taken |
| ReconcilerFields.MergedAlbum | src/database/reconciler.c:401-464 | The album row after a reconcile, field by field: taken fields have the desired value, all others and the path their own, NULL and empty ids being the same; a NULL title or an unknown artist leaves the row as it was; no other album row changes |
| ReconcilerFields.AlbumFieldsCounted | src/database/reconciler.c:401-464 | The summary counts the album fields whose desired value is taken and differs |
| ReconcilerFields.SummaryCounts | src/database/reconciler.c:660-807 | The summary counts the stored tracks that differ in anything, in title, position, genre or credits; the track index is synced exactly if a track was inserted or deleted or a title or display differed |
| ReconcilerFields.StoredCreditsAre | src/database/reconciler.c:608-634 | Replaced credits hold, for each known artist named, the last entry naming it, and nothing else, in order |
| ReconcilerFields.CreditsEqualIff | src/database/reconciler.c:322-338 | Credits compare equal exactly if artists, positions and phrases are the same in the same order |
| ReconcilerConvergence.Converges | src/database/reconciler.c:641-807 | Where every desired track and the album settle, a second reconcile leaves rows, credits and index unchanged and all counters zero, under any policy |
| ReconcilerConvergence.ConvergesIff | src/database/reconciler.c:641-807 | That condition is exact, also when the first run itself marks the album resolved: the second counts nothing if and only if every desired track and the album settle |
| ReconcilerConvergence.CreditsSettleIff | src/database/reconciler.c:322-338 | Stored credits, loaded by position and then artist, compare equal to the desired ones exactly when those stand in that order, artists are known, positive and distinct, and phrases fit |
| ReconcilerConvergence.CreditsSettleInAnyOrderIff | src/database/db.c:177-181 | The load statement sets no order at equal positions: stored credits compare equal in every order it may choose exactly when positions strictly increase, and artists are known, positive and distinct |
| ReconcilerConvergence.NewSettlesIff | src/database/reconciler.c:558-605 | An inserted track is left alone by the next run exactly when a present title is not NULL, an accepted disc number is not 0, a merged genre is canonical and the credits are well formed |
| ReconcilerConvergence.MatchedSettlesIff | src/database/reconciler.c:467-554 | A stored track is left alone by the next run exactly when it never differed, or it took the update and a merged genre settles, and its credits were equal or well formed |
| ReconcilerConvergence.WellFormedConverges | src/database/reconciler.c:641-807 | Well-formed tracks and an acceptable album row are enough for convergence, for every database and policy |
| ReconcilerLimits.FourthRunDecides | src/database/reconciler.c:641-807 | Repeated with one desired state, the fourth and every later reconcile counts nothing exactly when, seen before the first, the album row settles and every desired track can rest: no NULL title is refused, its merged genre does not alternate, its credits are equal or well formed |
| ReconcilerLimits.UpdatedSettlesIff | src/database/reconciler.c:660-710 | A stored track that took one update is left alone by the next exactly when it can rest, a condition on its row and credits before the update |
| ReconcilerLimits.CanRestStays | src/database/reconciler.c:660-710 | No update changes whether a track can rest, also when the album is frozen from then on |
| ReconcilerConvergence.RefusedAlbumNeverSettles | src/database/reconciler.c:401-464 | An album whose update the tables refuse keeps its row through any number of runs, and every run counts as many fields as the first |
| ReconcilerConvergence.ArtistlessAlbumNeverSettles | src/database/reconciler.c:401-464 | An album whose artist is NULL refuses every update that names no artist: whatever fields differ, they differ and are counted on every run |
| ReconcilerRuns.BatchIsOneByOne | src/database/reconciler.c:813-858 | With distinct album ids the batch from one snapshot equals reconciling one by one with fresh loads: rows, assigned ids, summaries |
| ReconcilerRuns.LeavesOthers | src/database/reconciler.c:742-807 | A reconcile leaves the row and tracks of every other album alone |
| ReconcilerRuns.FrozenOnce | src/database/reconciler.c:749-770 | On a resolved album a tag reconcile that respects user edits keeps the album's frozen fields, and the id, title and credits of each track that stays, which are those it lists and, without pruning, all |
| ReconcilerRuns.FreezeHolds | src/database/reconciler.c:749-770 | Over any run of tag reconciles a resolved album keeps its frozen fields, whatever tracks they list, and every track that is there throughout keeps its id, title and credits |
| ReconcilerRuns.SurvivesIff | src/database/reconciler.c:713-740 | A track is there throughout exactly when it is there at first and, if the policy prunes, every desired state lists it |
| ReconcilerRuns.IndexStaysInAgreement | src/database/reconciler.c:786-807 | If every album and track is indexed under its own title and artist, so it is after any reconcile |
| ReconcilerRuns.AlbumColumnIff | src/database/reconciler.c:786-807 | The album column of the track index, in agreement before, is so afterwards exactly if the track index was synced, the title did not change, or the album has no tracks |
| AudioPipeline.BufferCache.TouchBuffer | src/audio/cache.c:120-129 | Marks the buffer used now and moves it to the front of the queue |
| AudioPipeline.BufferCache.EvictLru | src/audio/cache.c:144-178 | The cursor loop equals the recursive oldest-first eviction |
| AudioPipeline.BufferCache.SweepStale | src/audio/cache.c:915-956 | The sweep loop equals the recursive one, stopping at the first idle buffer used after the cutoff |
| AudioPipeline.BufferCache.LoadTrack | src/audio/cache.c:566-633 | New cache state and result code: bad id, already cached, failed entry dropped and retried, path not found, queue refused, decode started |
| AudioPipeline.BufferCache.LockTrack | src/audio/cache.c:682-714 | One more lock and the status before it |
| AudioPipeline.BufferCache.UnlockTrackNow | src/audio/cache.c:723-746 | One lock fewer; called only where the specification does not abort |
| AudioPipeline.BufferCache.UnlockTrackLater | src/audio/cache.c:782-818 | Schedules one unlock per track; a second request replaces the first |
| AudioPipeline.BufferCache.DelayedUnlockCallback | src/audio/cache.c:754-769 | The timer drops its schedule, then one lock |
| AudioPipeline.BufferCache.GetLockedBuffer | src/audio/cache.c:845-878 | The handle of a locked, decoded buffer, touched; NULL while not decoded |
| AudioPipeline.BufferCache.GetStatus | src/audio/cache.c:884-909 | Absent, loading, ready or failed |
| AudioPipeline.BufferCache.FinishDecode | src/audio/cache.c:313-386 | Completion charges the buffer and evicts |
| AudioPipeline.BufferCache.FailDecode | src/audio/cache.c:313-386 | Failure leaves a zero-byte entry and charges nothing |
| AudioCache.EvictStops | src/audio/cache.c:144-178 | Eviction removes exactly the evictable tracks from the oldest up to a stop, ends under the limit or with only in-use buffers left, and would exceed the limit without its last removal |
| AudioCache.SweepStops | src/audio/cache.c:915-956 | The sweep removes exactly the evictable tracks up to a stop; each was idle since the cutoff; it stops at the front or at an idle buffer used later |
| AudioCache.LoadKeeps | src/audio/cache.c:566-633 | A load changes no lock, keeps locked buffers in place, and leaves the track cached exactly in the stated cases; accounting stays exact |
| AudioCache.DecodeDoneKeeps | src/audio/cache.c:313-386 | Completion keeps the accounting exact (memory used is the sum over completed cached buffers, table and queue hold the same tracks) and every lock |
| AudioCache.GetLockedKeeps | src/audio/cache.c:845-878 | Succeeds for a locked cached track, returns its live handle exactly when it is decoded, changes no lock |
| AudioUse.LoadHitUses | src/audio/cache.c:566-590 | Loading a cached track, other than an unlocked failure, makes it the newest and changes nothing else |
| AudioUse.LoadMissStarts | src/audio/cache.c:590-633 | Otherwise the result code says what refused it, or an unlocked empty buffer at a new address is decoding and is the newest; all other buffers stay in place |
| AudioUse.GetUses | src/audio/cache.c:845-878 | Getting a decoded buffer makes it the newest; an undecoded one is left alone; without a lock it aborts |
| AudioUse.LockUnlock | src/audio/cache.c:682-818 | Locking and unlocking, now or by timer, move one count by one and nothing else; they abort exactly without a buffer or a lock; a deferred unlock only makes a schedule |
| AudioUse.DecodeCompletes | src/audio/cache.c:313-386 | A completed buffer is ready and charged, then the queue is evicted from its end; under the limit nothing is evicted; a locked buffer is kept |
| AudioUse.DecodeFails | src/audio/cache.c:313-386 | A failed one is empty and keeps its place |
| AudioUse.SweepTakesIdle | src/audio/cache.c:915-956 | What the sweep takes was idle for the given time; it stops at the front or at an idle buffer used later |
| AudioUse.QueueIsUseOrder | src/audio/cache.c:120-129 | After any run of calls the queue lists the cached tracks by their last use, the latest in front |
| AudioUse.EvictsLeastRecent | src/audio/cache.c:144-178 | So whatever a completed decode evicts was used before every idle track it leaves |
| AudioPipeline.Pipeline.PreloadNextTrack | src/audio/pipeline.c:208-231 | New cache and player as specified, other players untouched |
| AudioPipeline.Pipeline.TryAttachNextBuffer | src/audio/pipeline.c:239-256 | The same for attaching a ready next buffer |
| AudioPipeline.Pipeline.SetPlayerTrack | src/audio/pipeline.c:258-360 | The same for putting a track on a player: clear, defer both old locks, lock, attach or wait, preload |
| AudioPipeline.Pipeline.PollPendingBuffer | src/audio/pipeline.c:396-442 | The same for the poll of a pending decode, with failure |
| AudioPipeline.Pipeline.HandlePendingAdvance | src/audio/pipeline.c:450-481 | The same for a deferred and an instant advance |
| AudioPipeline.Pipeline.ProcessPendingAdvances | src/audio/pipeline.c:488-499 | The timer's loop over all players never aborts and keeps the invariant; it equals the players' turns in order |
| AudioPipeline.Pipeline.OnTrackEnd | src/audio/player.c:169-220 | The end-of-track policy on one player; the others untouched |
| AudioPlayers.SetTrackFine | src/audio/pipeline.c:258-360 | From a covered state, with the track cached, setting it cannot abort and leaves every player covered |
| AudioPlayers.TickFine | src/audio/pipeline.c:488-499 | The same for a player's whole timer turn |
| AudioPlayers.TrackEndFine | src/audio/player.c:104-220 | The real-time thread's handover keeps every player covered without touching the cache |
| AudioPlayers.DestroyFine | src/audio/player.c:990-1020 | Shutdown unlocks never underflow, and leave every other player covered |
| AudioPlayers.StepSafe | src/audio/pipeline.c:208-499 | Every enabled step - entry points, end of track, decode completion or failure, timers, sweep - succeeds and keeps the invariant |
| AudioPlayers.EveryRunIsSafe | src/audio/pipeline.c:208-499 | In every reachable state each track's locks are at least its holders plus a scheduled unlock; every non-NULL buffer is the live decoded entry of its track; no abort is reached |
| AudioPlayers.PreloadAbortsIff | src/audio/pipeline.c:208-231 | Preloading aborts exactly when the next track is neither loadable nor usably cached: the load's result is ignored |
| AudioHandover.PreloadIs | src/audio/pipeline.c:208-231 | The next track becomes the album's, its buffer is attached exactly if it is decoded, and nothing else of the player changes; none on repeat |
| AudioHandover.SetTrackIs | src/audio/pipeline.c:258-360 | A decoded track sounds at once, an undecoded one is waited for, a failed one leaves the player idle; both old tracks are released later; the follower is preloaded |
| AudioHandover.PollIs | src/audio/pipeline.c:396-442 | A waited-for track that is decoded sounds, one that failed leaves the player idle and drops its lock, any other changes nothing |
| AudioHandover.AttachIs | src/audio/pipeline.c:239-256 | A next track that is decoded has its live buffer attached; otherwise nothing changes |
| AudioHandover.InstantIs | src/audio/pipeline.c:450-481 | A flagged advance on a sounding player clears the flag, releases the old track later, preloads the follower and goes on sounding |
| AudioHandover.DeferredIs | src/audio/pipeline.c:450-481 | A flagged advance on a silent player sets the next track: it sounds, is waited for, or failed |
| AudioHandover.DecodedTrackSounds | src/audio/pipeline.c:396-499 | In any state with the invariant, a waited-for track that is decoded sounds after the next timer turn, whatever else is flagged |
| AudioHandover.FailedTrackIdles | src/audio/pipeline.c:396-499 | One that failed leaves the player idle, unless a deferred advance moves on |
| AudioHandover.EndOfTrackIs | src/audio/player.c:169-220 | At the end of a track the attached follower takes over, a known one flags an advance in silence, on repeat or without one nothing changes |
| AudioHandover.GaplessHandover | src/audio/player.c:104-220 | With the follower attached, it sounds at once and through the next timer turn, which releases the old track later and names the one after |
| AudioHandover.DeferredHandover | src/audio/pipeline.c:450-499 | Without, the next turn makes the follower sound if it is decoded by then, and wait for it otherwise |
| AudioHandover.EventsTouch | src/audio/pipeline.c:258-499 | Which players and whether the cache can change in each step |
| AudioPlayers.WaitingTrackStaysIff | src/audio/pipeline.c:258-360 | In any state with the invariant, a track set while its decode runs survives the next timer turn exactly when no deferred advance to another track is still flagged on an active player; setting a track does not clear that flag |
| AudioPlayers.ChosenTrackIsDropped | src/audio/pipeline.c:450-481 | A run from the start reaches that state, and the next turn drops the chosen track |
| AudioSurplus.StepExtra | src/audio/pipeline.c:208-499 | A step changes a track's surplus locks by exactly what it leaves behind: a replaced deferred unlock, a next track preloaded over, an old track handed over or shut down before its release; every other step leaves none |
| AudioSurplus.LocksAreExact | src/audio/cache.c:782-818 | In every reachable state a track's locks are its holders, plus a scheduled unlock, plus the number of such steps; so they are exact if and only if there was none |
| Seqlock.CleanReadsArePublished | src/audio/pipeline.c:837-850 | Under any interleaving of loads and stores, a read that leaves through the equal-even check holds exactly one published tuple, none older than the last one before the read began |
| Seqlock.CleanReadIsNewest | src/audio/pipeline.c:837-850 | At that moment it is the newest one |
| Seqlock.StepKeeps | src/audio/player.c:53-74 | The counter is twice the number of writes, odd inside one; what was copied belongs to the current tuple while the counter stands still |
| SeqlockReads.AttemptFailsIff | src/audio/pipeline.c:841-850 | An attempt fails exactly when the counter is odd at its first load or has moved at its second, however writer steps fall between its copies |
| SeqlockReads.QuietAttemptIsClean | src/audio/pipeline.c:841-850 | An attempt over which the counter stands still, interleaved with whatever else the writer does, returns the newest snapshot |
| SeqlockReads.ExhaustedIff | src/audio/pipeline.c:841-850 | A read falls through exactly when all four attempts met a write, that is, a write was under way at the first load or was begun or ended before the second |
| SeqlockReads.FallThroughIs | src/audio/pipeline.c:837-850 | If all four first loads met an odd counter the fall-through hands out the zeroed local; otherwise each field is that of a published write or of the one in progress, none older than the last publication before the read began; one origin for all four means that write's snapshot; if the attempt that copied last had finished before the counter moved, it is a published one |
| SeqlockReads.FallThroughMayTear | src/audio/pipeline.c:837-850 | For all two snapshots and every split, some run hands out the first fields of one and the rest of the other by the fall-through; the source expects only stale data there |
| SeqlockReads.FallThroughMayBeZero | src/audio/pipeline.c:834-850 | For all two snapshots, some read that begins after the first was published falls through with zeros, because the writer of the second rests between its two counter stores |
| Crc32.Checksum.FillTable | src/indexer/internal.h:655-663 | Each table entry is eight bit-steps of its index |
| Crc32.Checksum.UpdateCrc | src/indexer/internal.h:650-667 | The table-driven loop equals eight bit-steps per byte of the reflected polynomial, for all byte strings, with the table filled on first use |
| Crc32.Checksum.CrcOfTwo | src/indexer/internal.h:647-674 | Incremental use gives the one-shot checksum of the concatenation |
| Crc32.TableStep | src/indexer/internal.h:664-665 | One lookup and shift equal eight bit-steps |
| Crc32.UpdateAppend | src/indexer/internal.h:650-667 | Updating over a then b equals updating over a + b |
| Crc32.ShortChangesShow | src/indexer/internal.h:670-674 | Strings that differ only within four neighbouring bytes have different checksums, whatever surrounds them |
| Crc32.FourBytesMeetIff | src/indexer/internal.h:650-667 | Two four-byte strings lead two states to the same state exactly when the words differ as the states do |
| Crc32.ChecksumsCanMeet | src/indexer/internal.h:670-674 | For any two prefixes some last four bytes make the checksums equal |
| AtlasFormat.SortedUnique | src/indexer/artist_atlas.c:93-105 | A set of keys has one listing in memcmp order |
| AtlasFormat.CanonicalBytes | src/indexer/artist_atlas.c:334-399 | Two finished files that say the same are byte for byte equal, whatever order the entries were added in |
| AtlasFormat.WrittenOpens | src/indexer/artist_atlas.c:467-545 | A written file passes magic, version, checksum and size checks and yields the counts and sizes it was written with |
| AtlasFormat.WrittenTables | src/indexer/artist_atlas.c:346-380 | Key, pixel and no-art tables stand at the offsets the reader uses and hold what was written |
| AtlasFormat.RecordRead | src/indexer/artist_atlas.c:587-593 | A record read at a 32-bit offset is the one written exactly as long as the offset is below 2^32 |
| AtlasEffects.OpensIff | src/indexer/artist_atlas.c:467-545 | A file opens exactly if letters, version, checksum and size are right, byte by byte, and then with the counts and sizes of its header |
| AtlasEffects.DamageIsNoticed | src/indexer/artist_atlas.c:467-545 | A file with up to four neighbouring bytes changed before the checksum does not open |
| AtlasEffects.FileLayout | src/indexer/artist_atlas.c:346-380 | Every key, every thumbnail and every header field of a written file, at its byte offset |
| AtlasEffects.BeforeIff | src/indexer/artist_atlas.c:93-105 | Keys are ordered by their first differing byte |
| AtlasEffects.ShortChecksums | src/indexer/internal.h:670-674 | The CRC-32 of nothing is 0, that of one zero byte 0xD202EF8D |
| ArtistAtlas.AddsKeepCoherent | src/indexer/artist_atlas.c:256-318 | Through any sequence of adds no artist is in both tables and every thumbnail keeps the size |
| AtlasEffects.AddTakesEffect | src/indexer/artist_atlas.c:256-318 | Artwork of the right size becomes the artist's and takes it off the no-art set; of another size it changes nothing; "no artwork" lists an artist without any |
| AtlasEffects.AddsAre | src/indexer/artist_atlas.c:256-318 | After any adds each artist has the last accepted artwork, or what it had, and is listed without artwork exactly if it has none and was or became listed |
| AtlasEffects.NotDirtyIsSame | src/indexer/artist_art.c:1025-1107 | Adds of which none is accepted change nothing, so leaving the disk alone loses nothing |
| AtlasEffects.NewFileIsRead | src/indexer/artist_art.c:1025-1107 | In the file the artwork phase leaves, the reader finds for each artist the last accepted artwork, or what the disk had |
| ArtistAtlas.AddsKeepOthers | src/indexer/artist_atlas.c:256-318 | Adds for some artists leave every other artist's entry as it was |
| ArtistAtlas.AddsCommute | src/indexer/artist_atlas.c:256-318 | Adds for different artists can be made in either order |
| ArtistAtlas.ReAddIsSame | src/indexer/artist_atlas.c:256-318 | Adding what is already there changes nothing |
| ArtistAtlas.ReAddAllIsSame | src/indexer/artist_atlas.c:256-318 | Any sequence of adds that are all known changes nothing |
| ArtistAtlas.SortSorts | src/indexer/artist_atlas.c:334-339 | Sorting distinct keys gives the sorted listing of the same set |
| ArtistAtlas.SortEntriesIs | src/indexer/artist_atlas.c:334-339 | Sorting entries sorts their keys and keeps every artist's pixels |
| AtlasBuilder.Builder.constructor | src/indexer/artist_atlas.c:104-127 | A new builder is empty and remembers the byte size of a thumbnail |
| AtlasBuilder.Builder.FindArtEntry | src/indexer/artist_atlas.c:236-244 | The index of the artist's entry, or -1 when it has none |
| AtlasBuilder.Builder.FindNoArtEntry | src/indexer/artist_atlas.c:246-254 | The same in the no-art list |
| AtlasBuilder.Builder.AddArtwork | src/indexer/artist_atlas.c:256-294 | The tables stay duplicate-free and disjoint; the artist gets these pixels and leaves the no-art set; another pixel size is refused unchanged |
| AtlasBuilder.Builder.AddNoArtwork | src/indexer/artist_atlas.c:296-318 | An artist with artwork or already listed stays as it is, any other joins the no-art set |
| AtlasBuilder.Builder.LoadExisting | src/indexer/artist_atlas.c:129-230 | Appends exactly the records of a file that passes all checks, art only at equal thumbnail byte size; otherwise nothing |
| AtlasBuilder.Builder.Finish | src/indexer/artist_atlas.c:320-433 | Contents unchanged; an empty builder writes nothing; otherwise the file encodes exactly the contents and replaces the one on disk exactly when writes and rename succeed and the trailing checksums differ |
| AtlasBuilder.WriteBody | src/indexer/artist_atlas.c:346-380 | The sequential writes produce the laid-out body |
| AtlasBuilder.LoadRoundTrip | src/indexer/artist_atlas.c:129-230 | Loading a written file gives back its map and set; the no-art section decodes to the sorted no-art set |
| AtlasBuilder.DecodesUniquely | src/indexer/artist_atlas.c:467-545 | A file encodes at most one atlas |
| AtlasBuilder.SameContentSameChecksum | src/indexer/artist_atlas.c:403-413 | Identical content is recognised as unchanged |
| AtlasBuilder.UpdateAtlas | src/indexer/artist_art.c:1025-1107 | Create, load, add, finish, for every disk file whose tables repeat no key: a new file is put in place exactly when an addition was taken, there is something to write, the checksums differ and the file system accepts it; it says exactly what the loaded atlas with the additions says |
| AtlasBuilder.WrittenIsSound | src/indexer/artist_atlas.c:129-230 | A file a builder wrote repeats no key, and is loaded as what it says |
| AtlasBuilder.UnopenedIsSound | src/indexer/artist_atlas.c:129-230 | A missing, damaged or older file counts as an empty atlas |
| AtlasBuilder.UuidBinarySearch | src/indexer/artist_atlas.c:562-577 | A found index holds the key; in an ordered table -1 means the key is nowhere |
| AtlasBuilder.GetPixels | src/indexer/artist_atlas.c:587-593 | The pixel record at the 32-bit offset, NULL for an index outside the table |
| AtlasBuilder.LookupPixels | src/ui/library/artwork_manager.c:427-436 | For any file: the record the reader's 32-bit offsets give for a found key; nothing if the file does not open or, keys in order, has no such key |
| AtlasBuilder.LookupFinds | src/indexer/artist_atlas.c:562-593 | In a written file an artist is found exactly when it has artwork; read are its own pixels if their offset fits 32 bits, otherwise the bytes at the wrapped offset |
| AtlasBuilder.LookupIsExact | src/indexer/artist_atlas.c:562-593 | When every pixel offset fits, every artist with artwork gets its own pixels and no other is found |
| AtlasBuilder.PixelsRead | src/indexer/artist_atlas.c:587-593 | The pixel record read is the slice of the pixel table at the wrapped offset |
| AtlasBuilder.FortyEightPixelLimit | src/indexer/artist_atlas.c:587-593 | At 48 pixels the wrapped pixel offset is right exactly up to index 621378 |
| AtlasBuilder.ChangeCanBeMissed | src/indexer/artist_atlas.c:403-413 | From some written file, one newly listed artist is taken and never written: the file with it has the same checksum |
| ArtistTag.ParseArtistTag | src/indexer/utils.c:397-455 | The scanner's nested loops terminate and produce the credits of the earliest-delimiter parse |
| ArtistTag.FindPattern | src/indexer/utils.c:414-430 | The first place from the cursor where one delimiter stands, in any ASCII case |
| ArtistTag.OneDelimiter | src/indexer/utils.c:264-269 | At most one delimiter of the table stands at a position, so table order never decides |
| ArtistTag.ParseRebuilds | src/indexer/utils.c:397-455 | For every tag, names interleaved with the delimiters as written rebuild it; each phrase is its delimiter's; no name contains a delimiter |
| ArtistTag.FirstCredit | src/indexer/utils.c:397-455 | A name, a joining word - featuring, feat., feat, ft., ft in any ASCII case, or & - and more: the name with the phrase of that word, then the parse of the rest |
| ArtistTag.OneCredit | src/indexer/utils.c:397-455 | A tag without a joining word is one credit, an empty one none |
| ArtistTag.ReparseIff | src/indexer/utils.c:397-455 | parse(display(parse(t))) equals parse(t) exactly when the last credit has no joining phrase, and what it is otherwise |
| ArtistTag.ReparseUnlessDelimiterLast | src/indexer/utils.c:397-455 | It does for every tag that does not end in a delimiter |
| ArtistTag.ReconcilerDisplays | src/database/reconciler.c:340-354 | The reconciler's display of such credits is the display string of that law |
| RingBuffer.Ring.Write | src/audio/shuttle_speed.c:95-114 | Appends the longest prefix that fits, across the two-part copy |
| RingBuffer.Ring.Read | src/audio/shuttle_speed.c:116-137 | Takes the oldest frames, as many as there are, in order |
| RingBuffer.Ring.Clear | src/audio/shuttle_speed.c:75-81 | Empties the ring |
| RingBuffer.FifoRun | src/audio/shuttle_speed.c:95-137 | Over any run, what came out followed by what is in equals what was in followed by what was accepted; never more than the capacity |
| RingBuffer.LongestFit | src/audio/shuttle_speed.c:95-137 | A write accepts the longest prefix that fits, a read takes the oldest frames, as many as asked for or there are |
| ShuttleSpeed.Engine.Process | src/audio/shuttle_speed.c:643-709 | One passthrough block, with seek following, clamping, stop, fade and saved tail, equals its specification |
| ShuttleSpeed.Engine.ApplyCrossfade | src/audio/shuttle_speed.c:763-781 | The gain loop: each faded sample is the mix of new and saved sample at its gain, the others are unchanged |
| ShuttleSpeed.SteadyBlock | src/audio/shuttle_speed.c:690-709 | A steady block inside the track outputs its samples and moves the playhead behind them |
| ShuttleSpeed.AnyDivision | src/audio/shuttle_speed.c:690-709 | Any division of playback into blocks up to the end outputs samples[p..p+n) and moves the playhead to p+n |
| ShuttleSpeed.AtTheEnd | src/audio/shuttle_speed.c:664-709 | A block beyond the end is padded with silence; one that starts at the end replays the last frame |
| ShuttleSpeed.StartIs | src/audio/shuttle_speed.c:658-669 | A block starts at the external playhead, at most at the last frame; the fraction is kept only without a seek |
| ShuttleSpeed.StoppedIsSilent | src/audio/shuttle_speed.c:671-676 | While stopped the output is silence and playhead, fade and saved tail stay |
| ShuttleSpeed.FadeStarts | src/audio/shuttle_speed.c:684-709 | The first passthrough block after another mode fades over its full length from the block played last |
| ShuttleSpeed.RampContinues | src/audio/shuttle_speed.c:763-781 | The gain ramp is one straight line over block boundaries |
| ShuttleSpeed.SplitFadeIff | src/audio/shuttle_speed.c:763-787 | The faded output does not depend on a division into any list of blocks exactly when in each block the saved tail continues the first one; each block overwrites the tail with already faded output |
| ShuttleSpeed.BlocksFade | src/audio/shuttle_speed.c:690-787 | These are the outputs of passthrough mode, in one block and in any list of blocks |
| ShuttleSpeed.DivisionChangesFade | src/audio/shuttle_speed.c:763-787 | A fade of two frames gives [8, 1] in one block and [8, 4] in two |
| ShuttleSpeed.FadeRunsOut | src/audio/shuttle_speed.c:763-781 | A fade takes its length in frames over any division |
| TrackGaps.UsesContinuousNumbering | src/indexer/library_validation.c:28-100 | True exactly for more than one disc, no set number twice, a number 1, and maximum at least the count |
| TrackGaps.CollectRanges | src/indexer/library_validation.c:138-155 | The nested counter loops end for a maximum below 65535 and give the specified ranges |
| TrackGaps.MissingIsExact | src/indexer/library_validation.c:138-155 | The ranges are sorted, disjoint, non-adjacent and cover exactly the missing numbers |
| TrackGaps.GapsUnique | src/indexer/library_validation.c:138-155 | No other list of ranges does |
| TrackGaps.WidthCounts | src/indexer/library_validation.c:138-155 | They hold as many numbers as are missing |
| TrackGaps.CounterPassesIff | src/indexer/library_validation.c:138-155 | The outer loop in 16-bit arithmetic, for every maximum a tag can hold: some number of passes ends it exactly when the maximum is below 65535 |
| TrackGaps.ShortcutIff | src/indexer/library_validation.c:208-210 | With as many tracks as the greatest number, nothing is missing exactly when the numbers are distinct and set |
| TrackGaps.ShortcutHidesGap | src/indexer/library_validation.c:208-210 | Tracks 1, 1 and 3 get no gap report |
| TrackGaps.ContinuousIff | src/indexer/library_validation.c:28-100 | With all numbers set, the comparison of maximum and count never decides |
| TrackGaps.ContinuousCompleteIff | src/indexer/library_validation.c:18-100 | An album detected as continuous misses nothing, and is the described sequence 1..N, exactly when all its numbers are set and its greatest number is its track count |
| TrackGaps.ContinuousWithGap | src/indexer/library_validation.c:18-100 | Numbers 1 and 3 on two discs are detected as continuous |
| TrackGaps.ContinuousMissing | src/indexer/library_validation.c:106-170 | A continuous album misses exactly its maximum minus the count of its set numbers |
| TrackGaps.CheckGlobalTrackSequence | src/indexer/library_validation.c:106-170 | Reports the missing ranges of the whole album, if any |
| TrackGaps.CheckPerDiscTrackGaps | src/indexer/library_validation.c:176-268 | Reports the missing ranges disc by disc, with the shortcut |
| TrackReports.DiscReportTells | src/indexer/library_validation.c:196-268 | A disc is reported once, exactly if something is missing and its tracks are not as many as its greatest number: with exactly the missing numbers, its track count, its greatest number, and its own number unless no track has one |
| TrackReports.DiscReportsTell | src/indexer/library_validation.c:176-268 | The per-disc check gives these reports, one for each disc with a gap, in order |
| TrackReports.AlbumReportTells | src/indexer/library_validation.c:106-170 | The whole-album report has exactly the missing numbers, the track count and the greatest number |
| TrackGaps.CheckDuplicatePositions | src/indexer/library_validation.c:283-311 | Reports nothing exactly when all positions differ, otherwise the first pair of equal ones in file order |
| TrackGaps.ValidateAlbumTrackNumbering | src/indexer/library_validation.c:313-332 | Duplicates first, then gaps by the detected numbering |
| TrackReports.ReportsTell | src/indexer/library_validation.c:313-332 | The whole report: the first duplicate position if there is one, then the album report or the disc reports by the detected numbering |
| TrackGaps.SilentIff | src/indexer/library_validation.c:313-332 | A continuous album gets no report exactly when it holds 1..max once each and no unset number; any other exactly when its positions differ and each disc misses nothing, or one number for which an unset one makes up |
| TrackGaps.SilentWhenSetIff | src/indexer/library_validation.c:313-332 | With all numbers set, an album gets no report exactly when it, or each of its discs, holds 1..max once each: the duplicate check makes up for the shortcut |
| TrackGaps.UnsetHidesGap | src/indexer/library_validation.c:208-210 | An unnumbered track and track 2 on one disc get no report although track 1 is missing |
| Transactions.Connection.DbBeginTransaction | src/database/db.c:364-393 | Nested: depth plus one, lock kept; otherwise BEGIN, or failure with the lock released |
| Transactions.Connection.DbCommit | src/database/db.c:395-426 | Nested: depth minus one, lock released; otherwise COMMIT, rolled back on failure |
| Transactions.Connection.DbRollback | src/database/db.c:428-449 | Nested: nothing is undone; otherwise ROLLBACK |
| Transactions.Connection.DbBeginBatch | src/database/db.c:455-477 | BEGIN with depth 1 and the lock released |
| Transactions.Connection.DbCommitBatch | src/database/db.c:479-500 | COMMIT under the lock, depth 0 |
| Transactions.StepKeeps | src/database/db.c:364-500 | Only the lock's owner is inside sections, as many as its lock count; the depth is one more in a batch; flag, depth and SQLite agree; BEGIN, COMMIT and ROLLBACK nest |
| TransactionResults.EnterResult | src/database/db.c:364-393 | Begin fails exactly if SQLite refuses an outermost BEGIN, and then leaves lock and depth as they were |
| TransactionResults.LeaveResult | src/database/db.c:395-449 | Leaving fails exactly if SQLite refuses an outermost COMMIT outside a batch, and leaves the section all the same |
| TransactionResults.NothingToLeave | src/database/db.c:395-449 | Without a transaction both calls fail and change nothing |
| TransactionResults.BatchResult | src/database/db.c:455-500 | A batch opens and closes successfully exactly if SQLite accepts the statement; the lock is free afterwards |
| TransactionResults.IssuesAre | src/database/db.c:364-500 | Exactly which statements each call issues, by what its caller has open |
| TransactionResults.SectionIsOneTransaction | src/database/db.c:364-449 | Outside a batch, a section with any sections nested in it issues one BEGIN and the statement its own end asks for |
| Transactions.EveryRunExcludes | src/database/db.c:364-500 | In every run at most one caller is inside and it holds the lock; in a batch with nobody inside the depth is 1 |
| Transactions.StatementsAlone | src/database/db.c:364-500 | A statement is issued only while nobody else is inside; a batch's COMMIT while nobody is |
| Transactions.BatchIsOneTransaction | src/database/db.c:364-500 | A batch around any interleaving of nested sections issues exactly one BEGIN and one COMMIT |

## Left out

- AudioPlayers.EveryRunIsSafe: assumes, as the theorems of AudioHandover do, that the tracks the library names as next can be loaded and that a track put on a player is cached at that moment; `PreloadAbortsIff` says what happens otherwise. Finer interleavings inside one entry point are not modelled, nor is a load refused by a full decode queue during preload.
- ReconcilerConvergence.ConvergesIff: like all theorems about whole reconciles, loads credits at one position in order of artist, which is the order of the index `idx_track_artists_track`; the statement does not ask for it (`CreditsSettleInAnyOrderIff`).
- Seqlock.CleanReadsArePublished: like the theorems of SeqlockReads, assumes sequentially consistent memory, and that a read does not sleep through 2^31 writes, after which the 32-bit counter would repeat.
- AtlasBuilder.UpdateAtlas: requires that the tables of the file on disk repeat no key; the source does not check that, and a foreign file with a valid checksum that repeats one is outside the model. Every file a builder wrote, and every file that does not open, meets it.
- AtlasBuilder.Builder.Finish: qsort is an insertion sort; concurrent writers are excluded by the lock file its callers hold.
- TrackGaps.ValidateAlbumTrackNumbering: like the other methods over numbers and discs, requires them below 65535; with 65535 the source's loops do not end (`CounterPassesIff`), so there is no result to state. Ranges are pairs of numbers, not text.
- ShuttleSpeed.Engine.Process: arithmetic is over reals, one channel stands for all, and only the passthrough mode is modelled; varispeed and key-locked output are signal processing without a visible specification.
- Transactions.BatchIsOneTransaction: is about a batch whose BEGIN and COMMIT SQLite accepts; failing statements are in the steps and in `StepKeeps`. Each call is one step because it holds the lock from its first to its last effect.
- Genre.MergeGenreStrings: Unicode case folding is a parameter, any function from strings to strings.
- SQL text, SQLite itself, full-text matching, filtered queries, the metadata and biography databases: only the row effects of the reconciler's statements are modelled.
- Artist rows do not change during a reconcile; artist de-duplication is not part of this model.
- Row numbers are natural numbers; the 16- and 32-bit widths of years, durations and positions in the reconciler are not modelled. Callers that pass no summary array are not modelled.
- The players' state flags, the fill loop of the real-time callback, streams and devices, the shutdown order, and decode cancellation other than as a failure.
- The order of the recency queue by access time: a completed decode refreshes the time without moving the buffer, so only queue order is used.
- `src/indexer/artwork.c`, whose album atlas has another builder; title extraction and delimiter detection in `src/indexer/utils.c`; library masks, overflow layout, telemetry, HTTP, image processing, the user interface.
