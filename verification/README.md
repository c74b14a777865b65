# A verified model of torrentfs

torrentfs serves the files of BitTorrent torrents from memory: pieces are downloaded on demand, hashed,
kept in a byte-bounded cache, and shown through a virtual directory tree. This project models the parts
where its behaviour is hard to see from one function, and proves what they promise.

How it is organised:

- Each component with state has a *model* module (values, operations as functions, runs as sequences of
  operations) and a module with the *class* that changes its fields in place. The class methods are proved
  to do exactly what the model's functions say; the invariants and the theorems over all runs are lemmas
  about the model.
- All operations of a component run under its lock, so a run is a sequence of atomic steps. What Go leaves
  open (map iteration order, which goroutine comes next, what the disk, the peers or the clock answer) is a
  parameter, a step order, or a sequence that the method returns, and the theorems hold for every choice.

| modules | component |
|---|---|
| `CacheModel`, `CacheRuns`, `PieceCache` | the piece cache: LRU list, byte accounts, watermarks, pin reservations |
| `Spans`, `StoreModel`, `StoreRuns`, `PieceStore` | staging buffers, generations, verification tokens, torrent lifetimes |
| `Playback`, `PlayerModel`, `PlayerRuns`, `PlaybackWindow` | the playback cursor, its anchor and seek candidate, and the window ahead of it |
| `PrefetchModel`, `PrefetchRuns`, `PrefetchSystem`, `Prefetch` | the read-ahead coordinators and the budget they share |
| `FlightModel`, `PieceFetcher` | one shared fetch per missing piece |
| `ReadPlan`, `FileReader` | from a read inside a file to pieces, and back to bytes |
| `SnapshotModel`, `SnapshotRuns`, `SnapshotCache` | optimistic publication of snapshots, fenced by slot identity |
| `Layout`, `DirectoryIndex`, `DirectoryRuns`, `Projection` | directory listings, their cache, its runs over the snapshot cache, and the projected file lists below it |
| `Wildcard`, `SmbNames`, `StrmNames` | pattern matching, portable names, name allocation |
| `RegistryModel`, `RegistryRuns`, `Registry` | the order of durable writes, with a crash after any of them |
| `UploadRate` | the daily upload window |

## What turned out not to hold

Each of these is kept as the code has it, with the exact condition proved beside it.

- An add whose sidecar write took effect but reported an error (the rename committed, the directory sync
  failed) removes the metainfo it had published and leaves a ready sidecar without it, so the next start
  fails (`RegistryModel.TornAddBreaksRestart`). Every operation is safe at each of its file operations if
  and only if it is not such an add (`RegistryModel.SafeUnlessTorn`).
- A deletion mark written under the same circumstances is unknown to memory, and the next edit of the entry
  writes the live state back (`RegistryModel.UnseenMarkTurnsBack`). Memory keeps up with the disk if and
  only if that does not happen (`RegistryModel.DeletionOnward`).
- A write into a verified buffer does not withdraw its token, so a peer that changes a received byte after
  the hash gets the changed byte promoted: `StoreModel.OverwrittenByteIsPromoted` is such a run. In every
  run, what would be promoted after a write into a verified, untainted buffer was handed to a hash of that
  generation if and only if the chunk changes no received byte (`StoreModel.OverwriteDecides`).
- A hash that reads resident bytes and whose handle is then written through counts for the new buffer, so
  bytes no hash was handed get promoted: `StoreModel.StrayedByteIsPromoted` is such a run. In every run, when
  a hash ends with a token for an untainted buffer, the buffer's bytes were handed to a hash of that
  generation if and only if none of the bytes this hash read before its handle adopted the generation
  differs from the buffer, or an earlier hash had completed (`StoreModel.StrayDecides`).
- The comment in the upload scheduler that a valid window always flips inside the lookahead is false for a
  window inside a skipped daylight-saving hour (`UploadRate.SkippedWindowDoesNotFlip`).
- The search for the next change of the upload limit does not always find the earliest one: probes a minute
  apart step over a window that a clock change of 28 seconds cuts short
  (`UploadRate.ShortenedWindowIsSteppedOver`). It returns the earliest change, or the end of the lookahead
  when there is none in it, if and only if the first change is not undone at the next whole minute
  counted from now (`UploadRate.NextTransition`). That holds wherever the state changes at whole minutes
  (`UploadRate.ByMinuteLasts`), as it does in every zone whose offset changes at whole minutes of local
  time (`UploadRate.WholeMinuteStates`).
- The spans of a read plan do not tile the wanted range for the last byte of a torrent of the largest
  64-bit length in pieces of two bytes: the span comes out with a negative length
  (`ReadPlan.LastByteWraps`). They tile it if and only if the end of the last piece touched is a 64-bit
  number (`ReadPlan.Plan`).
- The wildcard matcher reads a star in a name literally: it rejects the name `*ba` for the pattern `*a`
  (`Wildcard.MissedName`). It never accepts too much, and it accepts all that patterns mean for a name if
  and only if the name holds no star (`Wildcard.CompleteIffNoStar`). The names it is given hold none.

## Model

| member | source | states |
|---|---|---|
| `CacheModel.EvictRun` | internal/cache/cache.go:435-461 | Below the high-water mark nothing happens. Above it, a pass removes exactly the shortest run of unpinned, non-kept entries from the least recently used end that reaches the low-water mark, or all of them, and keeps the survivors' order |
| `CacheModel.ReclaimRun` | internal/cache/cache.go:435-449 | The reclaim loop itself takes a shortest run of victims from any state |
| `CacheModel.RunSurvivors` | internal/cache/cache.go:451-461 | A pass keeps every pinned or kept entry and changes no survivor's bytes |
| `CacheModel.EvictBound` | internal/cache/cache.go:435-449 | After a pass either the low-water mark is met or what is left is bounded by the reservations plus the kept entry |
| `CacheModel.SizedBudget` | internal/cache/cache.go:74-78 | Without legacy pins, pinned bytes never exceed capacity minus low water |
| `CacheModel.PutInv` | internal/cache/cache.go:149-191 | Put keeps list and map in bijection, all byte accounts equal to their sums, and used within capacity |
| `CacheModel.PutContents` | internal/cache/cache.go:149-191 | Put adds only its own value, leaves other residents' bytes alone and never evicts another pinned key |
| `CacheModel.PutStays` | internal/cache/cache.go:149-191 | With sized pins only, a value of at most low-water bytes on an unpinned key, or one that passes the reservation check on a pinned key, is resident afterwards |
| `CacheModel.PutRollback` | internal/cache/cache.go:179-190 | Rolling an insertion back after its eviction pass ends within capacity |
| `CacheModel.PinEffect` | internal/cache/cache.go:213-260 | A refused pin changes nothing; a granted one covers the request and the resident bytes and stays within the pin budget |
| `CacheModel.PinInv` | internal/cache/cache.go:213-260 | Pinning keeps every account |
| `CacheModel.UnpinInv` | internal/cache/cache.go:263-271 | Unpin keeps every account, removes exactly that pin and evicts no other pinned key |
| `CacheModel.UnpinReachesLow` | internal/cache/cache.go:263-271 | An Unpin that triggers eviction ends at or below low water |
| `CacheModel.InvalidateInv` | internal/cache/cache.go:385-404 | Invalidating a torrent removes its entries and pins and nothing else, with all accounts exact |
| `CacheModel.ApplyInv` | internal/cache/cache.go:130-270 | Every operation keeps the invariant and the capacity |
| `CacheModel.RunInv` | internal/cache/cache.go:80-107 | In every run of operations from an empty cache the invariant holds, and without legacy pins a low-water mark's worth of bytes stays evictable |
| `CacheRuns.FrontUsedLater` | internal/cache/cache.go:130-191 | In every run an entry nearer the front had its last use, a hit or an admitted store, later than one nearer the back |
| `CacheRuns.OldestGoFirst` | internal/cache/cache.go:435-461 | In every run an entry thrown out by a store or an unpin was last used before every other entry that stays without a pin |
| `CacheRuns.ResidentIsLastValue` | internal/cache/cache.go:130-202 | In every run a resident entry holds the value of the last admitted store of its key, and neither the key nor its torrent was dropped since |
| `CacheRuns.LeavesOnlyWhen` | internal/cache/cache.go:149-271 | An entry leaves only when it or its torrent is dropped, when its own store finds no room, or without a pin when a store or an unpin finds the cache above high water |
| `CacheRuns.StoreDecides` | internal/cache/cache.go:149-191 | A value enters if and only if it fits the capacity beside the other pinned entries and, under a sized pin, the pin budget beside the other reservations; a value outside the capacity or the budget changes nothing, one without room takes its key along |
| `CacheRuns.PinDecides` | internal/cache/cache.go:213-260 | A sized pin is granted if and only if the key has reserved enough already or the larger of request, resident bytes and reservation fits the budget beside the other reservations, and then holds that much |
| `CacheRuns.AccountCloses` | internal/cache/cache.go:488-500 | A torrent whose last resident bytes go has no account any more |
| `PieceCache.Cache.Get` | internal/cache/cache.go:130-146 | A hit returns the stored bytes and moves the entry to the front; a miss changes nothing |
| `PieceCache.Cache.Put` | internal/cache/cache.go:149-191 | In-place form of the model's Put |
| `PieceCache.Cache.Remove` | internal/cache/cache.go:194-202 | In-place removal with its accounts |
| `PieceCache.Cache.PinSize` | internal/cache/cache.go:213-260 | In-place form of the reservation |
| `PieceCache.Cache.Unpin` | internal/cache/cache.go:263-271 | In-place form of the release and its eviction pass |
| `PieceCache.Cache.Victim` | internal/cache/cache.go:451-461 | The scan finds the least recently used entry that is neither pinned nor kept |
| `PieceCache.Cache.EvictPass` | internal/cache/cache.go:435-449 | The loop computes the model's eviction pass |
| `PieceCache.Cache.RecountPinned` | internal/cache/cache.go:480-486 | The recount is the sum of the reservations |
| `PieceCache.Cache.DropTorrent` | internal/cache/cache.go:385-397 | The walk removes exactly one torrent's entries and keeps the others' order |
| `PieceCache.Cache.InvalidateTorrent` | internal/cache/cache.go:385-404 | In-place form, entries and pins |
| `PieceCache.Cache.ContiguousRun` | internal/cache/cache.go:339-369 | Never more than the limit; exactly the distance to the first missing piece when resident pieces have their nominal extent and the range lies inside the torrent |
| `Spans.AbsorbExact` | internal/piecestore/store.go:74-104 | Recording a range keeps the list sorted and separated and adds exactly that range |
| `Spans.CoversExact` | internal/piecestore/store.go:106-113 | On a canonical list the single-range test is true exactly when every byte arrived |
| `Spans.Cover` | internal/piecestore/store.go:74-104 | The merging loop, with both facts as its contract |
| `Spans.Canonical` | internal/piecestore/store.go:52-58 | Two canonical lists that denote the same bytes are equal |
| `Spans.AbsorbGain` | internal/session/prefetch.go:542-570 | The byte count grows exactly when the recorded span held a new byte |
| `StoreModel.StepInv` | internal/piecestore/store.go:197-507 | Every handle and store operation, in any interleaving, keeps generations, buffers, hashes in progress and tokens consistent |
| `StoreModel.RunInv` | internal/piecestore/store.go:141-507 | The invariant holds in every interleaving of handles and lifetimes |
| `StoreModel.PromotedWasHashed` | internal/piecestore/store.go:453-483 | In every interleaving the bytes MarkComplete puts into the cache all arrived, and, unless a received byte was changed or a hash of the generation had read other bytes before its handle adopted it, were handed to a completed hash of the same generation |
| `StoreModel.OverwriteDecides` | internal/piecestore/store.go:418-448 | In every run, after a write into a verified, untainted buffer the piece may still be promoted, and its bytes were handed to a hash of that generation if and only if the chunk changes no received byte |
| `StoreModel.OverwrittenByteIsPromoted` | internal/piecestore/store.go:418-480 | A concrete run: write, hash, overwrite; promotion is enabled and no hash was handed the byte |
| `StoreModel.StrayDecides` | internal/piecestore/store.go:263-281 | In every run, a hash that ends with a token for an untainted buffer makes it promotable, and its bytes were handed to a hash of that generation if and only if this hash read no differing byte before its handle adopted the generation, or an earlier hash had completed |
| `StoreModel.StrayedByteIsPromoted` | internal/piecestore/store.go:344-446 | A concrete run: a hash reads the resident byte, the handle is written through, a read, the hash ends; promotion is enabled and no hash was handed the byte |
| `StoreModel.WriteStepIsWrite` | internal/piecestore/store.go:418-448 | The write of a run is the write the store class performs |
| `StoreModel.ReadsOnlyArrived` | internal/piecestore/store.go:307-327 | In every interleaving a read served from staging returns only delivered bytes |
| `StoreModel.DeadForever` | internal/piecestore/store.go:141-232 | A lifetime that ended never opens again |
| `StoreModel.DeadHandleInert` | internal/piecestore/store.go:253-260 | After any further run, no operation through a handle of an ended lifetime touches the store or the cache |
| `StoreModel.LateRunInert` | internal/piecestore/store.go:203-260 | Any sequence of late operations, through handles of replaced or closed lifetimes or closing them again, leaves every later lifetime open with its buffers, tokens, epochs and cached pieces |
| `StoreRuns.BufferIsDelivered` | internal/piecestore/store.go:418-448 | In every run a live buffer has received exactly the bytes that writes delivered into its generation, each with the value delivered last |
| `StoreRuns.ReadDecides` | internal/piecestore/store.go:307-327 | In every run, byte by byte: from a live buffer the delivered bytes if and only if all that were asked for arrived, else nothing; without one the resident bytes from the offset on, short exactly by what lies past their end; nothing in an ended lifetime |
| `StoreRuns.ReadTouches` | internal/piecestore/store.go:320-326 | A read of a resident piece without a live buffer, and no other, counts as a use of it |
| `StoreRuns.LastReadMeans` | internal/piecestore/store.go:314-320 | In every run the recorded last read of a live buffer says whether it was read since it was opened |
| `StoreRuns.TokenDecides` | internal/piecestore/store.go:263-281 | In every run a hash earns the token if and only if it was handed the whole piece in an open lifetime through a handle of the current generation, and the piece is resident or in a buffer delivered in full and read since it was opened |
| `StoreRuns.TakenForever` | internal/piecestore/store.go:453-507 | In every run a promoted or discarded generation has no buffer again in any later run, its token goes, the promoted bytes enter the cache or the cached value goes, and other keys keep theirs |
| `StoreRuns.StaleDiscardKeeps` | internal/piecestore/store.go:485-507 | A handle of another generation cannot discard a buffer; only the cached value goes |
| `StoreRuns.EndLeavesNothing` | internal/piecestore/store.go:197-232 | Ending the current lifetime leaves nothing of the torrent in any table and the other torrents as they were |
| `StoreRuns.OpensLifetime` | internal/piecestore/store.go:141-186 | Opening joins the current lifetime while it is open, else starts one never used before; a closed store gives none |
| `StoreRuns.EndCloses` | internal/piecestore/store.go:197-232 | An ended lifetime is open under no name, whether or not it was the current one, and others stay open |
| `StoreRuns.CloseLeavesNothing` | internal/piecestore/store.go:285-303 | A closed store has empty tables and opens nothing |
| `StoreRuns.AttachDoes` | internal/piecestore/store.go:165-186 | A new handle is of the generation its piece is at |
| `StoreRuns.HashDoes` | internal/piecestore/store.go:344-356 | A hash starts with nothing, takes over each window served in full, and ends at any other answer |
| `StoreRuns.WriteDoes` | internal/piecestore/store.go:418-446 | A chunk makes its handle one of the generation it went to; a first chunk opens a new generation and throws the resident value away |
| `PieceStore.Store.OpenTorrent` | internal/piecestore/store.go:141-186 | Refuses unusable piece lengths, joins the current lifetime, or starts a new one |
| `PieceStore.Store.EndLife` | internal/piecestore/store.go:197-232 | Ends one lifetime; only the current one takes the torrent's state along |
| `PieceStore.Store.Close` | internal/piecestore/store.go:285-303 | Drops every buffer, token and lifetime |
| `PieceStore.Store.Read` | internal/piecestore/store.go:307-327 | One window under the lock: staging first, then the cache, which is touched only in an open lifetime without a live buffer |
| `PieceStore.Store.MarkVerified` | internal/piecestore/store.go:263-281 | Issues the token exactly when lifetime, epoch, coverage and last read agree |
| `PieceStore.Piece.WriteAt` | internal/piecestore/store.go:418-448 | A first chunk starts a generation and drops the cached value; a chunk outside the piece is refused |
| `PieceStore.Piece.WriteTo` | internal/piecestore/store.go:344-356 | Success means the whole piece was handed over and the token is of its generation; a complete current buffer always succeeds |
| `PieceStore.Piece.MarkComplete` | internal/piecestore/store.go:453-483 | Promotes the buffer exactly under a token of its own generation |
| `PieceStore.Piece.MarkNotComplete` | internal/piecestore/store.go:485-512 | Drops the handle's own buffer and the cached value, or nothing in an ended lifetime |
| `Playback.MergeByteSpan` | internal/session/prefetch.go:542-570 | The sorted merge denotes exactly old plus new bytes, and the gain is positive exactly when some byte was new |
| `Playback.AdvanceLoop` | internal/session/prefetch.go:588-605 | The loop over the pending spans computes the model's advance |
| `Playback.AdvanceExact` | internal/session/prefetch.go:588-605 | Everything skipped was delivered, nothing beyond the cursor is lost, and the cursor rests on a missing byte |
| `Playback.RecordFollows` | internal/session/prefetch.go:572-605 | Recording a read keeps the cursor determined by the anchor start and the read log, and never moves it back |
| `Playback.FollowsFirstGap` | internal/session/prefetch.go:588-605 | Such a cursor is the first byte at or after the anchor start that no read delivered |
| `Playback.PlayFollows` | internal/session/prefetch.go:572-605 | Holds after every sequence of reads |
| `Playback.CursorOrderFree` | internal/session/prefetch.go:572-605 | Reads that delivered the same bytes, in any order and however split, leave the cursor at the same place |
| `PlayerModel.CursorIsFirstGap` | internal/session/prefetch.go:572-610 | In every run of begins, finishes, waits, passes, releases and shutdowns, a held cursor is the first byte at or after the anchor start that no read of its log delivered |
| `PlayerModel.CursorNeverMovesBack` | internal/session/prefetch.go:322-448 | In every run, between any two moments of one generation with an anchor held at the end: the same anchor all along, a log that only grew, a cursor that did not move back |
| `PlayerModel.HeldAnchorJumpsExactlyWhenConfirmed` | internal/session/prefetch.go:415-448 | In every run a held anchor changes generation if and only if a live, delivered read of the current generation that belongs to the candidate ends and brings bytes new to it after a different read had brought some, or its own file is released; the first moves it to the file and start of the candidate with the log of its reads, the second gives it up |
| `PlayerModel.RunInv` | internal/session/prefetch.go:174-218 | The playback invariant holds after every run |
| `PlayerModel.NextInv` | internal/session/prefetch.go:322-677 | Every operation keeps the playback invariant and moves playback only onward, with the exact condition of a jump |
| `PlayerModel.BegunInv` | internal/session/prefetch.go:346-395 | A beginning read sets an anchor only where none is held |
| `PlayerModel.RecordedInv` | internal/session/prefetch.go:572-610 | A delivered read of the window extends the log and never moves the cursor back |
| `PlayerModel.SightedInv` | internal/session/prefetch.go:612-636 | Counting a read of the candidate keeps its spans equal to what was delivered |
| `PlayerModel.EnoughExact` | internal/session/prefetch.go:620-636 | The counters reach the confirmation threshold exactly when a different read had delivered bytes of the candidate and this one delivers new ones |
| `PlayerModel.ReanchoredInv` | internal/session/prefetch.go:638-677 | The new anchor follows from the candidate's start and sightings |
| `PlayerModel.FinishedInv` | internal/session/prefetch.go:415-448 | A finished read keeps the invariant, confirmation and departure included |
| `PlayerModel.ReleasedInv` | internal/session/prefetch.go:1085-1122 | Releasing a file keeps the invariant |
| `PlayerRuns.RunAgrees` | internal/session/prefetch.go:322-677 | In every run, start, log and confirmation of the anchor, and start, sightings and counted reads of the candidate, are what the reads alone determine |
| `PlayerRuns.CursorFollowsHistory` | internal/session/prefetch.go:572-610 | In every run a held cursor is the first byte at or after the anchor's beginning that no delivered window read since then covers, the candidate's reads included after a seek |
| `PlayerRuns.AnchorLostExactlyWhen` | internal/session/prefetch.go:766-785 | In every run a held anchor is given up if and only if its file is released, at shutdown, or when the last window read ends while the cursor has not moved and the anchor did not come from a seek |
| `PlayerRuns.BeginTickets` | internal/session/prefetch.go:346-395 | A beginning read gets one new ticket: of the window from 8 MiB before to 32 MiB after the cursor, of the candidate within 8 MiB, or of a new candidate |
| `PlayerRuns.EndTickets` | internal/session/prefetch.go:415-448 | An ending read gives up its own ticket only; a released file takes exactly its own along |
| `PlayerRuns.CandidateLost` | internal/session/prefetch.go:588-605 | A candidate is forgotten if and only if the anchor is lost or moves to it, its file is released, or a window read leaves the cursor more than 64 MiB away |
| `PlayerRuns.NobodyElsesCandidate` | internal/session/prefetch.go:612-616 | In every run a read begun for an earlier candidate never counts for a later one |
| `PlayerRuns.ClosedForever` | internal/session/prefetch.go:1211-1247 | In every run nothing is held and no read is in flight after a shutdown, whatever comes later |
| `PrefetchModel.EnterSteady` | internal/session/prefetch.go:381-408 | A ticket that joins takes references and removes leases without breaking the ledger |
| `PrefetchModel.LeaveSteady` | internal/session/prefetch.go:740-755 | A ticket that leaves gives back exactly its waits and references |
| `PrefetchModel.StartWaitSteady` | internal/session/prefetch.go:691-709 | A read that starts waiting for a piece takes it off the lease list |
| `PrefetchModel.EndWaitSteady` | internal/session/prefetch.go:711-738 | Wait counts stay equal to the sum over the live tickets |
| `PrefetchModel.AbandonSteady` | internal/session/prefetch.go:662-671 | Emptying the window after a seek returns every pin and lease |
| `PrefetchModel.DropAnchorSteady` | internal/session/prefetch.go:766-785 | Giving the anchor up leaves neither lease nor window pin |
| `PrefetchModel.PruneSteady` | internal/session/prefetch.go:836-845 | Pruning removes window pins and leases outside the window and leases on pieces being read |
| `PrefetchModel.WindowSeqSteady` | internal/session/prefetch.go:847-858 | Pinning the window keeps the ledger exact; without a refusal every wanted piece is pinned |
| `PrefetchModel.LeaseAllSteady` | internal/session/prefetch.go:892-915 | New leases are window-pinned, not being read, and paid from the budget |
| `PrefetchModel.ShutInv` | internal/session/prefetch.go:1211-1247 | Shutdown refunds every lease and leaves none of the torrent's pieces pinned |
| `PrefetchModel.ClosedHoldsNothing` | internal/session/prefetch.go:1211-1247 | A closed coordinator has no lease and no pin |
| `PrefetchRuns.JoinDoes` | internal/session/prefetch.go:381-408 | A joining read holds a reference on exactly those of its pieces that are referenced then, waits for none, and takes their leases; nothing else changes |
| `PrefetchRuns.LeaveDoes` | internal/session/prefetch.go:740-755 | A leaving read takes exactly its ticket, its waits and one reference on each piece it held |
| `PrefetchRuns.StartDoes` | internal/session/prefetch.go:691-709 | A read waits once more for the piece, as does the coordinator, and the lease of the piece is gone |
| `PrefetchRuns.EndDoes` | internal/session/prefetch.go:711-738 | One wait is undone if there is one |
| `PrefetchRuns.RetagDoes` | internal/session/prefetch.go:660-677 | A retagged ticket holds what it held, and no other changes |
| `PrefetchRuns.EmptyDoes` | internal/session/prefetch.go:766-785 | Giving up the window leaves no window pin and no lease, and every ticket as it was |
| `PrefetchRuns.PruneDoes` | internal/session/prefetch.go:836-845 | Pruning keeps exactly the wanted window pins and the leases that are not cancelled |
| `PrefetchRuns.PinDoes` | internal/session/prefetch.go:847-858 | Pinning adds exactly the wanted pieces before the first refused one |
| `PrefetchRuns.SizeMeans` | internal/session/prefetch.go:1069-1079 | A piece is asked for with the number of torrent bytes that lie in it |
| `PrefetchRuns.RetainDoes` | internal/session/prefetch.go:1048-1056 | A first reference is granted if and only if the piece fits the pin budget beside the other reservations, and reserves it; a later one is always granted and reserves nothing more |
| `PrefetchSystem.PerformInv` | internal/session/prefetch.go:174-218 | Any sequence of a coordinator's moves keeps: references equal window plus tickets, pins equal references, leases window-pinned and unread, none without an anchor |
| `PrefetchSystem.PerformSound` | internal/session/prefetch.go:1211-1247 | Any sequence of moves keeps a coordinator in order; a closed one has empty tables and its moves change nothing |
| `PrefetchSystem.SessionRuns` | internal/session/prefetch.go:74-103 | In every run of any number of coordinators, with torrents closed, dropped and opened again, used equals the sum of their leases and never exceeds the limit, the pinned pieces are exactly those referenced by the one open coordinator of their torrent, and a closed coordinator has empty tables |
| `PrefetchSystem.ClosedCoordinatorInert` | internal/session/torrents.go:331-367 | In every run, whatever a closed coordinator is still asked to do leaves the whole session as it is, a later coordinator of the same torrent included |
| `PrefetchSystem.Restarts` | internal/session/torrents.go:309-311 | In every run, shutting down a torrent's coordinator refunds its leases, and a new one for the same torrent starts without a pin |
| `PrefetchSystem.ForgetKeepsPins` | internal/session/torrents.go:364-366 | Dropping a torrent nobody serves from the cache takes no pin away |
| `Prefetch.SharedBudget.TryAcquire` | internal/session/prefetch.go:87-95 | Grants exactly while used is below the limit |
| `Prefetch.SharedBudget.Release` | internal/session/prefetch.go:97-103 | Refunds one lease |
| `Prefetch.Coordinator.constructor` | internal/session/prefetch.go:254-294 | A new coordinator is valid: it has no anchor, ticket, lease or pin |
| `Prefetch.Coordinator.Concludes` | internal/session/prefetch.go:174-218 | An operation that moves the ledger by its moves and playback by its step leaves the coordinator valid |
| `Prefetch.Coordinator.RetainPiece` | internal/session/prefetch.go:1048-1056 | The first reference pins; a refused pin changes nothing |
| `Prefetch.Coordinator.ReleasePiece` | internal/session/prefetch.go:1058-1067 | The last reference unpins |
| `Prefetch.Coordinator.CancelLease` | internal/session/prefetch.go:964-975 | A cancelled lease returns to the budget once |
| `Prefetch.Coordinator.CancelUnneeded` | internal/session/prefetch.go:955-962 | Cancels exactly the leases outside the window or on pieces being read |
| `Prefetch.Coordinator.CompleteActive` | internal/session/prefetch.go:940-953 | Retires exactly the leases whose piece is resident |
| `Prefetch.Coordinator.RemoveForeground` | internal/session/prefetch.go:740-755 | The ticket leaves with its waits and references |
| `Prefetch.Coordinator.RecordConsumed` | internal/session/prefetch.go:572-586 | In-place form of a delivered window read |
| `Prefetch.Coordinator.RecordCandidate` | internal/session/prefetch.go:612-636 | In-place form of a delivered candidate read; true exactly when it counts, brings new bytes and is enough |
| `Prefetch.Coordinator.Reanchor` | internal/session/prefetch.go:638-658 | In-place form of the jump to the candidate |
| `Prefetch.Coordinator.Classify` | internal/session/prefetch.go:346-379 | In-place form: exactly when a read sets the anchor, belongs to the window or to the candidate, or opens a new one |
| `Prefetch.Coordinator.BeginForeground` | internal/session/prefetch.go:322-413 | Keeps the coordinator valid; a read becomes a ticket that asked for exactly the wanted pieces, or is refused exactly when empty or closed; playback takes the model's step |
| `Prefetch.Coordinator.StartPiece` | internal/session/prefetch.go:691-709 | Keeps the coordinator valid; the lease goes and both wait counts rise |
| `Prefetch.Coordinator.FinishPiece` | internal/session/prefetch.go:711-738 | Keeps the coordinator valid; both wait counts fall |
| `Prefetch.Coordinator.FinishForeground` | internal/session/prefetch.go:415-448 | Keeps the coordinator valid; playback takes the model's step and the ledger a run of the model's moves |
| `Prefetch.Coordinator.DesiredPieces` | internal/session/prefetch.go:977-1003 | Exactly the pieces that hold a byte between the cursor and the end of the window, the file or the torrent, in order |
| `Prefetch.Coordinator.AcquireLeases` | internal/session/prefetch.go:892-915 | Nothing once enough is buffered; otherwise, within the budget, exactly the lacking pieces of a first part of the window, which is all of it unless the limit was reached |
| `Prefetch.Coordinator.Reconcile` | internal/session/prefetch.go:824-917 | Keeps the coordinator valid and playback unchanged; the pass prunes to exactly the window, pins it in order up to the first refusal, and then, from the bytes buffered ahead and the high mark, retires exactly the arrived leases, waits, or leases exactly the lacking pieces in window order until none is left or the budget is used up |
| `Prefetch.Coordinator.PinDesired` | internal/session/prefetch.go:847-861 | Pins in order up to the first refusal; the reserved bytes are the window bytes of the pieces before it |
| `Prefetch.Coordinator.Reserve` | internal/session/prefetch.go:847-863 | The high mark is what the window and the file leave, or what got a reservation |
| `Prefetch.Coordinator.Load` | internal/session/prefetch.go:870-916 | A full window only retires arrived leases, a refused one waits, any other gets exactly its first lacking pieces leased as far as the budget goes |
| `Prefetch.PassServes` | internal/session/prefetch.go:824-917 | After a pass over a window that was neither refused nor full, every window piece is resident, being read or leased, or leasing had used up the budget |
| `Prefetch.HighMarkMeans` | internal/session/prefetch.go:923-933 | Without a refusal the high mark is what is left of the file, at most 32 MiB; a refusal lowers it to the bytes of the pieces pinned before it |
| `PlaybackWindow.WindowBytesMeans` | internal/session/prefetch.go:977-1003 | Read-ahead may fetch exactly the bytes from the cursor on within 32 MiB, the file and the torrent |
| `PlaybackWindow.OverlapMeans` | internal/session/prefetch.go:1025-1046 | The overlap of a piece is the number of its bytes ahead in file and torrent |
| `Prefetch.Coordinator.DropUnused` | internal/session/prefetch.go:766-785 | The anchor is given up exactly when no ticket reads its window |
| `Prefetch.Coordinator.Depart` | internal/session/prefetch.go:436-441 | The ticket leaves, and an anchor that no read confirmed goes exactly with its last reader |
| `Prefetch.Coordinator.ReleaseFile` | internal/session/prefetch.go:1085-1122 | Keeps the coordinator valid; no ticket, candidate or anchor of the file remains, and every other ticket does |
| `Prefetch.Coordinator.Cleanup` | internal/session/prefetch.go:1211-1247 | Keeps the coordinator valid and ends closed, with the playback fields cleared |
| `Prefetch.UniquePieceIndexes` | internal/session/prefetch.go:1249-1263 | Distinct indexes, the same set |
| `FlightModel.RunInv` | internal/session/file.go:148-247 | Every interleaving of join, leave, store, completion and Close keeps the flight tables consistent |
| `FlightModel.RegisteredMeansAwaited` | internal/session/file.go:148-177 | Registered flights are exactly the unfinished ones somebody waits for; the waiter count is the number of joined readers |
| `FlightModel.OneUsefulFlight` | internal/session/file.go:148-227 | While open, a flight is cancelled exactly when nobody waits for it, and no two uncancelled flights of one piece run at once |
| `FlightModel.JoinsRunningFlight` | internal/session/file.go:148-177 | A joining reader gets a running, uncancelled flight of its piece, or is refused after Close |
| `FlightModel.LeavingKeepsOthers` | internal/session/file.go:215-227 | Leaving cancels the flight exactly when the leaver was the last reader, and touches no other flight |
| `FlightModel.QuietAfterClose` | internal/session/file.go:229-247 | Once the first Close has returned no flight can put into the cache |
| `FlightModel.StaysQuiet` | internal/session/file.go:229-247 | In any continuation of such a run the fetcher stays quiet |
| `FlightModel.CompletionFinishes` | internal/session/file.go:202-212 | In every run a completed flight is finished and in no table; its readers and all other flights are left alone |
| `FlightModel.StoringMarks` | internal/session/file.go:180-212 | The piece goes into the cache before its flight finishes, and nothing else changes |
| `FlightModel.ClosingWaits` | internal/session/file.go:229-247 | In every run closing cancels exactly the running flights, waits for exactly those and may return once each is finished |
| `PieceFetcher.Fetcher.JoinFlight` | internal/session/file.go:148-177 | In-place form |
| `PieceFetcher.Fetcher.DetachFlight` | internal/session/file.go:215-227 | In-place form |
| `PieceFetcher.Fetcher.FinishFlight` | internal/session/file.go:202-212 | In-place form |
| `PieceFetcher.Fetcher.BeginClose` | internal/session/file.go:229-242 | Cancels every live flight and returns those to wait for |
| `ReadPlan.Clamp` | internal/cache/policy.go:37-63 | In wrapping 64-bit arithmetic, exactly the range unbounded arithmetic asks for, or none |
| `ReadPlan.WantedMeans` | internal/cache/policy.go:37-63 | The wanted range holds exactly the bytes of the requested part of the file that lie in the torrent; it is empty only when there is none or one lies past the largest 64-bit number |
| `ReadPlan.Plan` | internal/cache/policy.go:37-92 | Nothing when nothing is wanted; otherwise consecutive nonempty spans that tile the wanted range, if and only if the end of the last piece is a 64-bit number |
| `ReadPlan.LastByteWraps` | internal/cache/policy.go:37-92 | A concrete 64-bit request whose only span has a negative length |
| `FileReader.ReadPiece` | internal/session/file.go:666-701 | Success delivers the exact bytes; EOF is never passed on; any other error was reported by the loader or a cancellation, or is a short piece after five short answers; a loader without errors that answers in full at least once in five calls always succeeds |
| `FileReader.GetPiece` | internal/session/file.go:631-657 | A whole piece from the cache or the loader, or an error that is not EOF and has a cause outside; never an error from such a loader |
| `FileReader.GetSpan` | internal/session/file.go:608-629 | Exactly the bytes the span names, or an error with a cause outside; never an error from such a loader |
| `FileReader.ReadAt` | internal/session/file.go:512-596 | Success fills the buffer with exactly the bytes asked for; EOF only when the request passes the end of the file (or of the torrent, for a file that reaches past it), with everything up to it delivered; after any error the buffer holds a correct prefix and nothing else is touched; any other error has a cause outside (cancelled, closed, reported by the loader, or five short answers); with a loader that answers in full at least once in five calls success and EOF are decided by the end of the file alone |
| `FileReader.ExtentMeans` | internal/cache/policy.go:37-63 | A place in the file is served exactly when the file and the torrent both reach it |
| `FileReader.SomebodyIsWilling` | internal/session/file.go:659-665 | Such loaders exist, also among those whose first answer is always short |
| `SnapshotModel.RunInv` | internal/vfs/snapshot_cache.go:35-162 | The invariant of every run of observations, publications, removals and listings |
| `SnapshotModel.ReadMayPublish` | internal/vfs/snapshot_cache.go:121-143 | A read may publish exactly when nothing was published, refreshed, dropped or removed for its hash since it began |
| `SnapshotModel.ListingMayPublish` | internal/vfs/snapshot_cache.go:75-127 | A listing may publish exactly when the hash was not removed since it began, every listing finished meanwhile found it, and its slot is as it was; it never overwrites something newer |
| `SnapshotModel.RemovalIsFinal` | internal/vfs/snapshot_cache.go:145-162 | After a hash was removed nothing begun earlier can publish or refresh it, in any run |
| `SnapshotModel.ListingRemovesOnlyStale` | internal/vfs/snapshot_cache.go:81-112 | Exactly which hashes a finished listing removes; a value published after it began stays |
| `SnapshotModel.NoPlaceholderLeaks` | internal/vfs/snapshot_cache.go:49-56 | Once every read has finished, every slot holds a value |
| `SnapshotRuns.HoldsLastPublished` | internal/vfs/snapshot_cache.go:81-162 | In every run a slot holds exactly the value published last for its hash and not removed since by a reader or a listing |
| `SnapshotRuns.SlotsDo` | internal/vfs/snapshot_cache.go:35-162 | A placeholder appears only where there is no slot, a publication keeps the slot, a refresh replaces it with the same value, a finishing reader takes away its own placeholder only |
| `SnapshotRuns.ListingsDo` | internal/vfs/snapshot_cache.go:58-79 | A listing opens with every slot and no fence; a removal by a reader fences its hash in every open listing |
| `SnapshotRuns.OutdatedDoesNothing` | internal/vfs/snapshot_cache.go:49-162 | With an outdated observation no operation changes anything |
| `SnapshotCache.Cache.Observe` | internal/vfs/snapshot_cache.go:35-47 | In-place form |
| `SnapshotCache.Cache.Finish` | internal/vfs/snapshot_cache.go:50-56 | In-place form |
| `SnapshotCache.Cache.ObserveListing` | internal/vfs/snapshot_cache.go:58-73 | In-place form |
| `SnapshotCache.Cache.Unchanged` | internal/vfs/snapshot_cache.go:121-127 | The fence check |
| `SnapshotCache.Cache.Publish` | internal/vfs/snapshot_cache.go:129-143 | In-place form; succeeds exactly when unchanged |
| `SnapshotCache.Cache.Forget` | internal/vfs/snapshot_cache.go:145-162 | In-place form; marks every open listing |
| `SnapshotCache.Cache.FinishListing` | internal/vfs/snapshot_cache.go:81-112 | The two loops do what the model's single step says, whatever the iteration order |
| `SnapshotCache.Cache.Refresh` | internal/vfs/strm_cache.go:145-152 | A different creation time replaces the slot and keeps the value, if the reader is the newest; an equal one changes nothing |
| `Layout.ChildrenOfViews` | internal/vfs/layout.go:36-71 | The loop collects the model's children by name |
| `Layout.ChildrenExact` | internal/vfs/layout.go:42-65 | A child exists exactly when some leaf is it or lies below it, and is a directory exactly when one lies below |
| `Layout.FileExact` | internal/vfs/layout.go:53-63 | A plain child is the first payload file with its path, else the last subtitle |
| `Layout.ListingMeans` | internal/vfs/layout.go:36-71 | The same in terms of whole paths; a subtitle shows only where no payload file has the path |
| `Layout.ListingShows` | internal/vfs/layout.go:53-63 | The entry of such a child: name, path and size of the first file with its path, else name, path, size and time of the last subtitle |
| `Layout.ListChildren` | internal/vfs/layout.go:36-80 | The children as a list: each once, in name order |
| `DirectoryIndex.Version.Index` | internal/vfs/tree.go:296-307 | A cached directory equals the layout function of its version |
| `DirectoryIndex.Tree.DirectoryOf` | internal/vfs/tree.go:255-308 | A lookup answers from what the backend just answered: the layout of its contents, or not found for an error, a single file or an empty subdirectory, given that equal list identities mean equal lists; a version is kept or forgotten exactly by the newest reader |
| `DirectoryRuns.LookupIsLayout` | internal/vfs/tree.go:255-308 | In every run of lookups, removals and listings over the snapshot cache, whatever was published meanwhile, a lookup answers exactly that |
| `DirectoryRuns.RunInv` | internal/vfs/tree.go:255-364 | In every run the slots hold editions whose cached directories equal the layout function |
| `DirectoryRuns.LookupLeaves` | internal/vfs/tree.go:255-364 | A matching edition stays and remembers the directory; otherwise, and only if the slot is as the reader saw it, an edition of the answer takes its place, or the slot goes when there is no directory |
| `Projection.IdentityMeansList` | internal/vfs/strm_cache.go:157-233 | In every run two lists returned with the same identity are equal, which is the promise the directory index relies on |
| `Projection.NeverStale` | internal/vfs/strm_cache.go:209-233 | In every run a listing shows exactly the sizes known at that moment |
| `Projection.ListingTold` | internal/vfs/strm_cache.go:157-233 | In every run a listing shows every file in order, a generated one with the size known by then, any other with its payload size, and has an identity if and only if the source is trusted and every generated size is known |
| `Projection.RunTells` | internal/vfs/strm_cache.go:157-274 | In every run the sizes are what the steps determine: a signed size counts while none is known, a stat if it differs and nothing was recorded since the observation it started from |
| `Projection.ShownAgain` | internal/vfs/strm_cache.go:157-233 | A list that was shown is shown again with the same identity until a size changes |
| `Projection.NextInv` | internal/vfs/strm_cache.go:157-274 | Every listing and every live stat keeps the cached list equal to the one that would be built now |
| `Projection.Torrent.constructor` | internal/vfs/strm_cache.go:113-142 | No size is known at first |
| `Projection.Torrent.ProjectionLocked` | internal/vfs/strm_cache.go:211-233 | The loop builds the model's list |
| `Projection.Torrent.FillSizes` | internal/vfs/strm_cache.go:188-202 | Signed sizes fill only what is still unknown |
| `Projection.Torrent.RememberTextSize` | internal/vfs/strm_cache.go:265-274 | A live size counts only if nothing newer was recorded for that file |
| `Wildcard.GreedyMatch` | internal/smb/names.go:214-235 | The four-index loop computes the matcher's function, accepts only what the pattern means, and all of it for names without a star |
| `Wildcard.GreedyExact` | internal/smb/names.go:214-235 | The matcher is sound for every name and complete for names without a star |
| `Wildcard.CompleteIffNoStar` | internal/smb/names.go:214-235 | It is complete for a name, over all patterns, if and only if the name holds no star |
| `Wildcard.MissedName` | internal/smb/names.go:217-219 | The pattern and the name that are missed |
| `Wildcard.Match` | internal/smb/names.go:207-236 | The same after the match-all shortcuts, the DOS spellings and folding |
| `Wildcard.GlobMeans` | internal/smb/names.go:207-236 | What a pattern means: the name divides into consecutive shares, any run for a star and one character for any other |
| `Wildcard.PatternMeans` | internal/smb/names.go:207-237 | A name matches a search pattern exactly when it divides into shares that suit its characters: any run for `*` or `<`, any character for `?` or `>`, a dot for the quote, and a character that differs at most in case for any other |
| `SmbNames.PortableName` | internal/smb/names.go:149-170 | No control or forbidden character, no trailing dot or space, no device stem, and the original name can be read back |
| `SmbNames.TruncateName` | internal/smb/names.go:196-205 | The longest prefix within the limit |
| `SmbNames.SuffixedName` | internal/smb/names.go:174-186 | A prefix of the name, the suffix, and the kept extension, within 255 UTF-16 units |
| `SmbNames.SaltsDiffer` | internal/smb/names.go:124-134 | Different salts give different folded names, whatever is cut off before them |
| `SmbNames.FreeName` | internal/smb/names.go:124-135 | The search ends after at most one more salt than there are taken names, with a free, legal and short name |
| `SmbNames.SmbNames` | internal/smb/names.go:109-138 | Names pairwise distinct after folding, legal, at most 255 units, and only escaped wherever the name fits and clashes with no other |
| `StrmNames.FitName` | internal/vfs/strm.go:265-279 | The trimming loop computes the fitted name |
| `StrmNames.FitSpells` | internal/vfs/strm.go:265-279 | The name is stem, suffix and ending; a stem that does not fit 255 bytes is cut to its longest valid prefix that does, with eight digits of the hash when there is no other suffix |
| `StrmNames.CandidatesDiffer` | internal/vfs/strm.go:252-254 | Different sequence numbers give different names |
| `StrmNames.FreeCandidate` | internal/vfs/strm.go:252-254 | Among one more number than there are used names one is free, so the search ends |
| `StrmNames.ChooseName` | internal/vfs/strm.go:237-256 | Plain name, name with extension, growing hash prefixes, then numbers |
| `StrmNames.GreedyApart` | internal/vfs/strm.go:237-259 | Names are pairwise distinct, avoid every reserved name, fit 255 bytes and keep their ending |
| `StrmNames.ChooseMeans` | internal/vfs/strm.go:233-256 | The choice is the first free name in order: the stem, the stem with ever longer parts of the hash, the stem with hash and number; the stem of a video includes its extension once the plain name is contested or taken |
| `StrmNames.NamedRightly` | internal/vfs/strm.go:213-259 | In an allocation this holds of every item, given the reserved names and the names before it |
| `StrmNames.PlainNames` | internal/vfs/strm.go:213-259 | A stem that fits, is free and is preferred by no other item is the name with its ending; a contested or taken one of a video gets its extension as well |
| `StrmNames.AllocateNames` | internal/vfs/strm.go:222-261 | The loops allocate by that rule in key order: distinct, bounded, unreserved names with their endings, each the first free one of its stem |
| `StrmNames.OrderDoesNotMatter` | internal/vfs/strm.go:234-236 | With distinct keys every input order gives every key the same name |
| `RegistryModel.SafeUnlessTorn` | internal/session/manage.go:135-236 | At every file operation of every registry operation a ready sidecar has its metainfo and an adding or error sidecar has metainfo or magnet, if and only if the operation is not a torn add |
| `RegistryModel.RunInv` | internal/session/manage.go:135-738 | The invariant holds in every run with crashes and restarts anywhere |
| `RegistryModel.RestartFindsItsFiles` | internal/session/metadata.go:418-504 | Whatever was going on when the process died, restore never reports a missing file |
| `RegistryModel.TornAddBreaksRestart` | internal/session/manage.go:199-216 | The concrete add after which restore does |
| `RegistryModel.DeletionOnward` | internal/session/manage.go:498-584 | Between any two file operations a deletion never turns back; memory keeps up with the disk if and only if its mark was not written unseen |
| `RegistryModel.SidecarLast` | internal/session/manage.go:611-687 | The sidecar is the last owned file to go |
| `RegistryModel.DeletionNeverTurnsBack` | internal/session/manage.go:498-738 | Both, in every run |
| `RegistryModel.UnseenMarkTurnsBack` | internal/session/manage.go:560-564 | After an unseen mark the next edit revives the entry on disk |
| `RegistryModel.DeletionRun` | internal/session/manage.go:611-738 | Through every sequence of deletion steps and crashes, whatever the file operations report, the torrent is being deleted, on disk and in memory, or nothing of it is left |
| `RegistryModel.ResumedDeletionCompletes` | internal/session/manage.go:691-738 | From any deletion on disk, after any such sequence: the next restart leaves nothing behind if and only if nothing was left or all its removals succeed; otherwise the torrent is still being deleted |
| `RegistryModel.AddedSurvives` | internal/session/manage.go:171-222 | A torrent whose add succeeded stays restorable through every later run, crashes and failed writes included, until a deletion is asked for |
| `RegistryRuns.StatusDecides` | internal/session/manage.go:135-341 | Add, resolve, failure, retry, edit, mark and restore set exactly the status they ask for: in memory if and only if the file was published and the sidecar write reported success, on disk if and only if the write took effect |
| `RegistryRuns.ResolvedIsReady` | internal/session/manage.go:290-341 | A resolved magnet is ready, with its metainfo in place, if and only if metainfo and sidecar were written; else it is what it was |
| `RegistryRuns.ReadyLasts` | internal/session/metadata.go:418-523 | Once ready, a torrent is ready in memory and on disk through every later run with crashes and failed writes, until a metadata failure or a deletion |
| `RegistryRuns.EntrySurvives` | internal/session/metadata.go:418-523 | Any live entry, a waiting magnet included, stays restorable through every run without a torn add until a deletion is asked for |
| `RegistryRuns.FilesDecide` | internal/session/metadata.go:274-290 | The stale magnet goes exactly when its removal succeeds, subtitles come only with an upload that wrote them |
| `RegistryRuns.StageRemoves` | internal/session/manage.go:669-688 | Each cleanup stage takes its own file and no other |
| `RegistryRuns.ConcludeDoes` | internal/session/manage.go:625-665 | The end of a deletion changes the sidecar only: failed if that was written, else gone if its removal took effect, else as before |
| `RegistryRuns.LastPoint` | internal/session/manage.go:135-341 | An operation leaves the disk as its last file operation did |
| `RegistryRuns.TakesBack` | internal/session/manage.go:160-236 | A failed add and metainfo for an entry that is gone take back the file they published |
| `RegistryRuns.DutyDecides` | internal/session/manage.go:135-341 | The stale magnet is due for removal exactly once the metainfo is in place with a ready entry |
| `Registry.Torrent.WriteSidecar` | internal/session/registry.go:288-316 | Takes effect, fails without effect, or takes effect and reports an error |
| `Registry.Torrent.PublishFinal` | internal/session/metadata.go:185-207 | Never replaces a file; reports creation only when certain |
| `Registry.Torrent.PublishPending` | internal/session/metadata.go:160-183 | Never replaces a file; reports creation only when certain |
| `Registry.Torrent.AddManaged` | internal/session/manage.go:135-236 | Does the model's add, crash point by crash point |
| `Registry.Torrent.ResolveMagnet` | internal/session/manage.go:304-342 | Persists a resolved magnet, crash point by crash point |
| `Registry.Torrent.RecordMetadataFailure` | internal/session/metadata.go:401-416 | Never touches an entry that is being deleted |
| `Registry.Torrent.RetryMetadata` | internal/session/manage.go:345-366 | Only an adding or error entry is retried |
| `Registry.Torrent.EditEntry` | internal/session/favorite.go:36-51 | Rewrites a live entry in its own state |
| `Registry.Torrent.RemovePending` | internal/session/metadata.go:274-290 | The stale magnet goes only after the metainfo is in place |
| `Registry.Torrent.DeleteByHash` | internal/session/manage.go:498-584 | The mark is on disk before anything is cleaned up |
| `Registry.Torrent.PerformDeleteStage` | internal/session/manage.go:669-687 | Every stage is attempted whatever the earlier ones did |
| `Registry.Torrent.FinishDelete` | internal/session/manage.go:622-654 | The sidecar goes, or records the failure |
| `Registry.Torrent.RunDelete` | internal/session/manage.go:611-640 | Leaves nothing when every step succeeds, else an entry that is still being deleted |
| `Registry.Torrent.ResumeDeletion` | internal/session/manage.go:691-738 | Restarts an interrupted deletion |
| `Registry.Torrent.RestoreEntry` | internal/session/metadata.go:427-503 | Restores a live entry, rewriting its sidecar unless it is ready and unchanged; the missing-file error only when a file is missing |
| `UploadRate.ClockRoundTrip` | internal/session/upload_rate_settings.go:78-90 | The parser accepts exactly the 1440 canonical times and reads each back |
| `UploadRate.Compile` | internal/session/upload_rate_settings.go:95-127 | Accepts exactly nonnegative limits with no window, or positive ones with two canonical times in order |
| `UploadRate.LimitedMeans` | internal/session/upload_rate.go:62-68 | The limit applies if and only if some day's window, from the start of its first minute to the start of its end minute, holds the local time |
| `UploadRate.NextTransition` | internal/session/upload_rate.go:91-122 | In any zone the first second that differs after the last agreeing minute probe, or the end of the lookahead when all agree; this is the earliest later second that differs, or the end when there is none, if and only if the first flip is not undone at the next whole minute counted from now |
| `UploadRate.ByMinuteLasts` | internal/session/upload_rate.go:105-109 | Where the state changes at whole minutes of any phase, every flip lasts until it is probed |
| `UploadRate.WholeMinuteStates` | internal/session/upload_rate.go:62-68 | Where the offset changes at whole minutes of local time, so does the state |
| `UploadRate.ShortenedWindowIsSteppedOver` | internal/session/upload_rate.go:105-109 | A one-minute window cut short by a clock change of 28 seconds: the flip does not last until it is probed |
| `UploadRate.NextTransitionConstant` | internal/session/upload_rate.go:91-122 | In a constant-offset zone: always such a second, at most a day ahead |
| `UploadRate.FlipsDaily` | internal/session/upload_rate.go:62-68 | A proper window flips within a day from any instant |
| `UploadRate.SkippedWindowDoesNotFlip` | internal/session/upload_rate.go:117-121 | A window in a skipped hour does not flip within the lookahead |
| `UploadRate.LimitHolds` | internal/session/upload_rate.go:72-77 | The limit in force does not change until the transition that was found, if and only if it is the right one or nothing is limited |
| `UploadRate.Controller.SetPolicy` | internal/session/upload_rate.go:193-199 | The new policy's limit is in force at once |
| `UploadRate.Controller.Round` | internal/session/upload_rate.go:217-231 | After one round the limiter is right until the boundary the runner waits for, if and only if the next flip lasts until it is probed or nothing is limited; without a schedule, for ever |

## Left out

Behaviour that is not modelled:

- HTTP API, web interface, FUSE and SMB protocol adapters, configuration, logging, the torrent client itself, trackers, the lab build.
- Counters and reports: hits, misses, statistics, snapshots for monitoring.
- Wall-clock time, goroutine scheduling, channels and wake-ups: steps may come in any order instead. Contexts appear only as "was cancelled" answers.
- 64-bit overflow outside `ReadPlan`: capacity times seven in the watermarks, identifiers and generations that wrap around, piece arithmetic in the coordinator.
- Slots, lifetimes, flights, versions and files are identified by numbers instead of object references; a number is never reused, as the reference of a live object is not.
- Cache: `UnpinTorrent` and the pins without a size, which no caller on the live path makes, except as the legacy pin of the run theorem.
- Prefetch: the filling/paused/blocked state and its low mark (the source always re-enters filling, so the mark gates nothing), the two cursor fields that only mirror the cursor, the budget's test-only limit change.
- Prefetch runs: only coordinators pin, as on the live path, and a deleted torrent is added again only after its close has returned, so the cache drops a torrent only while no coordinator serves it (internal/session/torrents.go:331-367, internal/session/manage.go:669-678).
- Claims made only by comments that the code does not keep and that are not stated: hysteresis between the low and high marks of read-ahead, and that a short piece ends a contiguous run.
- Piece store: the hash itself; a completed hash is the byte stream it was handed.
- File reads: the coordinator's part in a read (tickets) is modelled separately; the legacy window pins of a read without a coordinator are not.
- Snapshot cache: the duplicate of it in the filesystem package, and eviction callbacks of directory handles.
- Root entries and category directories are not modelled.
- SMB names: the final sort of the entries by folded name, and the name index per directory version. Case mapping of extensions and device names is ASCII; one character outside ASCII (U+0130) lower-cases to an ASCII letter of the `.iso.strm` ending and would be treated as part of it.
- STRM names: replacing separators and invalid UTF-8 in stems before allocation; validity of a byte string is a parameter that must accept the empty string.
- Registry: one torrent at a time, since operations on different hashes share no file; names, categories, timestamps and operation identifiers of an entry; the namespace guard and source parsing that may refuse an add before any file is touched; a partly removed subtitle tree counts as still present.
- Registry: `writeMetadataBytes`, the legacy layout migration, and the category index.
- Upload limits: times are whole seconds; a clock reading with a fraction keeps it, so the timer may fire up to a second after the flip.

Contracts stated for fewer inputs or outcomes than the source handles:

- SmbNames.SmbNames: at most 2^62 entries, so that salts stay within 64 bits.
- StrmNames.AllocateNames: at most 2^63 names and reserved names together, and hashes of 8 to 64 digits, which are the lengths its two callers pass.
- FileReader.ReadAt: for a torrent whose length plus one piece fits 64 bits, and for cached pieces and complete loader reads that hold the torrent's bytes.
- DirectoryIndex.Tree.DirectoryOf: whether the reader is the newest is a parameter of the class; `DirectoryRuns` takes it from the snapshot cache.
- Registry.Torrent.RunDelete: describes an undisturbed run; interleavings are covered by the run theorems.
