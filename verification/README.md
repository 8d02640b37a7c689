# Verified model of the vincenzo download engine

This project models the hard logic of a BitTorrent client and proves what it
keeps. `dafny verify dfyconfig.toml` checks all of it.

The state that the program changes in place is a class here whose methods follow
the program statement by statement, and each method is proved equal to a step
function on values. What the program is for is then proved about those step
functions, over every run.

* **Layout and disk** (`Metainfo`, `DiskLayout`, `DiskModel`, `Disk`, `DiskRuns`,
  `DiskCompletion`, `DiskCorruption`, `DiskAnswers`). A torrent is one flat byte
  string cut into pieces, into blocks, and into files. Writes through several files
  refine one flat write; validated pieces stay valid; a piece completes in whatever
  order its blocks come, after a corruption as well; what a peer is served, in
  endgame and before. SHA-1 is an arbitrary function.
* **Requests of one peer** (`RequestModel`, `RequestManager`, `RequestCoherence`,
  `RequestEffects`, `PeerModel`, `Peer`, `PeerRuns`, `PeerRounds`, `PeerEffects`).
  Six coupled collections stay coherent, a fulfilled block is neither requested nor
  written again, and a round requests all that there is room for.
* **Pieces of the torrent** (`TorrentModel`, `Torrent`, `TorrentRuns`). What is
  known of the peers, what is handed out to whom, and that it is handed out once.
* **Sharing out blocks** (`Allocation`, `AllocationMoves`, `AllocationRuns`,
  `AllocationAccount`, `AllocationReplies`, `AllocationProgress`). Torrent, disk
  and any number of peers as one transition system with messages that arrive in any
  order and connections that break at any send, built from the step functions above:
  exclusive ownership, exactly which blocks can be lost, exactly when each is written
  once, sound requests and replies, and that all that is missing is fetched.
* **Choking** (`ChokingModel`, `Choking`, `ChokingRuns`, `ChokingPicks`,
  `ChokingTwins`). The streaming selection of three peers and the unchoke slots, by
  connection.
* **Framing** (`Framed`, `CodecModel`, `Codec`, `CodecRuns`, `CodecWire`). The
  peer wire format, as in the "peer messages" section of BEP 3.
* **Window control** (`CongestionModel`, `CongestionControl`, `CongestionRuns`).
  The delay-based control of BEP 29, over reals.
* **Metadata** (`MetadataModel`, `Metadata`, `InfoModel`, `InfoPieces`). The
  messages of BEP 9 and the reassembly of the info dictionary.
* **Text input** (`TextModel`, `VimInput`, `TextRuns`). The reflowing text buffer.

`Basics` holds the arithmetic and the option and result types shared by all.

## Where the code does something other than its name or comment says

The code is followed. Where this makes a desirable property false, the model has
the exact condition under which it holds:

* a later `Have` does not enter an existing difference (`TorrentRuns.HaveStaysExactIff`);
* the selection of peers by rate fills up with peer 0 (`ChokingModel.SortedByRateIff`);
* a slot may be held by a peer that was not told (`ChokingRuns.SlotsAreToldIff`);
* peers are compared by id when they are choked, and a second connection with an id
  already there is accepted (the error for it at `crates/vcz-lib/src/error.rs:159`
  is never raised), so a connection may stay unchoked without a slot
  (`ChokingRuns.AlwaysAccountedIff`, `ChokingTwins.TwinsMakeFive`);
* a `Have` for a piece beyond the end ends the event
  loop of the torrent (`TorrentRuns.StoppedByHaveIff`);
* dropping the mark of an in-flight item leaves it in the list without an index
  (`RequestCoherence.UnfulfillCoherentIff`);
* adding an item that is waiting already, see `RequestCoherence.AddApartIff`;
* a block that leaves its piece changes a neighbour (`DiskRuns.OtherPiecesKeptIff`);
* `blocks_count` may be too small (`Metainfo.BlockCountExact`);
* a reply that comes after the timeout is dropped with its blocks, and a send that
  fails in a round of requests drops the rest of the round
  (`AllocationRuns.NoBlockIsLostIff`, `AllocationRuns.StepLosesNothingIff`);
* the comment at `crates/vcz-lib/src/peer/mod.rs:467` says that unsolicited blocks
  are ignored; only fulfilled ones are, others are written
  (`AllocationAccount.AccountIsExactIff`);
* a message with an unknown id takes one byte of the next message with it
  (`CodecWire.UnknownSkipsOneMore`), and the length in front of a message of fixed
  length is not looked at (`CodecWire.FixedTakesFrameIff`);
* endgame can begin while blocks are still queued (`DiskAnswers.EndgameBeginsIff`);
* an empty bitfield is lost when the buffer ends with it (`CodecRuns.ChunkingIndependentIff`);
* a data message carries the length of its chunk as the total (`InfoPieces.OwnLengthAsTotalIff`);
* an empty metadata message panics (`Metadata.FromBencode`), and so does serving a
  dictionary that prints shorter than its recorded size (`InfoPieces.ChunkInfo`);
* reflowing never ends when a character is wider than a row (`TextRuns.ReflowEndsIff`);
* the comment at `crates/utp/src/congestion_control.rs:199` has the direction of
  the window change the wrong way round (`CongestionRuns.GainIsPositiveIff`);
* asking for zero pieces hands out all of them (`TorrentModel.WantIsFirstEligible`).

## Model

Methods of one or two assignments that are proved equal to their step function
and say no more than that have no row: `RequestManager.Unfulfill`, `Clear`,
`SetLimit` and `GetAvailableRequestLen`, `Peer.Endgame`, `Blocks` and `SeedOnly`,
`Disk.ReturnBlocks` and `FinishedDownload`, `Torrent.CorruptedPiece` and
`Controller.PacketLoss`.

| member | source | states |
|---|---|---|
| Metainfo.GetBlockInfosOfPiece | crates/vcz-lib/src/metainfo.rs:214-240 | the loop returns exactly the blocks of the piece as cut out of the flat byte string; a last short block takes what remains |
| Metainfo.PieceLenIsSpan | crates/vcz-lib/src/metainfo.rs:293-301 | the remainder-based piece length is the length of the interval the piece occupies; only the last piece ends at the end of the torrent |
| Metainfo.PieceTiling | crates/vcz-lib/src/metainfo.rs:214-240 | the blocks of a piece cut its interval into consecutive non-empty intervals of at most 16384 bytes whose lengths add up to the piece length |
| Metainfo.HasBlocksIff | crates/vcz-lib/src/metainfo.rs:214-240 | a piece has blocks if and only if it starts before the end of the torrent |
| Metainfo.TorrentTiling | crates/vcz-lib/src/metainfo.rs:214-240 | the blocks of all pieces, in order, partition the whole torrent: every byte offset lies in exactly one block |
| Metainfo.BlockCountExact | crates/vcz-lib/src/metainfo.rs:196-198 | `blocks_count` is never more than the number of blocks, and equals it exactly when the padding of all pieces together is under one block; always so when 16384 divides the piece length |
| DiskLayout.ComputeTorrentCache | crates/vcz-lib/src/disk.rs:570-611 | files laid out with running offsets follow each other without gap or overlap and end at the torrent size: the listed files in the multi-file case, one file of the whole length in the single-file case |
| DiskLayout.CalculateWriteOpsForBlock | crates/vcz-lib/src/disk.rs:848-887 | the loop over the files yields, in file order, one operation for each file the block overlaps, clipped at the end of the torrent |
| DiskLayout.WriteOpInsideFile | crates/vcz-lib/src/disk.rs:848-887 | every operation stays inside its file and no file is written twice |
| DiskLayout.MultiFileWriteIsFlatWrite | crates/vcz-lib/src/disk.rs:783-790 | carrying out all operations of a block on the files is one write to the flat byte string: the covered bytes become the data, all others stay |
| DiskLayout.ReadableIsFlatSlice | crates/vcz-lib/src/disk.rs:1123-1177 | reading an interval file by file gives exactly that slice of the flat byte string, wherever the file boundaries are |
| Disk.FeedHalfOpen | crates/vcz-lib/src/disk.rs:1131-1175 | the half-open loop with its early exit feeds the hasher exactly what the files hold of the interval, short mappings included |
| Disk.VerifyPiece | crates/vcz-lib/src/disk.rs:1123-1177 | the start-up check answers whether the bytes readable in the interval of the piece hash to the expected digest |
| Disk.FeedInclusive | crates/vcz-lib/src/disk.rs:1195-1218 | the loop with inclusive ranges and no early exit feeds the hasher what the files hold of the interval |
| Disk.HashersAgree | crates/vcz-lib/src/disk.rs:1186-1222 | both hashers feed the flat bytes of the piece, for every file layout |
| Disk.ComputeDownloadedPieces | crates/vcz-lib/src/disk.rs:492-567 | the counter of a piece found valid at start-up is its length, of any other zero |
| Disk.Disk.constructor | crates/vcz-lib/src/disk.rs:492-567 | a torrent just added has counters that say which pieces are on disk, an empty queue and no endgame |
| Disk.Disk.ValidatePiece | crates/vcz-lib/src/disk.rs:1186-1222 | answers whether the flat bytes of the piece hash to the expected digest |
| Disk.Disk.CopyBlock | crates/vcz-lib/src/disk.rs:783-790 | writing through the mapped files overwrites exactly the covered interval of the flat byte string |
| Disk.Disk.CountBytes | crates/vcz-lib/src/disk.rs:798-841 | counts bytes; a full piece is hashed, then either frozen and announced, or reset, queued again and reported corrupted |
| Disk.Disk.WriteBlock | crates/vcz-lib/src/disk.rs:756-844 | the whole state after a block: ignored if the piece is unknown or already validated, otherwise written and counted |
| Disk.Disk.MoveOwned | crates/vcz-lib/src/disk.rs:641-651 | outside endgame, the longest tail of the queue whose pieces the peer has is popped, last block first |
| Disk.Disk.RequestBlocks | crates/vcz-lib/src/disk.rs:615-662 | the answer to a peer and the queue left: new pieces expanded, queued blocks moved, or copied in endgame; a peer with nothing pending and nothing to get starts the endgame |
| DiskModel.WriteKeepsValidState | crates/vcz-lib/src/disk.rs:756-844 | a counter is always the mark of a validated piece or at most the piece length |
| DiskRuns.OtherPiecesKeptIff | crates/vcz-lib/src/disk.rs:848-887 | a block leaves every other piece alone, whatever is on disk, if and only if it stays inside its own piece |
| DiskRuns.ValidatedPiecesStayValid | crates/vcz-lib/src/disk.rs:793-841 | over every run whose blocks stay inside their piece: a piece marked validated holds bytes that hash to its digest, nothing disturbs them later, and it is announced at most once, exactly if it was marked |
| DiskCompletion.PermutationCovers | crates/vcz-lib/src/metainfo.rs:214-240 | any permutation of the blocks of a piece covers every byte of it |
| DiskCompletion.OrderIndependentCompletion | crates/vcz-lib/src/disk.rs:798-841 | from a zero counter, the blocks of a piece written once each with right bytes, in any order and mixed with other well-behaved events, validate the piece exactly at the last one, announce it once, and never report it corrupted |
| DiskCorruption.WriteReportsIff | crates/vcz-lib/src/disk.rs:798-841 | a piece is reported corrupted exactly by the block with which its bytes are all counted, if it was not frozen and does not hash then; reported downloaded exactly if it hashes; a block sends nothing else |
| DiskCorruption.WriteQueuesIff | crates/vcz-lib/src/disk.rs:808-818 | the queue grows exactly in that step, behind what waited already, by all blocks of the corrupted piece |
| DiskCorruption.WriteCounts | crates/vcz-lib/src/disk.rs:798-841 | what becomes of every counter: it grows by the length of the block, freezes, starts again from zero, or stays |
| DiskCorruption.CorruptedIsServedAgain | crates/vcz-lib/src/disk.rs:808-826 | over every run: after a corruption each block of the piece is in the queue until it has been served to a peer |
| DiskCorruption.CorruptedCompletes | crates/vcz-lib/src/disk.rs:808-841 | from then on the piece completes like a new one: written once more with right bytes, in any order, it is validated exactly at the last block, and was reported corrupted once |
| DiskCorruption.StartsFullIff | crates/vcz-lib/src/disk.rs:546-551 | a counter starts full if and only if the piece was valid on disk, and from zero if and only if it was not |
| DiskCorruption.FinishIsFinal | crates/vcz-lib/src/disk.rs:301-314 | once the download is finished no block changes the files and no piece is announced any more |
| DiskCorruption.OnlyReturnedAfterFinish | crates/vcz-lib/src/disk.rs:301-314 | and what is queued then was given back by a peer since |
| DiskAnswers.PiecesInOrder | crates/vcz-lib/src/disk.rs:629-635 | blocks of ascending pieces are made in the order of the torrent |
| DiskAnswers.MovesFromBack | crates/vcz-lib/src/disk.rs:641-651 | outside endgame what is served, turned round, was the back of the queue, all of it for pieces the peer has, and the last block left is of a piece it has not |
| DiskAnswers.EndgameBeginsIff | crates/vcz-lib/src/disk.rs:653-660 | endgame begins exactly when a peer with nothing pending brings no new blocks and the last queued block, if any, is of a piece it has not |
| DiskAnswers.EndgameCopies | crates/vcz-lib/src/disk.rs:637-645 | in endgame the answer is, behind the blocks of new pieces, exactly the queued blocks whose bit is set, in queue order, and the disk stays as it is |
| DiskAnswers.EndgameCopiesCount | crates/vcz-lib/src/disk.rs:637-645 | each block is copied as often as it is queued if the peer has its piece, and not at all otherwise |
| DiskAnswers.ReturnedAreServedFirst | crates/vcz-lib/src/disk.rs:641-651 | blocks given back are the next to be served to a peer that has their pieces, the last of them first |
| RequestManager.RequestManager.AddRequest | crates/vcz-lib/src/peer/request_manager.rs:153-172 | refuses what is in flight or fulfilled, parks an item when full, otherwise records it in all five collections |
| RequestManager.RequestManager.FulfillRequest | crates/vcz-lib/src/peer/request_manager.rs:181-213 | marks the item; takes out the waiting copy by swapping, or the in-flight copy from every collection with the positions after it rewritten |
| RequestManager.RequestManager.Reindex | crates/vcz-lib/src/peer/request_manager.rs:201-207 | the loop records the new position of every item that moved |
| RequestManager.RequestManager.Drain | crates/vcz-lib/src/peer/request_manager.rs:130-142 | gives back in-flight items, then waiting ones; keeps limit, multiplier and marks |
| RequestManager.RequestManager.DrainQntQueue | crates/vcz-lib/src/peer/request_manager.rs:285-287 | takes the longest-waiting items, at most the given number |
| RequestManager.RequestManager.UpdateResponseTime | crates/vcz-lib/src/peer/request_manager.rs:80-100 | keeps the last ten response times, smooths the average and adjusts the multiplier |
| RequestManager.RequestManager.GetLastTimestamp | crates/vcz-lib/src/peer/request_manager.rs:237-239 | the earliest deadline, if anything is in flight |
| RequestManager.RequestManager.GetTimeout | crates/vcz-lib/src/peer/request_manager.rs:72-78 | the average response time times the multiplier, between 3 and 30 seconds; 5 seconds before the first response |
| RequestManager.RequestManager.AdjustTimeoutMultiplier | crates/vcz-lib/src/peer/request_manager.rs:103-128 | after five responses the multiplier moves by a tenth with the variance, between 2 and 4 |
| RequestManager.RequestManager.CloneQnt | crates/vcz-lib/src/peer/request_manager.rs:319-329 | a copy of the first in-flight items, then of waiting ones |
| RequestCoherence.SmoothedBetween | crates/vcz-lib/src/peer/request_manager.rs:80-100 | the smoothed average lies between the old average and the new measurement |
| RequestCoherence.FulfillKeepsCoherence | crates/vcz-lib/src/peer/request_manager.rs:181-213 | removing an item by shifting and reindexing keeps the index the exact inverse of the in-flight list |
| RequestCoherence.UnfulfillCoherentIff | crates/vcz-lib/src/peer/request_manager.rs:174-177 | dropping a mark keeps coherence if and only if the item is not in flight; positions stay valid in any case |
| RequestCoherence.FulfillApartIff | crates/vcz-lib/src/peer/request_manager.rs:181-213 | in flight, waiting and fulfilled stay apart if and only if the item was not both waiting and in flight |
| RequestCoherence.AddApartIff | crates/vcz-lib/src/peer/request_manager.rs:153-172 | they stay apart if and only if the item was not waiting already |
| RequestCoherence.ApplyKeepsPointing | crates/vcz-lib/src/peer/request_manager.rs:130-213 | every operation, without any condition, keeps the index pointing at positions that hold the item |
| RequestCoherence.AddConserves | crates/vcz-lib/src/peer/request_manager.rs:153-172 | a refused item is in flight or fulfilled already; any other is kept exactly once |
| RequestCoherence.FulfillConserves | crates/vcz-lib/src/peer/request_manager.rs:181-213 | exactly one outstanding copy is taken out, and the answer says whether there was one |
| RequestCoherence.DrainConserves | crates/vcz-lib/src/peer/request_manager.rs:130-142 | what is given back is exactly what was in flight or waiting |
| RequestEffects.AddAcceptsIff | crates/vcz-lib/src/peer/request_manager.rs:153-172 | an item comes in flight exactly if it is neither in flight nor fulfilled and there is room, as the youngest, with its time and deadline; a new one without room waits behind all others |
| RequestEffects.InFlightIsLimited | crates/vcz-lib/src/peer/request_manager.rs:161-163 | no operation brings more in flight than the limit, unless more were already |
| RequestEffects.FulfillMeasures | crates/vcz-lib/src/peer/request_manager.rs:192-199 | a response time is recorded exactly for an item that was in flight and not waiting too |
| RequestEffects.LatestAreKept | crates/vcz-lib/src/peer/request_manager.rs:80-88 | what is kept are the ten latest response times |
| RequestEffects.AverageMovesFifth | crates/vcz-lib/src/peer/request_manager.rs:90-97 | the first response time becomes the average, each later one moves it a fifth of the way, rounded down |
| RequestEffects.ScatterSteersMultiplier | crates/vcz-lib/src/peer/request_manager.rs:103-128 | from the fifth response time on the multiplier grows by a tenth, up to 4, exactly if the times scatter by more than 10 ms, and shrinks by a tenth, down to 2, otherwise |
| RequestEffects.TimeoutIsProduct | crates/vcz-lib/src/peer/request_manager.rs:72-78 | the timeout is the average times the multiplier, rounded down, whenever that is within 3 and 30 seconds, and the nearer limit otherwise |
| RequestEffects.DrainStartsAfresh | crates/vcz-lib/src/peer/request_manager.rs:130-150 | giving back keeps the order, and forgets the response times, so that the next timeout is 5 seconds |
| RequestEffects.FirstResponseTriples | crates/vcz-lib/src/peer/request_manager.rs:72-98 | after the first response of a new manager the timeout is three times the time it took, within the limits |
| RequestCoherence.RunIsCoherent | crates/vcz-lib/src/peer/request_manager.rs:130-213 | over every run that drops marks only for items not in flight: no item is in flight twice, the index is the exact inverse, each in-flight item has one start time and one deadline, 3 to 30 seconds after its request |
| RequestCoherence.RunStaysApart | crates/vcz-lib/src/peer/request_manager.rs:130-213 | over every run that also never adds an item still waiting, no item is ever two of in flight, waiting, fulfilled |
| Peer.Peer.RequestBlockInfos | crates/vcz-lib/src/peer/mod.rs:231-302 | a request round: blocks of the reply are requested or parked, then the room left is filled from the waiting blocks, or from copied ones if none wait; a failed send ends the round after its block was accepted, and the blocks not looked at yet are in no collection any more |
| Peer.Peer.HandleBlock | crates/vcz-lib/src/peer/mod.rs:460-501 | a block already fulfilled is ignored; any other is marked, cancelled at the others in endgame, and handed to the disk; in seed-only mode nothing happens |
| Peer.Peer.Cancel | crates/vcz-lib/src/peer/mod.rs:164-174 | a block received elsewhere is taken off the copied queue and marked |
| Peer.Peer.CorruptedPiece | crates/vcz-lib/src/peer/mod.rs:133-144 | the marks of all blocks of the piece are dropped |
| Peer.Peer.FreePendingBlocks | crates/vcz-lib/src/peer/mod.rs:507-515 | everything outstanding goes back to the disk, if there is anything |
| Peer.Peer.AntiSnubbing | crates/vcz-lib/src/peer/mod.rs:545-571 | a peer whose earliest deadline is more than 30 s past is marked snubbed and, outside endgame, gives everything back |
| PeerRounds.RoundSends | crates/vcz-lib/src/peer/mod.rs:231-286 | a round hands to the connection a request for each block that comes in flight, in that order, and nothing else; it is cut short exactly if one more comes in flight than sends succeed |
| PeerRounds.RoundFills | crates/vcz-lib/src/peer/mod.rs:264-286 | after a round that was not cut short the limit is reached or no block waits; those that waited longest went first, and each that left the waiting list is in flight and was requested |
| PeerRounds.RoundCopies | crates/vcz-lib/src/peer/mod.rs:271-286 | if none wait, the first copied blocks fill the room: they leave the copied queue, and each is requested unless it is in flight or fulfilled |
| PeerEffects.BlockIsWrittenIff | crates/vcz-lib/src/peer/mod.rs:460-501 | a block goes to the disk exactly if the peer still downloads and had not marked it, and is cancelled at the others exactly if that is in endgame |
| PeerEffects.CancelMarks | crates/vcz-lib/src/peer/mod.rs:164-174 | a cancelled block is marked and loses one of its copies, and nothing is sent |
| PeerEffects.FreesEverything | crates/vcz-lib/src/peer/mod.rs:507-515 | everything in flight or waiting is sent to the disk in one message, and nothing of it stays |
| PeerEffects.BecomesSnubbedIff | crates/vcz-lib/src/peer/mod.rs:545-571 | a peer becomes snubbed exactly if we are interested, not choked, and its earliest deadline is more than 30 s past; outside endgame all it had is then sent to the disk and nothing is outstanding, in endgame it keeps all |
| PeerEffects.EndgameBroadcasts | crates/vcz-lib/src/peer/mod.rs:145-153 | on entering endgame a peer offers the others everything it has in flight or waiting |
| PeerEffects.CopiesAreRequested | crates/vcz-lib/src/peer/mod.rs:271-286 | blocks copied to a peer with room and nothing waiting are all requested in its next unbroken round, unless in flight or fulfilled |
| PeerEffects.EarlierCopiesFirst | crates/vcz-lib/src/peer/mod.rs:154-158 | copied blocks queue up behind those copied before |
| PeerEffects.ForgottenIsRequested | crates/vcz-lib/src/peer/mod.rs:133-144 | the blocks of a corrupted piece, and only they, lose their marks, and a round with room requests them again |
| PeerEffects.SeedWritesNothing | crates/vcz-lib/src/extensions/core/codec.rs:160-163 | a peer that only seeds hands no block to the disk, over every run |
| PeerRuns.FulfilledOnce | crates/vcz-lib/src/peer/mod.rs:252-286 | over every run of a peer that does not drop the mark of a block, broken rounds included: at most one copy is written, and once it is marked it is never requested and never written again, even across giving everything back |
| Torrent.Torrent.constructor | crates/vcz-lib/src/torrent/from_meta_info.rs:11-21 | starts with the pieces on disk, nothing known of any peer, no piece handed out; already seeding if complete |
| Torrent.Torrent.GenMissingPieces | crates/vcz-lib/src/torrent/mod.rs:406-430 | the difference becomes what the remote has and we have not |
| Torrent.Torrent.PeerHave | crates/vcz-lib/src/torrent/mod.rs:364-404 | the piece is recorded for the peer; an existing difference is only resized, a new one is computed |
| Torrent.Torrent.SetPeerBitfield | crates/vcz-lib/src/torrent/from_meta_info.rs:43-57 | the bitfield is cut or grown to our length, stored, and the difference recomputed |
| Torrent.Torrent.GetWantPieces | crates/vcz-lib/src/torrent/mod.rs:433-463 | which pieces are handed out and which marks are set, including that zero wanted gets everything |
| Torrent.Torrent.Request | crates/vcz-lib/src/torrent/from_meta_info.rs:58-85 | the pieces wanted for a number of blocks, together with the bitfield of the peer |
| Torrent.Torrent.DownloadedPiece | crates/vcz-lib/src/torrent/from_meta_info.rs:274-314 | the piece is ours and leaves every difference; the last one ends the download and forgets the peers |
| Torrent.Torrent.PeerHasPieceNotInLocal | crates/vcz-lib/src/torrent/from_meta_info.rs:337-347 | the first piece of the difference, or piece 0 while we have none |
| TorrentModel.WantIsFirstEligible | crates/vcz-lib/src/torrent/mod.rs:448-460 | pieces handed out are ascending, held by the peer, missing here, not marked before; exactly they become marked; at most as many as wanted; none is skipped, and none is left unless enough were found |
| TorrentRuns.RunIsSound | crates/vcz-lib/src/torrent/mod.rs:364-430 | in every state of every run, each difference lies within what the peer announced and outside what is downloaded |
| TorrentRuns.RequestsAreSound | crates/vcz-lib/src/torrent/from_meta_info.rs:63-74 | a request never ends the event loop for want of a bitfield, and every piece handed out was announced by that peer, is missing and was not marked |
| TorrentRuns.HaveIsDownloaded | crates/vcz-lib/src/torrent/from_meta_info.rs:274-281 | the pieces counted as here are exactly those found at the start or reported since |
| TorrentRuns.HaveStaysExactIff | crates/vcz-lib/src/torrent/mod.rs:376-403 | after a `Have` the difference is still everything the peer could give if and only if the piece was in it or is here: later pieces are not added |
| TorrentRuns.KnownIsAnnounced | crates/vcz-lib/src/torrent/from_meta_info.rs:43-57 | over every run that has not begun seeding: the bitfield kept for a peer is exactly what it announced, its latest bitfield and every later `Have`, for the pieces of the torrent |
| TorrentRuns.CanGiveSinceBitfieldIff | crates/vcz-lib/src/torrent/mod.rs:364-430 | over every run, from the bitfield of a peer on: its difference is at all times everything it announced and we miss, if and only if it never announces a later piece that is neither in the difference nor here, and the download is not complete |
| TorrentRuns.AskedForEverything | crates/vcz-lib/src/torrent/mod.rs:433-463 | while that is so, a peer asked for enough is handed exactly the pieces it announced that are missing and not marked |
| TorrentRuns.MarkedIffLent | crates/vcz-lib/src/torrent/mod.rs:452-456 | a piece is marked exactly if it was handed out after it was last reported corrupted |
| TorrentRuns.SeedsIffComplete | crates/vcz-lib/src/torrent/from_meta_info.rs:283-309 | the torrent is seeding exactly while all its pieces are here |
| TorrentRuns.HandedOutOnce | crates/vcz-lib/src/torrent/mod.rs:452-456 | a piece is handed out at most once more than it was reported corrupted |
| TorrentRuns.StoppedIff | crates/vcz-lib/src/torrent/from_meta_info.rs:144-145 | the event loop ends if and only if some event set a bit beyond the end of its bitfield; a request never ends it |
| TorrentRuns.StoppedByHaveIff | crates/vcz-lib/src/torrent/mod.rs:364-374 | while the disk reports pieces of the torrent only, the event loop ends if and only if some peer sent a `Have` for a piece beyond the end |
| AllocationMoves.MadeOnce | crates/vcz-lib/src/disk.rs:629-635 | expanding distinct pieces makes each of their blocks once |
| AllocationMoves.ServeMoves | crates/vcz-lib/src/disk.rs:615-662 | answering a peer outside endgame only moves blocks from the queue into the reply |
| AllocationMoves.RoundTakesUp | crates/vcz-lib/src/peer/mod.rs:231-286 | what a peer had or was given in a round it keeps, unless it is fulfilled or a failed send drops it; nothing appears from elsewhere; only such blocks are requested; a round that is not cut short drops nothing |
| AllocationMoves.GiveBackTotal | crates/vcz-lib/src/peer/mod.rs:507-515 | giving back moves blocks and loses none |
| AllocationRuns.HandOutKeeps | crates/vcz-lib/src/torrent/mod.rs:433-463 | handing out pieces keeps exclusive ownership and loses nothing, because marked pieces are never handed out again |
| AllocationRuns.BlocksAreExclusive | crates/vcz-lib/src/torrent/from_meta_info.rs:58-85 | before endgame and without corruption: disk queue, messages under way, all peers and the dropped blocks together hold no block twice, and only blocks of pieces handed out |
| AllocationRuns.NoBlockIsLostIff | crates/vcz-lib/src/disk.rs:629-651 | in the same runs every block of every piece handed out is queued, under way, pending at a peer, or written, if and only if all blocks that a late reply or a broken round dropped have been written |
| AllocationRuns.StepLosesNothingIff | crates/vcz-lib/src/peer/mod.rs:252-286 | giving up a reply, or breaking a round by a failed send, loses nothing if and only if everything it drops has been written |
| AllocationRuns.NoBlockIsLost | crates/vcz-lib/src/peer/mod.rs:507-515 | so in a run in which every reply is taken and no send fails with blocks left, whatever connections come and go, no block is lost |
| AllocationRuns.RequestsWereAnnounced | crates/vcz-lib/src/disk.rs:641-651 | a peer is sent a request only for a block of a piece it announced before |
| AllocationReplies.RepliesWereAnnounced | crates/vcz-lib/src/disk.rs:637-651 | over every run, endgame included: a reply of the disk holds only blocks of pieces that peer has announced |
| AllocationProgress.AnswersClose | crates/vcz-lib/src/peer/mod.rs:460-501 | blocks that were asked for may come in any order: each is written once and is not open at the peer any more |
| AllocationProgress.NewcomerIsAsked | crates/vcz-lib/src/peer/mod.rs:231-286 | a peer that connects, sends its bitfield and is served once has been sent a request for exactly the blocks of the pieces handed out, in order |
| AllocationProgress.MissingIsFetched | crates/vcz-lib/src/peer/mod.rs:231-501 | if it is asked for all, and answers in any order, every block of every piece it has and we miss is written exactly once, no other block is, and nothing is left open or dropped |
| AllocationAccount.AccountIsExactIff | crates/vcz-lib/src/peer/mod.rs:460-501 | over every run before endgame: at all times each block of each piece handed out is in exactly one place, dropped, or written, and that once, and no other block is anywhere, if and only if no peer sent a block it was not asked for, or not any more |
| AllocationAccount.ArriveKeepsApartIff | crates/vcz-lib/src/peer/mod.rs:460-501 | whatever came unasked before: an arriving block leaves written blocks out of all places if and only if it was outstanding at that peer or is in no place |
| AllocationAccount.PieceIsWrittenOnce | crates/vcz-lib/src/disk.rs:798-841 | in runs without unasked blocks, a piece handed out of which nothing is left in any place or dropped has reached the disk block by block, each exactly once: what `OrderIndependentCompletion` needs |
| Choking.BubbleUp | crates/vcz-lib/src/torrent/mod.rs:294-307 | the swaps move an entry past exactly the entries it is strictly better than |
| Choking.SortPeersByRate | crates/vcz-lib/src/torrent/mod.rs:268-333 | the three-slot buffer holds the running selection; unfilled slots name peer 0 |
| ChokingModel.TopIsBest | crates/vcz-lib/src/torrent/mod.rs:283-330 | the buffer always holds the best candidates so far, in order, earlier ones first at equal rates, and everyone left out comes after all of them |
| ChokingModel.SortedByRateIff | crates/vcz-lib/src/torrent/mod.rs:268-333 | the result is a proper selection of distinct eligible peers if and only if there are as many as places |
| ChokingPicks.BestAreFastest | crates/vcz-lib/src/torrent/mod.rs:268-333 | with enough candidates the best are interested, in order of rate, and no interested peer outside is faster than one of them |
| ChokingPicks.RoundCommandsIff | crates/vcz-lib/src/torrent/from_meta_info.rs:317-334 | exactly who is sent a choke and who an unchoke in a regular round |
| ChokingPicks.OptimisticPicksIff | crates/vcz-lib/src/torrent/from_meta_info.rs:350-364 | the optimistic slot goes to an interested connection whose id has no regular slot if there is one, and to nobody otherwise |
| ChokingPicks.AnyoneCanBePicked | crates/vcz-lib/src/torrent/mod.rs:340-353 | and any such connection can be the one |
| ChokingPicks.WaitersHoldNoSlot | crates/vcz-lib/src/torrent/mod.rs:340-353 | those waiting are exactly the interested connections under whose id no slot is held |
| ChokingPicks.ErrorRemovesIff | crates/vcz-lib/src/torrent/mod.rs:177-189 | an address that failed is in no list any more, and nobody else leaves one |
| Choking.Choker.Unchoke | crates/vcz-lib/src/torrent/from_meta_info.rs:317-334 | who is choked and unchoked, in which order, and who holds the regular slots |
| Choking.Choker.OptimisticUnchoke | crates/vcz-lib/src/torrent/from_meta_info.rs:350-364 | the old optimistic peer is choked unless it has a regular slot; a peer waiting takes the slot |
| Choking.Choker.ChokedInterestedPeers | crates/vcz-lib/src/torrent/mod.rs:340-353 | the interested connected peers without a slot |
| Choking.Choker.PeerError | crates/vcz-lib/src/torrent/mod.rs:177-189 | a failed peer leaves connections and slots |
| ChokingRuns.UnchokeTold | crates/vcz-lib/src/torrent/from_meta_info.rs:317-334 | exactly who counts as told to unchoke after a round |
| ChokingRuns.OptimisticTold | crates/vcz-lib/src/torrent/from_meta_info.rs:350-364 | exactly who counts as told to unchoke after an optimistic round |
| ChokingRuns.UnchokeAccountedIff | crates/vcz-lib/src/torrent/from_meta_info.rs:317-334 | a regular round leaves every connection told to unchoke with a slot if and only if no regular slot passes from one connection to another with the same id |
| ChokingRuns.OptimisticAccountedIff | crates/vcz-lib/src/torrent/from_meta_info.rs:350-364 | an optimistic round does so if and only if the old optimistic peer is not spared because another connection with its id has a regular slot |
| ChokingRuns.AlwaysAccountedIff | crates/vcz-lib/src/torrent/from_meta_info.rs:317-364 | over any interleaving of rounds, connections and errors: in all states every connection last told to unchoke holds a slot, if and only if every round meets its condition |
| ChokingRuns.AtMostFourUnchoked | crates/vcz-lib/src/torrent/from_meta_info.rs:317-364 | in those runs at most four connections are told to unchoke |
| ChokingRuns.DistinctIdsAreAccounted | crates/vcz-lib/src/torrent/from_meta_info.rs:317-364 | so if no two connections ever carry the same id, every connection told to unchoke holds a slot and there are at most four |
| ChokingTwins.TwinsMakeFive | crates/vcz-lib/src/torrent/from_meta_info.rs:320-326 | for any two connections from one remote, three other peers and rates that favour one twin, then the other: runs after which five connections have been told to unchoke |
| ChokingRuns.SlotsAreToldIff | crates/vcz-lib/src/torrent/from_meta_info.rs:327-333 | the converse holds after a round if and only if the flags of the best peers are up to date and the optimistic peer did not just lose a regular slot |
| Codec.EncodeMessage | crates/vcz-lib/src/extensions/core/codec.rs:208-284 | appends exactly the frame; a piece index over 32 bits is refused with length and id already written |
| Codec.DecodeMessage | crates/vcz-lib/src/extensions/core/codec.rs:291-429 | outcome and buffer left, for complete, incomplete, malformed and unknown frames |
| CodecModel.BytesRoundTrip | crates/vcz-lib/src/extensions/core/codec.rs:218-222 | a bitfield packed to bytes and unpacked is the bitfield filled up to whole bytes |
| CodecWire.WireFormat | crates/vcz-lib/src/extensions/core/codec.rs:208-284 | the bytes of every kind of message: length, id, and fields in order, most significant byte first |
| CodecWire.ByteIsWire | crates/vcz-lib/src/extensions/core/codec.rs:218-222 | the first of eight bits is the most significant one of its byte |
| CodecWire.UnknownSkipsOneMore | crates/vcz-lib/src/extensions/core/codec.rs:331-341 | a complete frame with an unknown id yields nothing and one byte more than it has is skipped: what follows stays whole exactly if it is empty |
| CodecWire.FixedTakesFrameIff | crates/vcz-lib/src/extensions/core/codec.rs:346-413 | a message of fixed length is read without regard to the length in front: exactly the frame is taken if and only if that length is right |
| CodecWire.PanicsIff | crates/vcz-lib/src/extensions/core/codec.rs:376-428 | the copy of a payload panics in exactly these complete frames |
| CodecRuns.DecodeFrame | crates/vcz-lib/src/extensions/core/codec.rs:346-428 | a frame followed by anything decodes to its message and takes exactly its bytes; only an empty bitfield needs something after it |
| CodecRuns.DecodeIncomplete | crates/vcz-lib/src/extensions/core/codec.rs:297-323 | an incomplete frame leaves the buffer as it is |
| CodecRuns.DecodeEmptyBitfield | crates/vcz-lib/src/extensions/core/codec.rs:368-374 | an empty bitfield at the end of the buffer is taken but yields nothing |
| CodecRuns.ChunkingIndependentIff | crates/vcz-lib/src/extensions/core/codec.rs:287-430 | for messages that fit the wire format: however their encoding is cut into chunks, exactly they come out and nothing stays behind, if and only if none is an empty bitfield |
| Framed.IndependentIff | crates/vcz-lib/src/extensions/core/codec.rs:287-430 | the same for any decoder that takes whole frames and leaves incomplete ones |
| CongestionControl.Controller.UpdateBaseDelay | crates/utp/src/congestion_control.rs:113-133 | samples are pushed at the back, old ones popped at the front, and the base delay is the minimum left |
| CongestionControl.Controller.UpdateRtt | crates/utp/src/congestion_control.rs:136-157 | smoothed round trip, its variance and the timeout |
| CongestionControl.Controller.UpdateWindow | crates/utp/src/congestion_control.rs:160-209 | the window after an update, at most one per round trip, with decay |
| CongestionRuns.BaseDelayIsMinimum | crates/utp/src/congestion_control.rs:113-133 | over every run with a clock that does not go back: the history is exactly the samples of the last two minutes and the base delay is their minimum |
| CongestionRuns.GainIsPositiveIff | crates/utp/src/congestion_control.rs:181-199 | the window is pushed up if and only if something is in flight and the delay is below the target |
| CongestionRuns.RttStaysBetween | crates/utp/src/congestion_control.rs:143-153 | the smoothed round trip lies between the old value and the measurement; the variance is at most the larger of its old value and the distance of the two |
| CongestionRuns.RttMovesEighth | crates/utp/src/congestion_control.rs:143-153 | each measurement moves the round trip an eighth of the way to it |
| CongestionRuns.VarianceMovesQuarter | crates/utp/src/congestion_control.rs:143-153 | and the variance a quarter of the way to the distance of the two |
| CongestionRuns.TimeoutIsSum | crates/utp/src/congestion_control.rs:154-156 | the timeout is the round trip and four times the variance, at least half a second |
| CongestionRuns.FirstMeasurement | crates/utp/src/congestion_control.rs:113-157 | what the first measurement makes of a new connection |
| CongestionRuns.LossHalves | crates/utp/src/congestion_control.rs:211-227 | a loss halves the window, down to 1500 |
| CongestionRuns.UpdatesOncePerRoundTrip | crates/utp/src/congestion_control.rs:160-180 | the window is updated exactly if a round trip has passed since the last update |
| CongestionRuns.WindowIsBounded | crates/utp/src/congestion_control.rs:160-227 | the window is never below 1500 and grows by at most 3000 bytes per update when no more than the window is in flight; the timeout is never below half a second |
| Metadata.ToBencode | crates/vcz-lib/src/extensions/metadata/mod.rs:153-169 | prints the sorted dictionary and appends the payload |
| Metadata.FromBencode | crates/vcz-lib/src/extensions/metadata/mod.rs:94-138 | scans for the first "ee", then reads the pairs, with the error for malformed input, values out of range and unknown types, and the panic on empty input |
| Metadata.PrintedIsRead | crates/vcz-lib/src/extensions/metadata/mod.rs:94-138 | any dictionary of unsigned numbers, printed and followed by any payload, is read key by key: the pairs come back in order |
| Metadata.SinglePair | crates/vcz-lib/src/extensions/metadata/mod.rs:94-138 | which value of which key is taken, ignored or refused |
| Metadata.MessageLetters | crates/vcz-lib/src/extensions/metadata/mod.rs:153-169 | the letters of a printed message |
| Metadata.FirstEEIsEnd | crates/vcz-lib/src/extensions/metadata/mod.rs:103-108 | no "ee" occurs in the header before its end |
| Metadata.RoundTrip | crates/vcz-lib/src/extensions/metadata/mod.rs:94-169 | parsing what was printed gives the message back, for every message and any payload |
| InfoPieces.ChunkInfo | crates/vcz-lib/src/torrent/from_meta_info.rs:23-34 | the printed dictionary is served up to its recorded size, in chunks of 16384 bytes and a last shorter one; the cutting panics if and only if it is shorter than that |
| InfoPieces.InfoDownload.DownloadedInfoPiece | crates/vcz-lib/src/torrent/from_magnet.rs:102-156 | pieces are collected; once they reach the claimed total they are joined, parsed and checked, and thrown away if the hash is wrong |
| InfoPieces.SameIndexAppends | crates/vcz-lib/src/torrent/from_magnet.rs:102-115 | a second chunk with the same index is appended to the first |
| InfoPieces.ArriveIs | crates/vcz-lib/src/torrent/from_magnet.rs:102-156 | when nothing is assembled yet, and what happens with right, wrong and unreadable bytes |
| InfoPieces.AnyOrderRebuilds | crates/vcz-lib/src/torrent/from_magnet.rs:68-125 | with the true total, every chunk once and in any order: nothing is assembled before the last chunk, and the last one rebuilds the bytes |
| InfoPieces.OwnLengthAsTotalIff | crates/vcz-lib/src/extensions/metadata/mod.rs:58-67 | when senders give the length of their chunk as the total, collecting ends with the first chunk, in whatever order they come, and rebuilds the dictionary if and only if it fits one chunk |
| VimInput.VimInput.BreakLinesFrom | crates/vcz-ui/src/widgets/vim_input.rs:237-283 | the loop over rows that are too wide, with the cursor carried along |
| VimInput.VimInput.InsertChar | crates/vcz-ui/src/widgets/vim_input.rs:219-235 | rows are added up to the cursor, the character goes in at its column, and the row is reflowed if it is too wide now |
| VimInput.VimInput.Backspace | crates/vcz-ui/src/widgets/vim_input.rs:300-362 | delete before the cursor and let characters move up, or join with the row above and reflow |
| VimInput.VimInput.PullRowsUp | crates/vcz-ui/src/widgets/vim_input.rs:321-350 | the loop that lets one character per row move up and drops empty rows |
| TextRuns.ReflowPreservesText | crates/vcz-ui/src/widgets/vim_input.rs:237-283 | reflowing keeps the text, leaves every row from the start row on within the width, and keeps the place of a cursor that is not below that row |
| TextRuns.SplitKeepsMost | crates/vcz-ui/src/widgets/vim_input.rs:245-262 | the part of a row that stays is the longest that fits |
| TextRuns.ReflowEndsIff | crates/vcz-ui/src/widgets/vim_input.rs:239-282 | the loop ends if and only if no character from the start row on is wider than a row |
| TextRuns.PullUpKeepsText | crates/vcz-ui/src/widgets/vim_input.rs:321-350 | letting characters move up changes neither the text nor rows that fit |
| TextRuns.PullUpTakesNext | crates/vcz-ui/src/widgets/vim_input.rs:321-350 | what moves up is the first character of the row below, exactly while it fits |
| TextRuns.DeleteRemovesOne | crates/vcz-ui/src/widgets/vim_input.rs:303-350 | exactly one character leaves the text, the one before the cursor, and the cursor moves back by its width |
| TextRuns.JoinKeepsText | crates/vcz-ui/src/widgets/vim_input.rs:351-357 | joining rows removes nothing and leaves the cursor at its place in the text |
| TextRuns.TypedInserts | crates/vcz-ui/src/widgets/vim_input.rs:225-228 | one character enters the text at the cursor, and the cursor moves behind it |

## Left out

Assumptions of the model:

- Files are non-empty, mapped at full length and have distinct paths; byte counts and offsets do not overflow `usize`; the geometry is well formed as the "metainfo files" section of BEP 3 demands (positive piece length and size, one hash per piece).
- An I/O error in a write, an unmapped file and a failed read are not modelled; neither is the disk's cache of mappings, its advice to the kernel, nor the moving of files.
- Clock readings are parameters. Several readings within one call count as one.
- Random choices are parameters: the optimistic peer, and the order of copied blocks in endgame.
- Floating point is real arithmetic; where the program converts to an integer, the model rounds down and saturates as the program does.
- Setting a bit beyond the end of a bitfield ends the event loop of the torrent; runs record that it stopped.
- A send that fails in a round of requests is followed by the end of the connection; other tasks may take steps in between. A message counts as sent when it is handed to the connection.
- The timeout heap is the list of its entries; only the earliest deadline is observed.
- The ordered map of info pieces is a list sorted by index; the parser and hash of the info dictionary are one arbitrary function.

What the statements deliberately do not cover:

- AllocationRuns.BlocksAreExclusive: holds before endgame and without a corrupted piece, because endgame copies blocks on purpose and corruption both requeues the blocks and lets the piece be handed out again.
- AllocationRuns.NoBlockIsLost: is about runs in which nothing is dropped; `AllocationRuns.NoBlockIsLostIff` has the exact condition for all others. Both end with the download, when the disk drops its queue.
- AllocationAccount.AccountIsExactIff: holds before endgame and without a corrupted piece, as above.
- AllocationProgress.MissingIsFetched: is about one newcomer with at most 500 blocks to give, the default limit, on a connection that does not fail meanwhile; blocks beyond the limit are parked and requested in later rounds (`PeerRounds.RoundFills`).
- ChokingRuns.DistinctIdsAreAccounted: assumes that no two connections carry the same id, which the program does not enforce; `ChokingRuns.AlwaysAccountedIff` has the exact condition without that.
- TorrentRuns.KnownIsAnnounced: assumes, as `TorrentRuns.CanGiveSinceBitfieldIff` and `TorrentRuns.SeedsIffComplete` do, that the disk reports pieces of the torrent only; once the torrent is seeding, what was known of the peers is dropped.
- PeerRounds.RoundFills: assumes that the disk gives blocks that do not wait at this peer already; `RequestCoherence.AddApartIff` says what happens otherwise.
- TorrentRuns.StoppedByHaveIff: assumes that the disk reports pieces of the torrent only; `TorrentRuns.StoppedIff` does not.
- DiskRuns.ValidatedPiecesStayValid: is about the mark of a validated piece; a piece found on disk at start-up carries its length instead, and a later write to it counts on from there.
- CongestionRuns.BaseDelayIsMinimum: needs a clock that does not go back; the 32-bit clock of the program wraps after 71 minutes.
- Metadata.FromBencode: covers dictionaries of unsigned integers; nested values, negative numbers and the order of keys are left to the bencode library.
- Codec.DecodeMessage: malformed lengths that make the copy of a payload panic are an outcome of their own; what the caller does with it is not modelled.
- VimInput.VimInput.BreakLinesFrom: requires that no character is wider than a row, since the loop does not end otherwise.
- VimInput.VimInput.Backspace: requires a cursor on an existing row, and a character in it when the column is not zero, since the program panics otherwise.

Parts of the repository without a model:

- Sockets, threads of execution and channels as such, tracker and handshake codecs, the magnet phase before the info dictionary is complete (where our bitfield has length 0), and the daemon.
- `get_timeout_blocks_and_update`, whose result depends on the inner order of the heap, and the read of a block for upload, which serves only blocks inside one file.
- The metadata request manager of a peer, a second instance of the generic one.
- The last removal from the queue in `fulfill_request`, which cannot find anything because the item was looked for there before.
- `stream.rs` of the datagram transport, drawing, key handling, scrolling and the moves of the cursor in the text input, configuration and counters.
