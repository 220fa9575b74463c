# TeleSync, modelled and verified in Dafny

TeleSync keeps directories on several machines in sync. A tracker holds a table of files, each with a
timestamp and the peers that own its latest version. Peers register, exchange their tables with the
tracker, report local changes, hear about the changes of others, download files piece by piece from all
their owners at once and tell the tracker when they have become owners themselves.

The project models this behaviour and proves what it keeps.

- `Entries.dfy`, `TrackerSpec.dfy`, `PeerSpec.dfy`: the entries that travel, the last-writer-wins merge, and what every
  handler of tracker and peer does to a table, on values.
- `SyncProtocol.dfy`, `Chatter.dfy`: tracker, peers and the queues between them as a transition system.
  In every run all timestamps converge, and the messages die out. Files may be deleted, as long as a
  deletion does not cross anything else that happens to the same file.
- `Ownership.dfy`, `Replication.dfy`: in the end every peer holds every file and is listed as an owner of it.
- `DeletionRace.dfy`: what happens when a deletion does cross a change.
- `TrackerRuns.dfy`: the tracker under registrations, updates, syncs, deletions and lost connections. Owner
  lists stay sound and fit their 16 slots.
- `FileTable.dfy`, `Hash.dfy`, `Bits.dfy`, `Tracker.dfy`, `PeerNode.dfy`, `PeerTable.dfy`: the hash table of file entries
  and the handlers as they work, in place, each tied to its specification on values.
- `IntrusiveList.dfy`, `HashList.dfy`, `HeapCleanup.dfy`: the two intrusive lists on the heap, pointer by
  pointer, and the removal of an owner from a chain on the heap.
- `Download.dfy`, `DownloadResult.dfy`, `Pieces.dfy`: the multi-owner download under every interleaving of
  its workers.
- `Segment.dfy`, `Packets.dfy`: framing, struct layout and the path of a table through a packet.
- `Monitor.dfy`: watched directories and the translation of logical names into paths.
- `Sequences.dfy`, `Words.dfy`: shared helpers.

Each handler and each section under a mutex is one step, connections are first-in-first-out, and
allocation, local `stat` calls, watches and file writes succeed. Names are byte strings, integers are
unbounded except where a width is modelled (`Words`, `Pieces`, `Packets`).

Some properties one would expect do not hold of the code. For each the exact condition is proved:
`DownloadResult.ZeroMeansCompleteIff` (a download that reports success may be incomplete),
`Download.AllZeroIsComplete` (even when every worker reports success), `Segment.StreamDecodesIff` (no
escaping), `Packets.PacketPath` (a port that is not sent), `TrackerSpec.ConflictIff` with
`PeerSpec.UpdateReplicates` (a blank entry is broadcast), `PeerSpec.CleanupAgreesIff` (dropped entries are
not announced) and `Monitor.InjectiveIff` (nested roots). Deletions ignore timestamps:
`SyncProtocol.Convergence` states a discipline for them under which every run converges, and
`DeletionRace.RaceDiverges` shows that it is needed: a deletion that crosses a change of the same file,
whichever arrives first, leaves the tracker and the deleting peer in disagreement until somebody touches
the file again, brings it along or completes a download of it.

## Model

| member | source | states |
|---|---|---|
| SyncProtocol.Convergence | server/start.c:270-315 | In every run of joins, local additions, changes and deletions, deliveries and ended downloads, whenever no message is under way every peer holds exactly the tracker's names and timestamps; provided that a file is deleted only while nobody is adding, changing or downloading it, and neither edited nor brought along by a new peer until its deletion has arrived everywhere |
| SyncProtocol.EditsConverge | client/start.c:576-629 | Without deletions every run converges, with no such condition |
| SyncProtocol.RunKeepsInv | client/start.c:566-629 | Every such run keeps, for each name: either, for each peer, tracker below peer joined with its inbox, these below tracker joined with the peer's outbox, the outbox below the peer, only additions and changes under way, and each change of something the tracker will know; or the name is being deleted, only deletions of it are under way, and whoever still holds it will be told |
| SyncProtocol.StepKeepsInv | server/start.c:347-407 | Each single step (join, local batch, update or broadcast delivered, download done or failed) keeps that invariant for all names and peers at once |
| SyncProtocol.UnknownModifyNeverFires | server/start.c:375-391 | In no such run does the tracker meet a MODIFY of a name it does not know |
| SyncProtocol.SyncExchange | client/start.c:496-518 | After a sync and the peer's handling of the reply, tracker and peer hold the greater of their two timestamps for every name, and the broadcast names exactly what was newer at the peer |
| SyncProtocol.BystanderAgrees | server/start.c:297-315 | A third peer that agreed with the tracker before a sync agrees with it again once it has applied the broadcast |
| Replication.RestMeansReplicated | client/start.c:249-312 | In every such run in which peers list themselves as owners of what they bring along, add and change: once nothing can happen any more, every peer holds every file of the tracker in the tracker's version, and the tracker lists it among the owners, unless a download of the file failed there |
| Ownership.HolderIsOwner | server/start.c:375-391 | The same for one file and peer as soon as no message is under way and no download of the file is running there |
| Ownership.StepAccounts | file_table.c:171-189 | Every step keeps the version a peer holds accounted for: the tracker has a newer one, or lists the peer for it, or the peer's outbox reports it, or its download is running |
| DeletionRace.RaceDiverges | server/start.c:365-391 | When one peer deletes a file while another changes it, then whichever reaches the tracker first and however the run goes on, as long as nobody touches the file, is handed it on joining or completes a download of it: whenever no message is under way, exactly one of the tracker and the deleting peer holds the file |
| DeletionRace.UpdateMentioned | client/start.c:601-629 | A packet with one entry about a name: a deletion takes the name from the tracker, and from whoever hears of it if the tracker held it; a change brings it to the tracker, but to others only if the tracker held it |
| DeletionRace.CrossingIsRun | client/file_monitor.c:244-257 | The crossing is reached by two local steps, one at each peer, before either is heard of |
| DeletionRace.RaceEnds | server/start.c:404-407 | With two peers and nothing else under way, in either order, such a race does run to the point where no message is under way |
| Chatter.QuietStepSpends | client/start.c:249-263 | Without joins and local edits every delivery and every end of a download lowers a potential made of the issued versions newer than each peer's (of names not being deleted), running downloads, and queued packets |
| Chatter.QuietRunBounded | client/start.c:301-312 | A run without joins and local edits is never longer than the potential it starts with, although each download makes the tracker broadcast again |
| Chatter.HearSpends | client/start.c:576-629 | A packet, with deletions or without, starts no more downloads than the number of issued versions it stops being newer than the peer's table |
| Chatter.ChatterEnds | client/start.c:585-597 | From every state reached in a run as above the exchange of messages, in any interleaving, ends within a bound known when the last local edit or join is done |
| Chatter.ChatterEndsInAgreement | server/start.c:404-407 | Where the exchange can go no further, every peer's names and timestamps are the tracker's |
| TrackerSpec.ConflictIff | server/start.c:365-391 | For every packet: a blank slot is broadcast exactly when the packet changes a name that neither was there nor was added or changed by an earlier entry, or that was deleted since |
| TrackerSpec.LiveIff | server/start.c:347-391 | A name is at the tracker after part of a packet exactly when it was there, or was added or changed by it, and was not deleted since |
| PeerSpec.UpdateReplicates | server/start.c:404-407 | A peer that agreed with the tracker and hears the broadcast for an update, with deletions or without, agrees with it again exactly when no blank slot was broadcast |
| PeerSpec.CleanupAgreesIff | server/start.c:424-432 | A peer that agreed with the tracker and hears what the tracker sends when a connection is lost agrees with it again exactly when no entry was left without an owner |
| TrackerSpec.UpdateRunTs | server/start.c:347-402 | After any packet a name has the timestamp that replaying its entries leads to: the maximum, starting over at each deletion |
| TrackerSpec.EditsTold | server/start.c:356-391 | If a packet without a conflict only adds and changes a name, the name is broadcast with exactly its new timestamp in the table, and not at all if the packet does not mention it |
| TrackerSpec.DeletesTold | server/start.c:365-373 | If a packet without a conflict only deletes a name, the name is broadcast exactly if the tracker held it, and only as deleted |
| TrackerSpec.UpdateIsAdd | server/start.c:347-391 | A packet that only adds and changes a name, known or not, leaves it with the owners, type and timestamp that adding its entries one by one leads to |
| TrackerSpec.LastTold | server/start.c:356-391 | The last entry that is broadcast about such a name is the table's entry, with all its owners, its type and its timestamp, and carries the operation of the last entry received |
| TrackerSpec.EntriesTold | server/start.c:347-402 | A packet of additions and changes without a conflict is answered entry by entry, each with its operation and the state of the table at that point |
| TrackerSpec.DeletionCopied | server/start.c:368-372 | About a name that is only deleted at most one entry is broadcast, and it is the first one received, unchanged |
| TrackerSpec.BlankIff | server/start.c:389-391 | The blank slot is among what is broadcast exactly when there was a conflict |
| TrackerSpec.SyncToldIff | server/start.c:298-313 | A sync broadcasts exactly the peer's entries that are newer than the tracker's, with their owners, as added if the name was unknown and as modified otherwise |
| TrackerSpec.ReplyIff | server/start.c:272-288 | A sync is answered with exactly the tracker's entries of which the peer has nothing, or only something older, or something as old with other owners, as added if the peer does not list the name and as modified otherwise |
| TrackerSpec.ReplyDistinct | server/start.c:272-288 | No name is replied twice |
| TrackerSpec.SyncToldDistinct | server/start.c:298-313 | No name is broadcast twice by a sync |
| TrackerSpec.SyncRunTs | server/start.c:298-313 | A sync broadcasts a name with the peer's timestamp if that is newer than the tracker's, and not at all otherwise |
| TrackerSpec.SyncReplyTs | server/start.c:272-288 | The sync reply carries the tracker's timestamp for every name that is older or missing at the peer, and never a greater one |
| PeerSpec.SyncLearnTs | client/start.c:502-517 | Learning a reply moves each name to the greater of the peer's and the listed timestamps |
| PeerSpec.SyncStartsIff | client/start.c:502-516 | Learning a sync reply starts the download of exactly the files that are listed newer than the peer's |
| PeerSpec.HearStartsIff | client/start.c:576-629 | Hearing a broadcast, with deletions or without, starts the download of a file exactly when some entry that adds or changes it is newer than what the entries before it led to |
| PeerSpec.HearKnown | client/start.c:583-592 | A known file ends with the greatest timestamp, its type as it was, and the owners listed last, once each and without the peer itself |
| PeerSpec.HearNew | client/start.c:593-597 | An unknown file ends as it was listed, the peer itself included among the owners |
| PeerSpec.BystanderOwners | server/start.c:385-407 | A peer that knows a file and hears of the tracker's update of it lists the tracker's owners, except for itself |
| PeerSpec.CleanupOwners | server/start.c:424-432 | After a lost connection a peer lists the owners that are left at the tracker, except for itself, for every file that the tracker keeps |
| PeerSpec.NotifyMakesOwner | client/start.c:249-263 | Once a notification is handled the tracker lists its sender: among the others if it held the same version, alone if it held an older one or none; a newer one stays as it is |
| PeerSpec.RemoveFirstIsWithout | client/start.c:481-494 | Removing the first owner with an ip removes the ip, as no ip is listed twice |
| PeerSpec.LocallyLiveIff | client/file_monitor.c:244-257 | In the peer's own table a file is there after part of a batch exactly when it was there or was added, not merely changed, and was not deleted since |
| Entries.HistoryEntry | file_table.c:171-189 | After any history of entries into an empty table a name has the greatest timestamp received and the owners of the entries with that timestamp, in order of arrival and once per ip |
| TrackerSpec.HistoryType | file_table.c:274-298 | After any history of entries into an empty table the type of a file is that of the first entry about it |
| Entries.HistoryOrderIrrelevant | file_table.c:274-298 | Permuted histories leave the same names, timestamps and owner ips |
| Entries.AddOwnersIsFirstByIp | file_table.c:29-49 | Building an owner list keeps exactly the first owner listed with each ip, in order |
| Entries.AddOwnersIps | file_table.c:12-49 | Adding owners keeps the list as a prefix and its ips distinct, and yields the union of the ips |
| Entries.ExportImport | file_table.c:420-436 | Adding an exported table entry by entry to an empty one, in whatever order it was listed, rebuilds names, timestamps, types and owner sequences |
| TrackerRuns.OwnersAreRegistered | server/start.c:415-436 | In every run of registrations, updates, deletions, syncs and lost connections in which peers list only themselves, every file has an owner, and its owners have distinct ips that are registered now |
| TrackerRuns.UpdateSound | server/start.c:347-402 | An update by a registered sender leaves every owner list non-empty, distinct and registered, and so are the lists of the entries exported meanwhile |
| TrackerRuns.CleanupKeeps | server/start.c:424-425 | Losing a connection, registered or not, leaves only owners that are still registered |
| TrackerRuns.TableExportsFit | file_table.c:156-161 | With at most 16 registered ips no entry of the table has more owners than the 16 slots it is exported into |
| TrackerRuns.UpdateExportsFit | server/start.c:356-391 | The same for every entry exported while an update packet is processed |
| FileTable.FileTable.Search | file_table.c:222-233 | Walking the chain selected through a signed int finds the entry exactly when the name is linked |
| FileTable.FileTable.Add | file_table.c:274-298 | Adding acts on the map as insert or last-writer-wins merge, keeps every other entry, and counts a new one |
| FileTable.FileTable.Update | file_table.c:306-325 | Updating merges into a known name, leaves an unknown one alone, and returns 0 or -1 accordingly |
| FileTable.FileTable.Delete | file_table.c:333-350 | Deleting removes exactly the name, counts it off, and returns whether it was there |
| FileTable.FileTable.DeleteOwner | file_table.c:352-378 | Though entries are unlinked during the traversal, the outcome is the map with the ip taken out of every owner list and without the entries left empty; `n` is not changed, and exceeds the linked entries by those dropped so far |
| FileTable.FileTable.Destroy | file_table.c:380-393 | Destroying empties the table and leaves `n` at the number of entries that were dropped without being counted off |
| FileTable.FileTable.FillFrom | file_table.c:420-436 | The export lists every entry of the map once, as it is |
| FileTable.FileEntry.Update | file_table.c:171-189 | A newer entry replaces timestamp and owners, an equally old one adds its owners, an older one changes nothing and is reported |
| FileTable.FileEntry.PeerIdListAdd | file_table.c:29-49 | The loop appends the listed owners except those whose ip is there |
| FileTable.FileEntry.RemoveOwner | file_table.c:362-369 | Deleting during the safe traversal removes exactly the owners with the ip |
| FileTable.LinkKeeps | include/hash.h:65-66 | Prepending an entry to the chain of its name keeps the index: each entry in its bucket, once, no name twice |
| FileTable.UnlinkKeeps | include/hash.h:86-89 | Unlinking an entry keeps the index and removes exactly its name |
| FileTable.PlaceUnique | file_table.c:110-119 | A name occurs at one place of one chain only |
| Hash.SearchFindsBucket | file_table.c:226-228 | The bucket computed through a signed int when searching is the one computed from the 64-bit hash when adding |
| Hash.ElfHash | include/hash.h:14-25 | The loop computes the hash round by round |
| Hash.RoundBits | include/hash.h:18-23 | One round bit by bit: after the shift, bits 28 to 31 are combined into bits 4 to 7 by exclusive or and cleared, and no other bit changes |
| Hash.ShortHash | include/hash.h:14-25 | The hash of up to six ASCII characters is their value in base 16 |
| Hash.SignedChar | include/hash.h:18 | A character above 127 is negative, so that the usual bound of 28 bits does not hold |
| Hash.Hash32Bits | include/hash.h:27-33 | The bucket is made of bits 20 to 31 of the product with the prime |
| Hash.Bucket | include/hash.h:27-33 | Every name has a bucket below 4096 |
| Tracker.SyncTask | server/start.c:238-325 | The reply is the one specified for the table before the sync, in traversal order; then table and broadcast are those specified for the peer's entries in order |
| Tracker.PeerFileUpdateTask | server/start.c:330-413 | Table and broadcast after the loop are those specified for the packet |
| Tracker.ReceiverTaskCleanup | server/start.c:415-436 | The connection is forgotten, its ip dropped from every owner list, and the whole remaining table is returned, marked as modified |
| Tracker.TransFileSearch | server/start.c:223-233 | The first entry with the name is found |
| Tracker.HasSameOwners | file_table.c:438-461 | True exactly for the same owners, ips and ports, in the same order |
| PeerNode.FileTableSync | client/start.c:496-518 | Table and started downloads are those specified for the reply |
| PeerNode.ReceiveBroadcast | client/start.c:709-731 | Table and started downloads are those specified for the broadcast, deletions included |
| PeerNode.HandleEvent | client/file_monitor.c:244-257 | A local change acts on the table as an addition, an update of a known name, or a deletion |
| PeerNode.PeerIdListRemoveMyself | client/start.c:481-494 | The first owner with this peer's ip is removed and nothing else |
| PeerTable.PeerTable.Delete | server/peer_table.c:73-95 | The latest entry of the connection is removed and its ip, passed through an int, is returned; -1 without one |
| PeerTable.PeerTable.Find | server/peer_table.c:102-120 | The first entry with the ip is found, if there is one |
| IntrusiveList.ListAdd | utility/list.c:21-30 | The element becomes the first of the ring; null arguments are rejected |
| IntrusiveList.ListAddTail | utility/list.c:32-41 | The element becomes the last of the ring; null arguments are rejected |
| IntrusiveList.ListDel | utility/list.c:43-56 | The element leaves the ring, whose links stay mutually consistent, and ends unattached; an unattached one is rejected |
| IntrusiveList.ListDelInit | utility/list.c:58-66 | The element leaves the ring and becomes an empty list of its own, also if it was unattached |
| IntrusiveList.ForEachSafe | include/list.h:41-43 | The safe traversal visits each original element once, in order, though visited ones are deleted, and exactly the others remain |
| HashList.HlistAddHead | include/list.h:70-78 | The node becomes the first of the chain, and every back pointer points to the pointer to its node |
| HashList.HlistDelInit | include/list.h:90-105 | The node is unlinked through its back pointer, without its head, and ends unhashed; an unhashed one changes nothing |
| HashList.ForEachEntrySafe | include/list.h:119-122 | The safe traversal visits each original node once, in order, though visited ones are deleted, and exactly the others remain |
| HeapCleanup.DeleteOwnerInChain | file_table.c:357-376 | On the heap, with nodes unlinked through their back pointers during the traversal, a chain ends as a chain of exactly the entries that the map has once the ip is taken out of every owner list and the entries left empty are dropped |
| Download.RunKeepsInv | client/download.c:249-286 | Under every interleaving each piece being downloaded is held by exactly one worker, every finished piece has the source's bytes, and after a worker ran out of pieces no more are available than workers failed; whatever the first owner answered when asked for the length |
| Download.WriteKeeps | client/download.c:280-283 | Writing one piece stores it and leaves the bytes of every other stored piece as they are |
| Download.BoundedLoss | client/download.c:250-298 | When all workers have ended no piece is marked as being downloaded, and if one ran out of pieces at most as many are unfinished as workers failed in the loop |
| Download.AllZeroIsComplete | client/download.c:325-370 | If every worker returned 0 and one was not for this peer itself, the file has all that was asked for; that is the source, byte for byte, exactly when the source is empty, or the first owner is another peer that answered, with a length that fits an int |
| Download.StepSpends | client/download.c:123-155 | Every step lowers one potential; every step but a write lowers twice the available pieces plus the pieces marked as being downloaded plus twice the active workers |
| Download.DownloadTerminates | client/download.c:250-298 | P pieces and W workers take at most 3P + 2W steps in any schedule, of which at most 2P + 2W are not writes |
| Download.NoWorkerIsStuck | client/download.c:193-298 | A worker that has not ended can always take a step |
| Download.GetNewPiece | client/download.c:123-141 | The first available piece is picked and marked, or nothing changes and -1 is returned |
| Download.JoinWorkers | client/download.c:365-370 | The loop folds the workers' results |
| Download.ResultZeroIff | client/download.c:332-382 | do_download returns 0 exactly when it started its workers and one of them returned 0 |
| Download.FilePiecesCount | client/download.c:332-337 | The number of flags, computed by a truncating division from a length that may be -1, is the number of pieces of what is asked for, whenever the workers are started |
| DownloadResult.ZeroMeansCompleteIff | client/download.c:300-382 | A result of 0 means a complete file in all schedules exactly when the file is empty, or no worker is started (no owner, or a negative number of pieces), or the only owner is another peer that answered, with a length that fits an int |
| DownloadResult.NothingAskedFor | client/download.c:325-333 | If this peer is the first owner, or the first owner does not answer, there is a schedule in which every worker returns 0 and the file is empty |
| DownloadResult.SelfOwnerMisleads | client/download.c:210-211 | With this peer among the owners of a non-empty file some schedule reports success with nothing downloaded |
| DownloadResult.TwoOwnersMislead | client/download.c:250-275 | With two or more owners, all foreign, and something to ask for, some schedule reports success without the last piece |
| DownloadResult.ShortLengthMisleads | client/download.c:332-333 | With one foreign owner and a length that is too short, a complete schedule reports success without the file |
| Pieces.Tiling | client/download.c:251-255 | Every piece is non-empty, at most piece_len long, inside the file, and ends where the next begins or the file ends |
| Pieces.EachByteInOnePiece | client/download.c:333 | Every byte of the file lies in exactly one piece |
| Pieces.NoOverflow | client/start.c:368-372 | Within the range of int nothing overflows, and the uploader's unsigned multiplication gives the downloader's offset |
| Segment.RecvSegment | utility/segment.c:22-65 | On any stream the automaton yields what follows the first start mark up to the first end mark, and consumes exactly that |
| Segment.ReceiveFrame | utility/segment.c:7-65 | Receiving a frame yields the shortest prefix of payload and trailer that ends in the end mark, whatever follows |
| Segment.GarbageBefore | utility/segment.c:32-39 | Bytes before a frame are skipped if there is no start mark's first byte among them |
| Segment.StrayBang | utility/segment.c:32-39 | A single such byte right before a frame swallows its start mark, and the frame is lost |
| Segment.WholeIff | utility/segment.c:22-65 | A payload arrives whole and its frame is consumed precisely exactly when it does not contain the end mark |
| Segment.StreamDecodesIff | utility/segment.c:22-65 | A stream of frames decodes call by call to the payloads sent exactly when none contains the end mark |
| Packets.EntryRoundTrip | include/trans_file_table.h:24-36 | Storing an entry in its struct and reading it back changes nothing |
| Packets.EntryLayout | include/trans_file_table.h:29-36 | Name, timestamp, operation, type and owner count of an entry lie at the offsets 0, 128, 136, 138 and 140, with the codes of the enumerations |
| Packets.OwnerLayout | include/trans_file_table.h:24-36 | Owner i lies at 144 + 8i, ip before port |
| Packets.TableLayout | include/trans_file_table.h:38-41 | The count of a table lies at 0 and entry i at 8 + 272i |
| Packets.LeByte | include/trans_file_table.h:24-36 | Numbers are stored with the least significant byte first |
| Packets.DataLenExactIff | client/packet.c:25-32 | The 16-bit length of a table of at most 4096 entries is exact exactly up to 240 entries |
| Packets.CarriedBytes | include/trans_file_table.h:8-9 | The bytes that trans_table_len counts, completed with zeros, are the table without the port of the sixteenth owner of its last entry |
| Packets.PacketArrives | server/packet.c:31-43 | For up to 240 entries and no end mark in the packet, the segment arrives whole, fits the receive buffer and yields the counted bytes in a zeroed table |
| Packets.HeaderArrives | client/packet.c:14-32 | Under the same premises the receiver finds the packet type, the ip and the port that were sent, and the length, at the offsets of the header struct |
| Packets.PacketPath | server/start.c:507-519 | Fill, frame, unframe and copy give the table sent, but for that one port; so exactly the same table when that port is not lost |
| Packets.PtotPacketFill | client/packet.c:25-32 | The table is copied behind the header and its length stored modulo 2^16 |
| Packets.UnpackTable | server/packet.c:31-43 | The segment is copied over a zeroed buffer and data_len bytes of it into a zeroed table |
| Monitor.MonitorTable.WatchTargetAdd | client/file_monitor.c:94-130 | A directory watched already is returned as it is, another is appended, and every target's path stays the translation of its logical name |
| Monitor.MonitorTable.WatchTargetAddDir | client/file_monitor.c:132-165 | Exactly the directory and its subdirectories are watched in addition, all with translated names |
| Monitor.DirTargetsIff | client/file_monitor.c:132-165 | These are exactly the targets whose path and logical name are those of the directory, continued by the names of some way down the tree |
| Monitor.MonitorTable.WatchRoots | client/file_monitor.c:641-646 | Exactly the shared roots and their subdirectories are watched |
| Monitor.MonitorTable.LongestWatched | client/file_monitor.c:441-452 | The first loop ends with the target of the longest watched prefix, and the name is restored |
| Monitor.MonitorTable.CreateAncestors | client/file_monitor.c:459-472 | The second loop creates and watches exactly the missing ancestors, in order, ends with the parent of the name, and restores the name |
| Monitor.MonitorTable.FileMonitorBlock | client/file_monitor.c:419-481 | A watched parent is returned; otherwise the ancestors missing below the longest watched prefix are created and the parent is returned; the name comes back byte for byte |
| Monitor.BlockedTargetIsParent | client/file_monitor.c:433-481 | The returned target is that of the directory the name is in, with the translation of its logical name as path |
| Monitor.MonitorTable.MonitorGetSysName | client/file_monitor.c:541-555 | For that target the result is the translation of the whole name |
| Monitor.MonitorTable.GetSysName | client/file_monitor.c:506-529 | The translation of the name is returned exactly if the directory it is in is watched |
| Monitor.SysOfInjective | client/file_monitor.c:94-108 | With roots apart, logical names with the same path are the same |
| Monitor.InjectiveIff | client/file_monitor.c:641-646 | Given different labels, translation is injective exactly when no shared root lies within another |

## Left out

- SyncProtocol.Convergence: lost connections are not among the steps, because dropped entries are not announced (`PeerSpec.CleanupAgreesIff`); they are covered for the table and the owner lists. Deletions outside the stated discipline are not covered either, and of these only the race with a change is followed to its end.
- Owner lists of peers as something that converges: a peer takes over the listed owners even of an older entry, and the tracker does not broadcast owners it merges from an equally old sync.
- The time between registration and sync: a join is one step, because a broadcast that arrives in between makes the client give up.
- Sockets, inotify, `stat`, `mkdir`, `flock` and `utime`: they appear as inputs of a step, or as the byte stream and the file of the model. Two paths are the same directory exactly when they are the same string, so names with empty or dotted components are not modelled.
- Races between finding an entry and acting on it, thread creation and cancellation: each handler is one step, and a worker's read from its owner is part of its write step.
- Tracker.SyncTask: reply, update and broadcast are one step; sending is not modelled.
- PeerNode.HandleEvent: covers the change of the table only; batching of inotify events into packets appears as the batches of `SyncProtocol.LocalEdit`, whose entries each had a successful `stat`.
- FileTable.FileTable.DeleteOwner: chains are sequences here, so the saved next pointer of the traversal is not visible; `HeapCleanup.DeleteOwnerInChain` proves the operation for one chain on the heap, with owner lists as sequences. That the 4096 chains do not overlap on the heap is not modelled.
- FileTable.FileTable.FillFrom: does not model the bound of 4096 array elements, and `n` does not wrap around.
- PeerNode.ReceiveBroadcast: does not model the removal of the file itself when an entry is deleted.
- Segment.RecvSegment: the buffer grows as needed, as the code does not check its length; `Packets.PacketArrives` states when it fits.
- Packets from tracker to peer and between peers, whose layout differs only in the header; the reply to a sync is copied over a table that is not zeroed, which is not modelled.
- Download.RunKeepsInv: all owners serve the same bytes; short writes and the retry counts of the read and write loops are not modelled, nor is the overflow of file_len + piece_len - 1, which `Pieces.NoOverflow` bounds.
- Packets.PtotPacketFill: the table fits the packet; beyond that the code writes past its end.
- Monitor.MonitorTable.WatchTargetAdd: the watch always succeeds, and the 128 slots for watch descriptors and the 128 bytes for a path are not bounded.
- File entry locks, keep-alive timers, the port allocator, configuration, printing and memory management: they would only add easy members.
