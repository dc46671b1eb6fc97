# objgit, modelled and proved in Dafny

objgit stores git repositories in an object bucket. This project models its storage engine and proves what
that engine is for: a pushed pack is resolved completely, base before delta, under a memory budget; what is
stored is what is read back; the pack index answers like a plain map; refs change by compare and swap without
losing an update, and are written only after a flush of the uploads that returned no error; and a push event
reports exactly the new commits and the changed files. Where the code keeps less than its documentation
promises, the input that shows it and the exact condition are under Findings.

| part | files |
|---|---|
| index-pack: entry headers, child table, bodies, resolver, deltas | `PackScan`, `IncomingPack`, `Bodies`, `Delta`, `Placement`, `Resolver` |
| containers: segment writer, sealing, index file, reading | `PackWriter`, `Containers`, `Wire`, `Cue`, `CueFiles`, `ReadPath`, `StoreRead`, `SharedRead`, `ColdRead` |
| inputs on which a promise fails | `DeepChains`, `ThinPacks` |
| pack index | `PackTable`, `PackIndex`, `PackHistory` |
| ref store and receive-pack | `RefSpec`, `RefStore`, `RefCommit`, `ReceivePack`, `PackedRefs`, `RefFiles` |
| uploads | `BundlerSpec`, `Bundler`, `Uploader` |
| push events | `CommitGraph`, `PushWalk`, `TreeDiff` |
| pack cache | `PackCache` |
| shared | `Prelude`, `Search`, `Sums` |

`dafny verify dfyconfig.toml` checks everything.

How the source is rendered:

- Objects with fields that methods change are classes (`Queue`, `Storer`, `Bucket`, `Index`, `Segment`,
  `Builder`, `BodyPool`, `Forest`, `Resolver`, `Cache`); loops stay loops. Each such method is proved against
  a function of the old state, and the laws are lemmas about that function.
- What several threads do is a step system whose steps are the critical sections, so a run is any
  interleaving; timers, cancellation, crashes and failed requests are steps or free choices.
- SHA is a function `sha` on objects that never gives the zero hash, and where a proof needs it an injective
  one; zstd is `enc`, `stream` and `dec` with `dec(enc(b)) == dec(stream(b)) == b` and no empty output; an
  ETag is an injective function of the content. A hash is the number its bytes spell.
- I/O faults are free choices. A `steady` flag switches them off, so that a failure can be blamed on the pack.

## Findings

- A push that rewinds a ref to another commit the old tip reaches reports that commit although it is not new;
  the list is exact if and only if the tips are equal or the old one does not reach the new one
  (`CollectNew`, `ExactUnlessRewound`).
- What sound pushes stored is read back exactly when the chain of records that the index gives for the hash is
  grounded: it ends at a whole record within fifty links and no record is its own base. That holds for any
  containers of sound pushes, with any sharing and any repeats (`ReadIffGrounded`, `PlacedReadsIffGrounded`),
  and is always so for a push that repeats and shares no hash (`UnsharedIsGrounded`). It fails in two ways:
  the fifty-link bound of a container does not bound a read across containers that share a hash, as two sound
  pushes show whose object 52 has fifty-one links to follow (`SharedHashPassesTheBound`); and a container that
  records one hash twice can make two objects each other's base, in one of the two orders that the unstable
  sort allows (`TwiceGoesRound`, `EitherOrderIsSealed`).
- A container is named by its data alone, so two containers with equal data and different records, such as a
  blob and a tag of the same bytes, leave one index file, and the first object is not found after a cold build
  (`SameBytesOverwrite`, `OverwriteHappens`). For any pushes, an object is read back after a cold build if and
  only if some container that was not written over records its hash and the chain is grounded (`ColdReadIff`).
- Pending ref-deltas are taken in the order of the hashes they name, so a pack that can be resolved is refused
  when an outside base has a larger hash than the object made from it (`PushThinPack`). Without I/O faults and
  too deep chains a push succeeds exactly when the pack is `Ordered` (`IndexPack`).
- A second writer that reads between another writer's PUT and its cleanup of loose refs folds an old value
  back. No execution loses a committed update if and only if the loose layer is empty (`LosslessIffNoLoose`).
- An index file with fewer bytes than records is refused by the count guard, and only such a file is
  (`ParseEncoded`). A push that repeats the empty blob records it over and over, and a lawful codec can make the
  file that short; the cold build returns the error, so one such file hides every object of the bucket
  (`RepeatsBreakColdBuild`, `ColdBuildSucceedsIff`).
- A reader of the first packed-refs version is said to refuse a line with a third field
  (`internal/storage/tigris/packedrefs.go:60-66`). It does for every hash value; for a symbolic ref it takes the
  field for a part of the target (`ThirdField`).
- A flush that returns an error clears it, so the next commit on the same storer flushes cleanly and writes
  refs although earlier jobs failed (`FailureIsForgotten`). When refs are written, every job ever accepted has
  ended in success if and only if no earlier flush read an error (`PutIffNoErrorRead`), against what
  `internal/storage/tigris/upload.go:246-250` says.

## Model

| member | source | states |
|---|---|---|
| PackScan.ScanEntryHeader | internal/storage/tigris/indexpack.go:248-310 | the byte loops of the entry header compute HeadAt: type, size, and the base a delta names, or a refusal |
| PackScan.ScanTypeSize | internal/storage/tigris/indexpack.go:251-269 | the size loop, refused past sixty bits, computes the little-endian base-128 number behind the four low bits |
| PackScan.ScanDist | internal/storage/tigris/indexpack.go:276-289 | the distance loop with one added before each shift computes ReadDist |
| PackScan.ReadWrittenHead | internal/storage/tigris/indexpack.go:248-310 | every header a client can write reads back: type, size, base hash, and through the binary search the very entry its distance means |
| PackScan.ReadWrittenTypeSize | internal/storage/tigris/indexpack.go:251-269 | every type and every size below 2^60 survives the size encoding |
| PackScan.ReadDistIsWritten | internal/storage/tigris/indexpack.go:274-289 | every distance has exactly one encoding: bytes that are accepted are the ones that would be written |
| PackScan.BaseWasScanned | internal/storage/tigris/indexpack.go:290-299 | an accepted ofs-delta names an entry scanned before it, at exactly the distance read |
| PackScan.TypeNamesBase | internal/storage/tigris/indexpack.go:271-307 | of an accepted header, the types 1 to 4 have no base, 6 names an earlier entry, 7 names a hash, and 0 and 5 are refused |
| IncomingPack.LinkKids | internal/storage/tigris/indexpack.go:333-351 | the count, prefix-sum and fill passes build a table whose slice for each entry is exactly its ofs-delta children, in pack order |
| IncomingPack.CountKids | internal/storage/tigris/indexpack.go:334-339 | the first pass counts each entry's ofs-delta children one place to the right |
| IncomingPack.SumKids | internal/storage/tigris/indexpack.go:340-342 | the second pass turns the counts, in place, into where each entry's children start |
| IncomingPack.FillKids | internal/storage/tigris/indexpack.go:343-350 | the third pass puts every child into its own entry's slice and into no other |
| IncomingPack.OfsKidsExact | internal/storage/tigris/indexpack.go:333-351 | the children of an entry are exactly the deltas that name it, each once |
| IncomingPack.ListRefs | internal/storage/tigris/indexpack.go:195-242 | every ref-delta is listed once, sorted by the base it names |
| IncomingPack.Forest.Children | internal/storage/tigris/indexpack.go:362-378 | the binary search and the done marks hand out exactly the deltas on an entry not handed out before, so none is handed out twice |
| IncomingPack.Forest.TakeRefs | internal/storage/tigris/indexpack.go:370-377 | marks and returns exactly the pending ref-deltas that name a hash |
| IncomingPack.ClaimedGrows | internal/storage/tigris/indexpack.go:362-378 | what was handed out grows by exactly the returned deltas, which are new and pairwise distinct |
| Delta.ApplyDelta | internal/storage/tigris/indexpack.go:829-922 | the command loop computes Apply, which by AppliesIffSpelled rebuilds exactly what a list of fitting commands means and refuses everything else |
| Delta.ReadDeltaSize | internal/storage/tigris/indexpack.go:925-940 | the size loop computes ReadSize with its 64-bit truncation and its refusal past 63 bits of shift |
| Delta.ReadCommand | internal/storage/tigris/indexpack.go:861-905 | one command is decoded as the format says, which NoSizeBytes and WholeBaseOf64K fix on numbers: a size without bytes is 65536, opcode zero is refused |
| Delta.ApplyWrittenDelta | internal/storage/tigris/indexpack.go:822-922 | a delta written with any commands that fit the base, each copy giving any of the four offset bytes and three size bytes, rebuilds exactly what the commands mean |
| Delta.AppliesIffSpelled | internal/storage/tigris/indexpack.go:822-922 | a delta applies to a base, with this result, if and only if behind the two sizes it is a list of the format's commands that all fit the base and mean this result |
| Delta.CmdWasWritten | internal/storage/tigris/indexpack.go:861-912 | whatever is read as a command is a command the format writes there, with that meaning: no other bytes are accepted |
| Delta.NoSizeBytes | internal/storage/tigris/indexpack.go:887-889 | for every base and every place below 4 GiB, a copy that gives no byte of its size takes exactly the 65536 bytes from that place |
| Delta.WholeBaseOf64K | internal/storage/tigris/indexpack.go:887-889 | a base of 65536 bytes is rebuilt by its two sizes and the one command byte 0x80 |
| Delta.EveryRangeIsWritten | internal/storage/tigris/indexpack.go:861-889 | every range that begins below 4 GiB and is shorter than 16 MiB can be written as one copy and means itself |
| Bodies.BodyPool.Collect | internal/storage/tigris/indexpack.go:545-584 | a body that arrives in pieces of any size is collected whole, in memory exactly when limit and budget admit it |
| Bodies.BodySink.Write | internal/storage/tigris/indexpack.go:554-573 | after every piece the bodies in memory and the open sink are within the budget together, and a piece that would pass what is admitted moves everything to a file |
| Bodies.BodySink.Finish | internal/storage/tigris/indexpack.go:575-584 | the body is handed over whole and counts exactly when it is in memory |
| Bodies.BodyPool.Release | internal/storage/tigris/indexpack.go:587-600 | frees exactly what the body held, and nothing when it was released before |
| PackWriter.Segment.Add | internal/storage/tigris/packwriter.go:210-243 | the records keep tiling the file, the new span decodes to the payload given in the codec its size band chooses, and stored is never more than the payload |
| PackWriter.Segment.WritePayload | internal/storage/tigris/packwriter.go:259-290 | in every size band the file grows by a form that decodes to the payload: raw below 2048 bytes, up to the exact limit compressed if and only if that saves 64 bytes, above it if and only if the head window shrinks by a 32nd and the whole saves 64 bytes |
| PackWriter.Segment.WriteProbed | internal/storage/tigris/packwriter.go:295-328 | the same for the probed band, also when the head mispredicts and the file is rewound: compressed if and only if both the head and the whole pay |
| PackWriter.Segment.Rewind | internal/storage/tigris/packwriter.go:384-396 | the file is back at the end of the last added object |
| PackWriter.Segment.Write | internal/storage/tigris/packwriter.go:202-206 | bytes are appended and counted; a failed write leaves a counted part |
| PackWriter.HoldsNext | internal/storage/tigris/packwriter.go:225-236 | appending a stored form and its record keeps the tiling and every older span's meaning |
| Containers.Builder.Place | internal/storage/tigris/indexpack.go:787-820 | the object is recorded once, as a delta exactly when its base is in the same container, the delta is smaller and the base's chain is below fifty, and the log of placed objects stays sound |
| Containers.Builder.Open | internal/storage/tigris/indexpack.go:794-809 | the open container is sealed exactly when the object might pass the cap, and a container is open afterwards |
| Containers.Builder.Seal | internal/storage/tigris/packwriter.go:439-452 | a sealed container holds exactly the records placed in it, sorted by hash, over data they tile, within the byte cap or with one object |
| Containers.Builder.Put | internal/storage/tigris/indexpack.go:811-819 | adding to the open container keeps every sealed container and the log as they should be |
| Containers.FormIsRecorded | internal/storage/tigris/indexpack.go:811-815 | the chosen form records the object truly: whole, or the client's own delta on a base in the same container one link deeper, at most fifty |
| Resolver.Resolver.Walk | internal/storage/tigris/indexpack.go:724-767 | on success exactly the kids and what was handed out on the way were placed; on every path the bodies held are those held before without the base |
| Resolver.Resolver.Kid | internal/storage/tigris/indexpack.go:730-765 | one kid is inflated, applied, placed and walked; the base is freed at its last use and stays readable before |
| Resolver.Resolver.Store | internal/storage/tigris/indexpack.go:740-757 | base, delta and object are released on each path as the accounting needs, also twice |
| Resolver.Resolver.Apply | internal/storage/tigris/indexpack.go:829-922 | rebuilds an object into a counted body, or frees the partial output and says whether the delta was bad |
| Resolver.Resolver.WholeObject | internal/storage/tigris/indexpack.go:685-716 | a whole object and everything built on it are placed; it is held in memory only when something is built on it |
| Resolver.Resolver.OutsideBase | internal/storage/tigris/indexpack.go:637-658 | everything pending on an outside base is placed, never as a stored delta on it |
| Resolver.Resolver.Run | internal/storage/tigris/indexpack.go:625-660 | on success every entry is placed; on every path memory is back to what it was; without I/O faults a failure is blamed on the pack: a delta that does not apply, a chain that is too deep, or a missing base with nothing more to place without an outside base at or above it |
| Resolver.IndexPack | internal/storage/tigris/packwriter.go:70-139 | a push from scan to last seal: complete, base first, right bytes, containers holding exactly the placed objects, zero bytes of body left; it succeeds only for ordered packs, an ordered pack fails only by an I/O fault or a too deep chain, and for distinct new objects a steady push succeeds if and only if the chains of the ordered log are shallow |
| Resolver.OutcomeIsJust | internal/storage/tigris/indexpack.go:625-660 | success means that the pack is ordered, a missing base that it is not, and a bad delta that no order resolves it |
| Resolver.DepthDecides | internal/storage/tigris/indexpack.go:726-728 | for a pack in order with distinct new objects the outcome is decided by the depth of its chains alone |
| Resolver.AllPlaced | internal/storage/tigris/indexpack.go:625-660 | once every whole object was walked and every ref-delta handed out, every entry of any mix is placed |
| Resolver.AllBelowDone | internal/storage/tigris/indexpack.go:637-641 | when every ref-delta that sorts before a pending one was handed out, nothing more can be placed from below its base |
| Resolver.StillKid | internal/storage/tigris/indexpack.go:730-765 | walking the earlier kids places none of the later ones, whatever repeated base hashes there are |
| Placement.PlacedOnce | internal/storage/tigris/indexpack.go:625-767 | a complete log places each entry exactly once, and each delta after the entry or outside object it names |
| Placement.ResolutionIsUnique | internal/storage/tigris/indexpack.go:724-767 | two sound logs give an entry the same object, whatever order they were made in |
| Placement.BadDeltaIsFinal | internal/storage/tigris/indexpack.go:735-739 | a delta that is refused cannot be resolved in any other order |
| Placement.NoBaseIsUnordered | internal/storage/tigris/indexpack.go:637-652 | a missing base is reported only for a pack that outside bases taken in hash order cannot resolve |
| Placement.ResolvedIsOrdered | internal/storage/tigris/indexpack.go:637-658 | a pack that was resolved stands, below each ref-delta whose base is not in the repository, on whole objects or on outside bases with smaller hashes |
| ThinPacks.PushThinPack | internal/storage/tigris/indexpack.go:637-658 | a steady push of a concrete thin pack, which can be resolved for every hash, succeeds when the outside object has the smaller hash and otherwise ends with the missing base |
| ThinPacks.ThinOrder | internal/storage/tigris/indexpack.go:637-658 | that pack is ordered exactly when the outside object has the smaller hash |
| Placement.ShallowNext | internal/storage/tigris/indexpack.go:726-728 | no placed entry has more than 4095 of the client's deltas under it |
| Placement.DepthIsUnique | internal/storage/tigris/indexpack.go:724-767 | for distinct new objects every sound log gives an entry the same chain depth |
| Placement.TooDeepIsFinal | internal/storage/tigris/indexpack.go:726-728 | a chain refused as too deep is then too deep in every order |
| StoreRead.StoreThenRead | internal/storage/tigris/packindex.go:924-1072 | a push whose hashes are distinct and in no other listed container, whatever those others hold, is read back with exactly its types and bytes, and the fifty-link refusal is never reached |
| SharedRead.ReadIffGrounded | internal/storage/tigris/packindex.go:924-1072 | for any listing of containers sealed by sound pushes, with any sharing and any repeats, every indexed hash has one object with that hash, and a read returns it if and only if the chain of index records is grounded within fifty links, and fails otherwise |
| SharedRead.PlacedReadsIffGrounded | internal/storage/tigris/packindex.go:924-1072 | store then read: an object that any of the pushes placed is returned with exactly its type and bytes if and only if the chain of its hash is grounded |
| SharedRead.UnsharedIsGrounded | internal/storage/tigris/indexpack.go:811-815 | a push that repeats no hash and shares none is grounded from every object within its stored chain |
| SharedRead.IndexedWasPlaced | internal/storage/tigris/packindex.go:582-595 | the record that the index gives for a hash is that of a placed object with the hash, and its payload decodes |
| ColdRead.ColdReadIff | internal/storage/tigris/packwriter.go:439-525 | seal, upload by name, list, parse, index, read, for any pushes: an object comes back with exactly its type and bytes if and only if some container that was not written over records its hash and the chain is grounded |
| ColdRead.IndexedIffSurvives | internal/storage/tigris/packindex.go:664-728 | a cold build knows a hash if and only if a container that was not written over records it |
| ColdRead.ColdBuildSucceedsIff | internal/storage/tigris/packindex.go:676-706 | the cold build of a bucket succeeds if and only if the index file of every container that was not written over has at least as many bytes as records |
| ColdRead.RepeatsBreakColdBuild | internal/storage/tigris/packindex.go:227-232 | for every hash a lawful codec and a sealed push of repeated empty blobs whose own index file is refused, and with it every cold build of a bucket that holds it |
| ColdRead.ReadsBackIffKept | internal/storage/tigris/packwriter.go:439-525 | a push that repeats and shares no hash comes back whole if and only if no container with the same data and other records was uploaded after one of its own, whatever the other uploads hold |
| ColdRead.OverwrittenIsGone | internal/storage/tigris/packwriter.go:517-525 | the objects of a container whose index file was written over are not found after a cold build |
| ColdRead.SameBytesOverwrite | internal/storage/tigris/packwriter.go:454-525 | pushed as a blob and then as a tag, the same bytes leave the tag readable and the blob not found |
| ColdRead.OverwriteHappens | internal/storage/tigris/packwriter.go:439-525 | for every hash, codec and naming there are two sealed pushes and a cold listing of which that is true |
| ColdRead.ListedIsLast | internal/storage/tigris/packindex.go:664-706 | a listed index file parses to exactly the records of the last container uploaded under its name |
| StoreRead.EveryEntryReads | internal/storage/tigris/packwriter.go:70-139 | so every entry of a completely indexed pack reads back |
| StoreRead.ChainReadsBack | internal/storage/tigris/packindex.go:999-1072 | the same followed from any depth that leaves room for the stored chain |
| StoreRead.FoundAsPlaced | internal/storage/tigris/packindex.go:732-742 | the newest-wins lookup over all containers finds the record the push placed |
| StoreRead.PayloadReadsBack | internal/storage/tigris/packindex.go:939-983 | its span, cut and decoded, is the payload that was stored |
| StoreRead.SealedIsLocal | internal/storage/tigris/indexpack.go:811-815 | in every container a push seals, a delta's base is recorded at a smaller chain depth |
| ReadPath.BaseIsNearer | internal/storage/tigris/packindex.go:999-1072 | across any such containers a step to the base goes to a newer container, or down the chain of the same one |
| ReadPath.GuardIsExact | internal/storage/tigris/packindex.go:999-1072 | with the depth guard a read equals the unguarded read up to fifty links, and fails past them |
| ReadPath.ReadIffShort | internal/storage/tigris/packindex.go:924-933 | for any containers whose own chains are acyclic, an object is returned exactly when the unguarded read, which always ends, returns it over at most fifty links |
| DeepChains.SharedHashPassesTheBound | internal/storage/tigris/packindex.go:1012-1014 | two sound pushes with chains of at most fifty links, every object of which rebuilds through its bases, and a read of which meets the depth refusal at fifty-one links |
| DeepChains.SuchContainersExist | internal/storage/tigris/packwriter.go:439-452 | for every hash and codec those pushes can be sealed and shelved |
| DeepChains.LadderIsSound | internal/storage/tigris/indexpack.go:811-815 | a chain of real deltas up to fifty links is what a push of that pack places |
| DeepChains.TwiceGoesRound | internal/storage/tigris/packindex.go:1012-1017 | a sound push with one object twice, both objects of which read back when its whole record counts, and meet the depth refusal when its delta record counts |
| DeepChains.EitherOrderIsSealed | internal/storage/tigris/packwriter.go:450-452 | the sort by hash allows containers of either kind |
| ReadPath.Newest | internal/storage/tigris/packindex.go:582-595 | the lookup's answer is the record of the newest container that has the hash |
| PackTable.BuildTable | internal/storage/tigris/packtable.go:111-165 | the table is sorted by hash and knows of each hash exactly its last source, base hash included |
| PackTable.SortStable | internal/storage/tigris/packtable.go:112-120 | a permutation by hash that keeps the order of equal hashes |
| PackTable.Dedupe | internal/storage/tigris/packtable.go:128-137 | exactly the last source of every hash is kept |
| PackTable.NumberBases | internal/storage/tigris/packtable.go:139-164 | a base becomes the number of its record, or is filed under far bases |
| PackTable.FindIsComplete | internal/storage/tigris/packtable.go:65-71 | the binary search finds every record |
| PackTable.LookupScan | internal/storage/tigris/packindex.go:582-595 | the newest table with a live record of the hash answers |
| PackTable.MergeTables | internal/storage/tigris/packtable.go:196-216 | one table that answers every hash as the tables with their dead set did |
| PackTable.MergedAnswer | internal/storage/tigris/packtable.go:196-216 | the last live source over all tables is the newest-first lookup's answer |
| PackTable.LookupIsLive | internal/storage/tigris/packindex.go:582-595 | no lookup returns a record of a dead pack |
| PackIndex.Index.Register | internal/storage/tigris/packindex.go:490-504 | the pack's records win from now on, everything else answers as before, the plain newest-wins map is kept up, and the list of tables is the old one or a new one |
| PackIndex.Index.Deregister | internal/storage/tigris/packindex.go:517-546 | the pack is returned for no hash and counts as gone, also when it was never known, and answers of other packs stay |
| PackIndex.Index.EnsurePacksBuilt | internal/storage/tigris/packindex.go:664-728 | a cold build with nothing between its halves goes under what was registered |
| PackIndex.Index.InstallCold | internal/storage/tigris/packindex.go:708-727 | the second half of a cold build: the listing goes under everything registered meanwhile, unless another build came first |
| PackIndex.Index.MergeIfMany | internal/storage/tigris/packindex.go:471-480 | an automatic merge changes no answer |
| PackIndex.Index.Append | internal/storage/tigris/packindex.go:471-473 | a table is appended, in the shared backing array when it has room, and no snapshot sees it |
| PackIndex.Index.TakeSnapshot | internal/storage/tigris/packindex.go:574-578 | a snapshot holds the tables and the dead set of this moment |
| PackIndex.SnapshotLookup | internal/storage/tigris/packindex.go:582-595 | a snapshot keeps all its answers whatever was registered, listed or merged since |
| PackIndex.GoneIsNotReturned | internal/storage/tigris/packindex.go:517-546 | a deregistered pack is not returned until it is registered or listed again |
| PackHistory.LookupInHistory | internal/storage/tigris/packindex.go:574-595 | for every history of registrations, deregistrations and cold builds whose listings run beside everything else, from the empty index, a snapshot taken at any moment answers, when all is over, like the plain newest-wins map of that moment while no known pack was taken out, and never a pack taken out and not registered or listed since |
| PackHistory.Perform | internal/storage/tigris/packindex.go:457-546 | each critical section moves the index as the simple account of its history says |
| PackHistory.ColdLookup | internal/storage/tigris/packindex.go:664-742 | after a cold build a lookup finds the record of the newest listed container that has the hash |
| PackIndex.TablePushed | internal/storage/tigris/packindex.go:490-504 | a table on top wins and the state stays in agreement with the plain map |
| PackIndex.TablesMerged | internal/storage/tigris/packindex.go:471-480 | merging with the current dead set changes no answer |
| PackIndex.PackTakenOut | internal/storage/tigris/packindex.go:517-546 | dropping a pack's own tables and marking it dead in shared ones leaves the answers of others |
| PackIndex.TablesUnderneath | internal/storage/tigris/packindex.go:709-727 | tables put underneath answer only where nothing above does |
| Cue.ParseEncoded | internal/storage/tigris/packindex.go:163-241 | parsing the encoding of any records gives those records back exactly when the file has at least as many bytes as records, and refuses it otherwise |
| Cue.ReadCueFile | internal/storage/tigris/packindex.go:163-241 | a container's own records come back from its index file, unless the file has fewer bytes than there are records |
| Cue.ShortFileIsRefused | internal/storage/tigris/packindex.go:227-232 | for any good records a lawful codec whose file has seventeen bytes, which is refused exactly for more than seventeen records |
| Cue.RawAlwaysParses | internal/storage/tigris/packindex.go:163-200 | a file stored without compression always reads back |
| Cue.EncodeCue | internal/storage/tigris/packindex.go:163-200 | the seven column loops write the header and the columns one behind the other |
| Cue.ParseCue | internal/storage/tigris/packindex.go:209-241 | the checks and the record loops of the three versions compute Parse, which ParsesIff states for every file |
| Cue.ParseRows | internal/storage/tigris/packindex.go:313-342 | the record loop over the columns, with or without a base column, gives every record, or a refusal for an unknown payload codec |
| Cue.ParseRowsV1 | internal/storage/tigris/packindex.go:246-271 | the record loop of the first version gives every record or a refusal |
| Cue.ParseEncodedV1 | internal/storage/tigris/packindex.go:243-271 | every file of the first version reads back as the raw, base-less records it was written from |
| Cue.ParseEncodedV2 | internal/storage/tigris/packindex.go:274-342 | the file of the second version, six columns and no base, of any records that hold no delta reads back as exactly these records if and only if it has at least as many bytes as records |
| Cue.OneRecordFile | internal/storage/tigris/packindex.go:163-200 | how a file of one record lies in the bucket byte by byte in both column versions: header, hash, type, codec, offset, stored length, raw length, and base where there is one |
| CueFiles.ParsesIff | internal/storage/tigris/packindex.go:209-342 | a file of any version is accepted, and these records are returned, if and only if its header counts them, its body is theirs cell by cell, and it has at least as many bytes as records |
| CueFiles.BlockParsed | internal/storage/tigris/packindex.go:283-342 | the columns put together again from the returned records are the whole record block, without a rest |
| CueFiles.CellsOfRow | internal/storage/tigris/packindex.go:321-341 | an accepted record is written as the very cells it was read from |
| CueFiles.BodyIsWrittenV1 | internal/storage/tigris/packindex.go:246-271 | the body of an accepted file of the first version is its records one behind the other |
| Cue.RowOfCells | internal/storage/tigris/packindex.go:129-146 | one record's cells, with 64-bit two's complement numbers and a signed type byte, spell that record |
| PackedRefs.DecodeEncoded | internal/storage/tigris/packedrefs.go:67-156 | decoding the encoding of any map of writable refs gives that map |
| PackedRefs.CutBodyIsRefused | internal/storage/tigris/packedrefs.go:150-155 | a raw body cut on a line boundary is refused, exactly unless a multiple of 2^32 lines is missing |
| PackedRefs.OneEncoding | internal/storage/tigris/packedrefs.go:48-55 | one set of refs has one encoding |
| PackedRefs.EncodePackedRefs | internal/storage/tigris/packedrefs.go:67-91 | the sorted names and the line loop write the one encoding of the refs, which decodes to them when they are writable |
| PackedRefs.DecodePackedRefs | internal/storage/tigris/packedrefs.go:100-156 | the line loop, with its refusals, computes Decoded |
| PackedRefs.DecodeText | internal/storage/tigris/refs.go:31-48 | a hash in hex or a symbolic target is one line of text that decodes to it |
| PackedRefs.DecodeEncodedValue | internal/storage/tigris/refs.go:31-48 | what a loose ref is written as, newline included, decodes to its value |
| RefFiles.DecodesIff | internal/storage/tigris/packedrefs.go:100-156 | an object is accepted, and these refs are returned, if and only if its body is lines of a name without tab, a tab and a text that decodes, of which these are the last values, and the header counts them modulo 2^32 |
| RefFiles.ReadWereLines | internal/storage/tigris/packedrefs.go:126-148 | a body that is read is exactly lines, each ended by a newline, with nothing left over |
| RefFiles.ThirdField | internal/storage/tigris/packedrefs.go:60-66 | a line with another hash as a third field is refused if its value is a hash, and taken as a longer target if it is a symbolic ref |
| RefFiles.BlankIsTrimmed | internal/storage/tigris/refs.go:38-48 | a value decodes with any ASCII white space in front of it and behind it |
| RefStore.CommitsAreLinear | internal/storage/tigris/refcache.go:164-251 | from an empty loose layer, in every interleaving, each landed PUT is its client's whole batch applied to the version just before, which met its expectations |
| RefStore.NoLostUpdate | internal/storage/tigris/refcache.go:164-251 | a landed value stays until a later batch names its ref |
| RefStore.OutcomesAreTrue | internal/storage/tigris/refcache.go:221-251 | contention and a changed ref mean that nothing was written; success means written exactly once |
| RefStore.ChangedForCause | internal/storage/tigris/refcache.go:197-201 | in every interleaving, also with a loose layer, a client told that a ref has changed had read since it began, packed refs first and loose refs later, refs that do not meet its expectations |
| RefStore.ContentionIsProgress | internal/storage/tigris/refcache.go:221-251 | in every interleaving a client gives up for contention only after at least eight puts of others have landed since it began |
| RefStore.ReaderNext | internal/storage/tigris/refcache.go:176-201 | how a client comes to the refs it checks: one fetch, one listing after it, and a refusal only by what these two gave |
| RefStore.MatchedTagIsCurrent | internal/storage/tigris/refcache.go:210-229 | an ETag that matches, even one that repeats, names the content that was read |
| RefStore.StepKeeps | internal/storage/tigris/refcache.go:164-251 | every step of any client keeps the invariant |
| RefStore.LooseLayerLosesAnUpdate | internal/storage/tigris/refcache.go:183-250 | on every store with a loose ref, an execution of two writers that loses a committed update of it |
| RefStore.LosslessIffNoLoose | internal/storage/tigris/refcache.go:164-251 | no execution from a store loses a committed update if and only if its loose layer is empty |
| RefStore.NothingLost | internal/storage/tigris/refcache.go:164-251 | from an empty loose layer no committed update is ever gone from the effective refs |
| RefCommit.Storer.CommitRefs | internal/storage/tigris/refcache.go:164-251 | at every moment each ref reads as before or after the commit; a completed commit leaves exactly old view plus sets minus removes and no loose key; one turned away, or whose uploads were not flushed, wrote nothing; it is turned away only when the refs it sees or those of the bucket do not meet its expectations; alone it never ends in contention; and without request faults it completes if and only if the batch is not empty, the uploads are flushed, and both meet the expectations |
| RefCommit.Storer.Attempt | internal/storage/tigris/refcache.go:183-250 | one turn of the retry loop: turned away exactly for what it saw, refused only with an out-of-date cache, and written otherwise unless a request fails |
| RefCommit.Storer.SeesTheBucket | internal/storage/tigris/refcache.go:55-96 | what a commit is checked against is what the bucket holds unless the cache is out of date, so then the bucket's refs alone decide |
| RefCommit.Storer.DropFoldedLooseRefs | internal/storage/tigris/refcache.go:298-335 | after every batch of deletes each ref reads as before or after, and on success no folded key is left |
| RefCommit.Storer.EnsureRefsBuilt | internal/storage/tigris/refcache.go:55-96 | the cache is built from one read of both layers or stays unbuilt |
| RefCommit.Storer.CheckRefExpectations | internal/storage/tigris/refcache.go:257-275 | true exactly when the view meets every expectation |
| RefCommit.Storer.Mutate | internal/storage/tigris/refcache.go:203-208 | sets in order and then removals, as the batch means |
| RefCommit.Bucket.Put | internal/storage/tigris/refcache.go:210-229 | a conditional write lands only on a matching tag, and may have landed when the request failed |
| RefCommit.AnyCleanupIsBetween | internal/storage/tigris/refcache.go:106-122 | whatever part of the old loose layer is left, each name reads as before or after |
| ReceivePack.HooksSeeTrueTransitions | cmd/objgitd/receivepack.go:231-241 | every update handed to hooks is a transition one landed version made, beside concurrent pushes and with a cleanup error |
| ReceivePack.PushRefs | cmd/objgitd/receivepack.go:426-482 | the commands staged, the batch committed in whatever run of the ref store, the outcome reported: a command is reported as done if and only if it was valid and the commit was clean or its new value is seen after a failed cleanup; the updates handed to hooks, in command order, are exactly those that changed something, and each is a true transition of that run |
| ReceivePack.Stage | cmd/objgitd/receivepack.go:426-452 | exactly the valid commands are staged, in order, with strict expectations of their old hashes |
| ReceivePack.Report | cmd/objgitd/receivepack.go:461-481 | after a clean commit every staged command is reported as done, after a failed cleanup exactly those whose new value a fresh read shows, and when nothing was committed none |
| ReceivePack.StatusIsTrue | cmd/objgitd/receivepack.go:426-482 | every command, rejected or staged, is told whether it was carried out |
| ReceivePack.SuccessfulRefUpdates | cmd/objgitd/receivepack.go:231-241 | exactly the commands that succeeded and changed something, in command order |
| ReceivePack.StagedTransition | cmd/objgitd/receivepack.go:353-372 | a batch that landed on refs that met it moved each staged ref from its old to its new hash |
| ReceivePack.Expectations | internal/storage/tigris/refs.go:101-116 | a strict expectation for each expected old value, and none else |
| BundlerSpec.FlushWaits | internal/bundler/bundler.go:377-407 | when a flush returned, every item added before it began was handled, in every interleaving, also items in a queued bundle of an earlier flush |
| BundlerSpec.FlushNeverStuck | internal/bundler/bundler.go:377-407 | in every reachable state with an open flush and a handler allowed, a running bundle can finish or a flush can end |
| BundlerSpec.Conservation | internal/bundler/bundler.go:254-373 | every accepted item is in exactly one bundle in order of acceptance, bundles keep their limits, waiting means all handlers busy, and the semaphore holds exactly what is not released |
| BundlerSpec.ClosedMeansHandled | internal/bundler/bundler.go:377-407 | a closed flush means that all below its mark is handled |
| BundlerSpec.StepKeeps | internal/bundler/bundler.go:167-407 | every step keeps the invariant |
| BundlerSpec.StepShape | internal/bundler/bundler.go:167-407 | each step changes the history as it should: a bundle given to a handler is never appended to again |
| BundlerSpec.NoFullBundleWaits | internal/bundler/bundler.go:279-282 | in every reachable state the bundle that waits for more items is below the byte threshold and not at the count threshold |
| BundlerSpec.AddDispatches | internal/bundler/bundler.go:254-290 | in every run an add puts its item into the queued tail, the current bundle or a new one as the limits say, and a bundle it fills is with a handler at once if one is free, and last in the queue otherwise |
| BundlerSpec.FinishEnabled | internal/bundler/bundler.go:320-341 | in every reachable state a running bundle's weight and count can be given back |
| Bundler.Queue.Add | internal/bundler/bundler.go:254-290 | an accepted item goes to the queued tail or the current bundle, and a bundle it fills goes to a handler or the queue, as the step says, which AddDispatches states for every run |
| Bundler.Queue.EnqueueCurBundle | internal/bundler/bundler.go:167-192 | the current bundle goes to a free handler or to the end of the linked queue |
| Bundler.Queue.PostHandle | internal/bundler/bundler.go:329-341 | weight and count are given back and the head of the queue is handed out |
| Bundler.Queue.TakeHead | internal/bundler/bundler.go:302-313 | the head is unlinked and the rest keeps its order |
| Bundler.Queue.Reserve | internal/bundler/bundler.go:353-373 | an acquire is granted exactly when the weight fits |
| Bundler.Queue.FlushBegin | internal/bundler/bundler.go:377-395 | what is pending is queued and the next flush gets its own wait group |
| Bundler.Queue.FlushEnd | internal/bundler/bundler.go:397-407 | a flush ends when the one before it and its own wait group let it |
| Uploader.PutAfterUploads | internal/storage/tigris/refcache.go:168-229 | in every run, when the packed refs are put, every job enqueued since the flush before the last one has ended in success |
| Uploader.PutIffNoErrorRead | internal/storage/tigris/upload.go:246-258 | when the packed refs are put, every job ever accepted has ended in success if and only if no earlier flush read an error |
| Uploader.FailureIsForgotten | internal/storage/tigris/upload.go:251-258 | a run in which a job fails, a flush reports it, and the next commit puts the refs all the same |
| Uploader.PutFollowsFlush | internal/storage/tigris/refcache.go:168-170 | a put comes after a flush that read no error, with nothing enqueued since |
| Uploader.FloorIsLastFlush | internal/storage/tigris/upload.go:251-258 | the jobs a flush settles are those accepted since the last flush ended |
| Uploader.NoErrorMeansUploaded | internal/storage/tigris/upload.go:154-178 | an empty error slot after the bundler's flush means that all its jobs succeeded |
| Uploader.StepKeeps | internal/storage/tigris/upload.go:154-258 | every step of storer, handlers and timers keeps the invariant |
| Uploader.ClampedJobFits | internal/storage/tigris/upload.go:238-244 | a clamped job can always be acquired; one above the semaphore never |
| PushWalk.CollectNew | internal/pushevents/push.go:294-338 | exactly the tip and what it reaches outside the excluded set, each once, parents first, with an exact ancestor flag although the walk prunes; the list is what is new if and only if the tips are equal or the old one does not reach the new one, and the new tip alone otherwise |
| PushWalk.Reachable | internal/pushevents/push.go:267-290 | exactly the commits the tip reaches |
| PushWalk.PushedCommits | internal/pushevents/push.go:36-109 | a push reports exactly the commits new to the ref, on a rewind the new tip alone, on no change nothing, and is forced exactly when the old tip is no ancestor |
| PushWalk.ExactUnlessRewound | internal/pushevents/push.go:294-338 | why the list is exact if and only if the tips are equal or the old one does not reach the new one |
| PushWalk.RewindExample | internal/pushevents/push.go:294-338 | on a history of two commits, a push back to the first reports it as a new commit and as forced |
| PushWalk.OldSeenAsParent | internal/pushevents/push.go:313-323 | pruning never hides the old tip: some listed commit has it as a parent |
| TreeDiff.Diff | internal/pushevents/push.go:126-146 | added, changed and deleted are exactly the differences of the two flattened trees, each path once |
| TreeDiff.DiffTrees | internal/pushevents/push.go:148-230 | the recursion with hash shortcuts adds exactly the differences under its prefix |
| TreeDiff.DiffOldEntry | internal/pushevents/push.go:167-211 | one old name: unchanged, changed, deleted, or replaced across file and directory |
| TreeDiff.DiffNewEntry | internal/pushevents/push.go:212-228 | one name only the new tree has |
| TreeDiff.DirectoriesDescend | internal/pushevents/push.go:148-230 | an entry of mode 040000 is no file and is listed by what is in it; every other entry is a file and nothing is below it |
| TreeDiff.RenderedOnce | internal/pushevents/push.go:148-230 | joined with slashes, no path is listed twice |
| PackCache.Cache.Claim | internal/storage/tigris/packcache.go:265-283 | the entry becomes the most recently used, and only the first claimer is to fill it |
| PackCache.Cache.Forget | internal/storage/tigris/packcache.go:288-295 | an entry is dropped and uncharged only if it is still the registered one |
| PackCache.Cache.Settle | internal/storage/tigris/packcache.go:357-369 | a landed download is charged; afterwards the budget holds or nothing else is charged, and the entry stays |
| PackCache.Cache.EvictLocked | internal/storage/tigris/packcache.go:380-416 | only settled entries less recently used than every evictable survivor go, no more than the budget needs, and never a running download |
| PackCache.Cache.Victim | internal/storage/tigris/packcache.go:386-394 | the least recently used evictable entry, whatever order the map is gone through |
| PackCache.Cache.EvictIdle | internal/storage/tigris/packcache.go:421-438 | exactly the settled entries idle since the cutoff go |
| PackCache.EveryInterleaving | internal/storage/tigris/packcache.go:200-241 | for every interleaving of any number of callers that claim, fill, wait, open and forget, and of sweeps, what is charged is the sizes of what is registered, and every running download is registered and not charged |
| PackCache.Act | internal/storage/tigris/packcache.go:200-369 | each critical section of a caller does its part and no more: a first claim registers an empty entry for its claimer alone to fill, a landed download is charged with its size, a failed one is forgotten, a file that has gone is forgotten unless it was replaced, a sweep takes what is idle, and out of turn nothing happens |

## Left out

- S3 and HTTP clients, SSH, hooks, webhook delivery, metrics and presigning: input and output over libraries.
- zlib, zstd and SHA themselves, go-git's delta patching on the read side (taken as the same Apply), encoder pools, decoder memory caps and file-descriptor cleanup.
- The pack's own framing around the entries (signature, count, trailer checksum) and inflating: an entry is its type and inflated body, and the scan hashes whole objects as `sha` does.
- Hashes of two widths mixed in one container, and a zero hash as a record's own hash.
- Real time and deadlines: a timer or a cancellation is a step that may happen at any time.
- The bundler's nodes, wait groups and channels are numbers in stores instead of addresses; the order in which blocked semaphore waiters are served is free.
- Go's 32-bit entry numbers: the scan refuses packs with more than 2^31-1 entries, so they do not wrap.
- The reader's tiers (local copy, finished download, partial download, ranged GET): each gives the same stored bytes, which the model takes from one place.
- The cache's slots are told apart by a ticket number, as their addresses do in the source.
- The bound on GetChecked's tries, the orphan sweep and the checksum of a download.
- Malformed loose refs, which the listing skips, and refs written one by one without packed refs.
- Resolver.IndexPack: when a chain counts as too deep is decided by the pack alone only for distinct new objects; otherwise another order can give a chain another depth.
- RefStore.OutcomesAreTrue: a PUT is one attempt. `internal/s3fs/resilient.go:30` says that the SDK retries requests, and a retry of a PUT that had landed would be refused by its own write; that step is not part of the model.
- PackHistory.LookupInHistory: a pack taken out while a listing that names it is under way counts as listed again when that listing is installed, as the code then returns it.
- A merge of tables drops shadowed records, so what a pack answered before it was shadowed is not claimed to come back when the shadowing pack is taken out.
- The text encoding of paths and signatures in push events, and reading an annotated tag.
- internal/lfs, internal/s3fs, segmentstore.go, mountfs, treefs, unixmeta, and the bench commands: adapters, or easier versions of the same arguments.
