# zsqlite: a model of the page store, the catalog and their protocols

zsqlite keeps a SQLite database as a mutable raw pagefile over an immutable sealed base, and keeps the
index of everything sealed in a compare-and-swap catalog of log-structured runs. This project models those
parts in Dafny and proves what they promise.

**Wire records** (`Bytes`, `Layout`, `Format`, `Encoders`). The fixed sectors and records as byte strings, their
validity rules, and the in-place encoders. The hash, the checksum and the compressor are function-valued fields
of `Primitives`: nothing is assumed of the hash and the checksum, and only that decompression undoes
compression (`Lossless`).

**Index runs and chains** (`IndexRun`, `Index`, `IndexProofs`, `IndexOps`, `IndexHistory`). A run is printed and
parsed; runs form content-addressed chains with tombstones and checkpoints; an index is a map. The object store
refuses to overwrite an object with different bytes, as the source's immutable put does, and that alone makes
chains acyclic and stable.

**Catalog** (`Catalog`, `CatalogState`, `CatalogProtocol`, `CatalogFence`, `CatalogCollection`, `CollectionRace`,
`CatalogOps`). Head and root records, one publication with every fault of the object writes and of the exchange, any
number of clients interleaving step by step, and collections that delete index objects among them.

**Page store** (`Pages`, `Pagefile`, `Engine`, `Writes`, `Transactions`, `Publication`, `Sealing`, `StoreHistory`,
`StoreSteps`, `StoreOps`). `Engine` is the state of one open store: header, file, record index, undo copies, pending size
and cut. Each operation is a function on it; `Shows(e, v)` says that the open transaction reads as the byte vector
`v`, and `ShowsCommitted` says so of the last publication. Class `StoreOps.Store` performs the same operations on its
own fields, with the source's loops, and is proved equal to those functions. `StoreHistory.CreatedHolds` and
`StoreHistory.AdoptedHolds` give the states every run starts from, so the invariants below are met.

**Protocols.** `Crash` (what any crash of a durable publication can leave, and what opening it then gives),
`Handles` (many handles, the publication lock, seals that race with commits), `HeadProtection` (the two-phase sealed
head), `Conversion` and `Handoff` (in-place adoption of a native file), `Deadline` (when a seal is due).

## Where the code falls short of the simple law

Each of these is a lemma with the failing case, next to the exact condition under which the law holds.

- A partial write above a pending truncation starts from zeros even if the page was already rewritten, so a second
  partial write erases the first (`Writes.SecondPartialWriteErases`); a write is the byte-vector patch if and only if
  the bytes it does not cover on such pages are zero (`Writes.WriteIsPatch`), which whole-page writes always satisfy.
- A policy change installed while a transaction is open forgets every page the transaction wrote and leaves it open
  (`Sealing.PolicyForgetsWrite`); it keeps the working bytes if and only if each of those pages reads as the page of the base
  (`Sealing.PolicyShowsIff`). The callers that exist set the policy through a handle of their own, which has nothing open.
- A published size that is not a whole number of pages cannot be opened again (`Publication.PublishCommits`).
- A read of more than one page that reaches page 0xffffffff fails, while a read of that page alone does not
  (`StoreOps.Store.ReadAt`).
- A flushed index can be unloadable: the flush bounds one run, the load bounds the sum, the stored length and the record
  count (`IndexProofs.FlushThenLoad`, `IndexHistory.FlushedButUnloadable`).
- A confirmed publication started on an already uncertain state stops at the fence before it records the branch head or
  flushes anything, and can still report success: without an edit made since (`CatalogFence.ConfirmDropsEdit`) or without
  a head set since (`CatalogFence.ConfirmDropsHead`), both of which occur (`CatalogFence.LossesOccur`). A reported success is
  true if and only if the edits since, the branch head among them, change no entry (`CatalogFence.ConfirmTrueIff`); with no
  dirty index, if and only if the heads index already records the head (`CatalogFence.CleanConfirmTrueIff`).
- A catalog opened under no branch name and published without an edit removes `main`; opened under a name it says the same
  again (`CatalogFence.EditFreePublishKeeps`).
- A collection publishes first and deletes afterwards what its own root does not need. A publisher that in between writes
  one of those objects again, and has its root applied, leaves a visible root that cannot be opened
  (`CatalogCollection.ReuseLosesRun`, and `CollectionRace.RaceLosesRun` from an empty namespace). That is the only way
  (`CatalogCollection.HeldIffSafe`, `CatalogCollection.CollectionKeepsRoot`), and clients that share the catalog lock cannot
  do it (`CatalogCollection.ExclusionIsSafe`).
- A call that ends a checkpoint or maintenance, or captures a snapshot, with a transaction pending lets its lock go, and
  any second handle can then have its commit overwritten (`Handles.DroppedLockLosesCommit`); commits are safe if and only
  if no call does that (`Handles.InvIffKeepsLock`, `Handles.NoLostCommit`). `set_storage_policy` is such a call when
  something is pending: it captures first and finds out afterwards (src/store.rs:2313-2320, 2153-2155).
- After a seal whose last catalog write failed, three things the same handle can do without a reload are unsafe: a
  compaction, repack or dictionary update, which overwrites the pending head that protects the file
  (`HeadProtection.UnprotectedAfterCompaction`); a commit under a maintenance lock, whose seal then does the same
  (`HeadProtection.UnprotectedAfterMaintenanceCommit`); and a policy change under a maintenance lock, after which the next
  writer strands the file (`HeadProtection.UnsafePolicyStrands`). The last two need a caller that enters maintenance first
  and keeps the handle, which none does today. After an attachment whose last catalog write failed, a seal of the commits
  it carried over is unsafe too (`HeadProtection.UnprotectedAfterAttachment`); there the conversion root still retains the
  manifest. Every other step is safe: `HeadProtection.InvIffSafe` is the exact condition.
- A repeated adoption lets SQLite checkpoint the native file and moves it before it compares it with the descriptor, so
  one native write after an interruption leaves the file refused at `.source` for good (`Handoff.NativeWriteStrands`); a
  file that is no database any more is refused in place (`Handoff.RefusedFileStays`). Committing into the empty store
  breaks the handoff too, and sealing that commit removes the native image (`Handoff.ForeignCommitLosesImage`). It finishes
  if and only if none of this has happened (`Handoff.ResumeFinishesIff`).
- A clock that reads zero at the first commit lets the deadline pass its bound (`Deadline.ZeroClockPassesBound`). The
  recorded start is the first commit's reading, and the bound holds under every schedule, if and only if that reading was
  not zero or every later one is zero too (`Deadline.RecordedStartIff`, `Deadline.DeadlineBoundIff`).

## Model

| member | source | states |
|---|---|---|
| Bytes.FromToLE | src/format.rs:399-407 | reading back a little-endian integer of any width gives the integer |
| Bytes.ToFromLE | src/format.rs:408-416 | writing back what was read gives the same bytes |
| Layout.LayoutRoundTrip | src/layout.rs:69-118 | decoding undoes encoding for every valid layout policy |
| Layout.LayoutCanonical | src/layout.rs:95-118 | re-encoding any accepted 128 bytes returns them unchanged, and what was accepted is valid |
| Format.FrameRoundTrip | src/format.rs:235-281 | decoding undoes encoding for every frame header with a nonzero page number and fitting lengths |
| Format.FrameCanonical | src/format.rs:254-281 | re-encoding any accepted frame header returns it unchanged |
| Format.StateRoundTrip | src/format.rs:90-153 | decoding undoes encoding for every valid state |
| Format.StateRejected | src/format.rs:113-152 | a state that breaks the alignment, boundary or sequence rule is never accepted back |
| Format.StateCanonical | src/format.rs:113-152 | re-encoding any accepted state sector returns it unchanged |
| Format.HeaderRoundTrip | src/format.rs:155-224 | decoding undoes encoding for every valid header |
| Format.HeaderCanonical | src/format.rs:176-224 | re-encoding any accepted header changes only the eight retired timer bytes and the checksum |
| Encoders.EncodeLayout | src/layout.rs:69-93 | filling the array field by field produces exactly the specified 128 bytes |
| Encoders.EncodeState | src/format.rs:92-111 | filling the sector in place produces exactly the specified state sector |
| Encoders.EncodeHeader | src/format.rs:157-174 | filling the sector in place produces exactly the specified header sector |
| Encoders.PutSectorChecksum | src/format.rs:369-373 | only the last four bytes change, to the checksum of the rest |
| IndexRun.ParsePrintRun | src/storage/catalog.rs:97-124 | parsing a printed run gives the same parent and records if and only if the count guard admits it, and otherwise fails |
| IndexRun.PrintParseRun | src/storage/catalog.rs:97-124 | whatever the parser accepts is exactly the printing of the run it returns, nothing trailing |
| IndexRun.PrintRunInjective | src/storage/catalog.rs:156-184 | two runs with the same printing are the same run |
| IndexRun.LongKeysPassGuard | src/storage/catalog.rs:97-104 | removed keys of at least four bytes always pass the count guard |
| IndexRun.TableOfListing | src/storage/catalog.rs:156-184 | the strictly ordered listing of a table contains exactly the table |
| Index.OpenEnvelopeOfEnvelope | src/storage/wire.rs:149-181 | opening an envelope returns what was enclosed |
| Index.ChainDistinct | src/storage/catalog.rs:78-97 | no object occurs twice in a stored chain |
| Index.ChainUnique | src/storage/catalog.rs:78-131 | a head names one chain |
| IndexProofs.LoadOfChain | src/storage/catalog.rs:78-131 | loading a head succeeds if and only if its chain is within every limit, and returns the newest value of each key, the depth and exactly the objects of the chain |
| IndexProofs.LoadsIff | src/storage/catalog.rs:78-131 | a head loads if and only if it heads a chain of objects stored under their own hashes and printed as the writer prints them, within every limit |
| IndexProofs.LoadSurvivesCollection | src/storage/catalog.rs:426-437 | deleting every object outside a loaded chain leaves loading unchanged |
| IndexProofs.InsertAgrees | src/storage/catalog.rs:132-137 | inserting keeps chain plus dirty set equal to the map with the key set |
| IndexProofs.RemoveAgrees | src/storage/catalog.rs:138-142 | removing keeps chain plus dirty set equal to the map without the key |
| IndexProofs.FlushAgrees | src/storage/catalog.rs:143-197 | a flush never changes the map or deletes objects, a failed one changes nothing, a successful one leaves no dirty keys, and depth never passes sixteen |
| IndexProofs.FlushOkIff | src/storage/catalog.rs:143-197 | a flush succeeds if and only if there is nothing to do, or the run is printable, does not conflict and its write is acknowledged; a retry after a failed write ends exactly where the first attempt would have |
| IndexProofs.FlushThenLoad | src/storage/catalog.rs:78-197 | after a successful flush, loading the new head gives back this very index if the chain is within the limits, and fails otherwise |
| IndexHistory.IndexIsAMap | src/storage/catalog.rs:78-197 | over every run of loads, inserts, removes, flushes with faults and collections the index is a plain map, at most sixteen runs deep, whose last saved contents load back if and only if the limits are met |
| IndexHistory.ShortTombstonesGuard | src/storage/catalog.rs:100-102 | thirteen or more one-byte tombstones under a parent fail the count guard |
| IndexHistory.FlushedButUnloadable | src/storage/catalog.rs:97-104 | from an empty index, thirteen one-byte keys inserted, flushed, removed and flushed again: both flushes succeed and the head cannot be loaded |
| IndexOps.ObjectStore.Put | src/storage/catalog.rs:56-67 | an immutable put stores the bytes, refuses a conflict, and reports faults without hiding their effect |
| IndexOps.MergeRun | src/storage/catalog.rs:97-124 | the record loop adds exactly the keys no newer run has mentioned, or fails with the parser |
| IndexOps.Serialise | src/storage/catalog.rs:156-184 | the printing loop gives the printing of the run, or fails exactly when a length is out of range |
| IndexOps.LiveIndex.Insert | src/storage/catalog.rs:132-137 | in place, the specified insertion |
| IndexOps.LiveIndex.Remove | src/storage/catalog.rs:138-142 | in place, the specified removal |
| IndexOps.LiveIndex.Flush | src/storage/catalog.rs:143-197 | in place and on the store, the specified flush for every fault |
| IndexOps.LoadIndex | src/storage/catalog.rs:78-131 | the chain walk returns the specified index or the specified error |
| Catalog.HeadRoundTrip | src/storage/catalog.rs:215-260 | decoding undoes encoding for every valid head of the namespace |
| Catalog.HeadSound | src/storage/catalog.rs:230-260 | whatever the decoder accepts is a head of this namespace, field by field, with nothing after it |
| Catalog.RootRoundTrip | src/storage/catalog.rs:406-425 | parsing undoes encoding for every root |
| Catalog.RootCanonical | src/storage/catalog.rs:285-304 | whatever the parser accepts is exactly the encoding of the root it returns, checksum included |
| CatalogState.LoadedIsSound | src/storage/catalog.rs:278-330 | whatever opens, from any bytes: an encoded root, each index loaded from the id it names, every stored head valid and of this database, and the selected one the state's own |
| CatalogFence.UncertainIsFenced | src/storage/catalog.rs:341-346 | in every reachable state an uncertain client is outside any publication |
| CatalogFence.FenceHoldsOverRuns | src/storage/catalog.rs:341-389 | after a stale, failed or uncertain exchange no run of any clients makes another root of that client visible until it is opened again or a confirmation succeeds |
| CatalogState.FlushAllKeeps | src/storage/catalog.rs:362-366 | flushing the indexes changes no entry and nothing else of the state |
| CatalogState.FenceRises | src/storage/catalog.rs:341-389 | a publication succeeds if and only if every object was written, the root had not moved and the exchange said so, and then the visible root is the state's own; the fence rises if and only if the exchange was reached and did not report success; before it the root is untouched and no entry is lost |
| CatalogState.OtherHeadsUnchanged | src/storage/catalog.rs:347-361 | recording this branch's head leaves every other named head alone |
| CatalogState.ConfirmedIsVisible | src/storage/catalog.rs:390-405 | a confirmation started on a certain state succeeds only when the visible root names this state's own flushed indexes |
| CatalogState.RetryPublishesSame | src/storage/catalog.rs:341-389 | after a failed object write the root is untouched and the fence down, and a retry succeeds exactly when its own writes do and the root has not moved, publishing the same entries with nothing left dirty |
| CatalogFence.ConfirmStepIsCall | src/storage/catalog.rs:390-405 | the protocol's confirming step is the whole call on an uncertain state: nothing written, no head recorded, success if and only if the visible root encodes the heads already flushed |
| CatalogFence.ConfirmTrueIff | src/storage/catalog.rs:347-405 | in every reachable state a confirmation that reports success means the visible root says what the client would publish, branch head included, if and only if the edits since its last flush and that head change no entry |
| CatalogFence.CleanConfirmTrueIff | src/storage/catalog.rs:347-405 | with no dirty index, if and only if the heads index already records the branch head |
| CatalogFence.ConfirmDropsEdit | src/storage/catalog.rs:390-405 | one insert of an absent key on an uncertain client, then a confirmation that succeeds while the visible root lacks the key |
| CatalogFence.ConfirmDropsHead | src/storage/catalog.rs:347-405 | a branch head set on an uncertain client, then a confirmation that succeeds with no dirty index and no edit while the visible root lacks the head |
| CatalogFence.UncertainOccurs | src/storage/catalog.rs:367-388 | a run from an empty namespace reaches an uncertain client whose root is visible |
| CatalogFence.LossesOccur | src/storage/catalog.rs:390-405 | from there both losses are reached |
| CatalogFence.EditFreePublishKeeps | src/storage/catalog.rs:309-366 | opening any root ever visible and publishing without an edit says the same again, named heads included, if and only if a branch was selected or there is no main branch |
| CatalogFence.ForkIsPublished | src/storage/handle.rs:125-152 | a fork adds exactly its own branch, with the given head, to what the client would publish |
| CatalogProtocol.NextInv | src/storage/catalog.rs:278-405 | every step of every client keeps the linear history, the stored chains and each client's account of its edits |
| CatalogProtocol.LinearHistory | src/storage/catalog.rs:278-425 | over any interleaving, each visible root is its predecessor plus its publisher's own edits, revisions are distinct, and opening any of them under any name returns what was published and the head stored under that name, if and only if its chains are loadable |
| CatalogProtocol.OnePublisherPerRevision | src/storage/catalog.rs:367-388 | of two publishers from one revision at most one is applied, and the other is fenced |
| CatalogProtocol.OpenEntry | src/storage/catalog.rs:278-330 | opening a published root finds every run it names, says what its publisher said, and has the very head stored under the selected name, or none if there is none |
| CatalogProtocol.SameRootSaysSame | src/storage/catalog.rs:390-405 | equal roots stand for equal contents |
| CatalogProtocol.OtherHeadsInHistory | src/storage/catalog.rs:347-366 | in every run each visible root differs from its predecessor in the named heads only where its publisher's own edits name them |
| CatalogCollection.HeldIffSafe | src/storage/retention.rs:438-662 | with collections among the publishers, a step keeps the visible root's runs, and all that current publishers build on, present and out of every pending deletion if and only if it is not a current publisher writing an object still to be deleted |
| CatalogCollection.CollectionKeepsRoot | src/storage/retention.rs:645-662 | in every interleaving without that the visible root always opens as published, within the loader's limits |
| CatalogCollection.ExclusionIsSafe | src/storage/objects.rs:59-70 | clients that exclude each other while a collection deletes never do that |
| CatalogCollection.ReuseLosesRun | src/storage/retention.rs:645-662 | a publisher that did, and whose root is applied, leaves a visible root that cannot be opened once the object is deleted |
| CollectionRace.RaceLosesRun | src/storage/retention.rs:438-662 | a run from an empty namespace ends so |
| CatalogOps.RootCell.CompareExchange | src/storage/catalog.rs:367-388 | the conditional root, for every outcome of the exchange |
| CatalogOps.LiveCatalog.RecordHead | src/storage/catalog.rs:347-361 | in place, exactly this branch's head entry is set or removed |
| CatalogOps.LiveCatalog.FlushIndexes | src/storage/catalog.rs:362-366 | the five indexes are flushed in order up to the first failure |
| CatalogOps.LiveCatalog.SwapRoot | src/storage/catalog.rs:367-388 | the exchange and the fence, as specified |
| CatalogOps.LiveCatalog.Publish | src/storage/catalog.rs:341-389 | in place, the specified publication for every fault |
| CatalogOps.LiveCatalog.Reread | src/storage/catalog.rs:390-405 | in place, the specified confirmation |
| CatalogOps.OpenCatalog | src/storage/catalog.rs:278-330 | opening returns the specified state, selected branch head included, or the specified error |
| Pagefile.OffsetsOrdered | src/store.rs:2872-2906 | comparing record ordinals is comparing byte offsets |
| Pagefile.ScanStates | src/store.rs:2844-2870 | the scan of both sectors picks the newest state, and fails closed on damage, a foreign sector or a missing one |
| Pagefile.ScanRecords | src/store.rs:2872-2906 | the record scan returns the specified index or fails |
| Pagefile.LoadRecordsIndexes | src/store.rs:2872-2906 | contiguous, duplicate-free records load as exactly their index |
| Pagefile.LoadedIndexes | src/store.rs:2872-2906 | whatever loads is an exact two-way index of the first records |
| Engine.ParsePageSizeIff | src/store.rs:2939-2950 | a page names a page size if and only if it starts with the magic and carries exactly the two big-endian bytes of that size, 0x0001 for 65536 |
| Engine.WritePageWf | src/store.rs:1326-1361 | a page write keeps the record index exact, every undo copy, and every record above a pending cut marked as rewritten |
| Engine.WritePageReads | src/store.rs:1326-1361 | it changes what that page reads as and no other |
| Engine.WritePageCommitted | src/store.rs:1341-1352 | it never changes the committed bytes of any page |
| Writes.WriteChunksReads | src/store.rs:1363-1390 | every byte of every page after a write of any range: the data, zero on touched pages above a cut, otherwise unchanged |
| Writes.WriteIsPatch | src/store.rs:1203-1219 | a write is the byte-vector patch if and only if it is safe, and never disturbs what is committed |
| Writes.WholePagesSafe | src/store.rs:1371-1384 | writes of whole pages are always safe |
| Writes.BelowCutSafe | src/store.rs:1375-1384 | writes below a pending cut, or without one, are always safe |
| Writes.SecondPartialWriteErases | src/store.rs:1375-1384 | of two partial writes to one page above a cut, the second erases the first |
| Transactions.TruncateIsResize | src/store.rs:1420-1455 | an accepted truncate is the cut or zero-extended vector, also after regrowing, and nothing committed changes |
| Transactions.TruncateToNothing | src/store.rs:1334-1340 | truncating to nothing is refused if and only if page 1 has an active record |
| Publication.ReadsCurrentState | src/store.rs:2844-2870 | of the two sectors the current one is read |
| Publication.StateReadSound | src/store.rs:2844-2870 | the state that is read is written in one of the two sectors, of this database, and the other sector holds nothing newer; with one sector empty it is the first |
| Publication.OpenedIsSound | src/store.rs:1925-2021 | whatever opens, from any bytes: that state, over exactly the view or native file the header asks for, with the exact index of its records and nothing pending |
| Publication.ReopenRebuilds | src/store.rs:1925-2021 | opening what the engine wrote passes every check and rebuilds exactly the same engine |
| Publication.PublishCommits | src/store.rs:1508-1616 | publishing makes committed equal working, and the file opens again as that engine if and only if the size is whole pages |
| Publication.UnalignedUnreadable | src/format.rs:131-137 | an unaligned published size is refused on opening |
| Publication.DiscardRestores | src/store.rs:1392-1418 | discarding brings back the committed vector in memory and in the file, and the file opens again |
| Publication.DiscardUndoes | src/store.rs:1341-1418 | discarding undoes any page write completely |
| Publication.DiscardClean | src/store.rs:1392-1418 | with nothing pending, discarding changes nothing |
| Sealing.CreateActiveOk | src/store.rs:1684-1776 | a new active file over a base that ends where the head is opens again and has nothing pending |
| Sealing.SealedPageReads | src/store.rs:2078-2138 | every page of the new view is the page of the store it was sealed from |
| Sealing.SealPreserves | src/store.rs:2078-2186 | sealing leaves every logical byte unchanged, zero overrides and truncate-then-regrow included; the header on disk names the seal, the same database and the same policies, and nothing is left to seal |
| Sealing.PolicyPreserves | src/store.rs:2313-2330 | without an open transaction a policy change keeps every byte, and the header read back from disk has the new policies and the same database, attachment, parent and page size |
| Sealing.PolicyShowsIff | src/store.rs:1632-1640 | over an open transaction it keeps the working bytes if and only if every page the transaction wrote reads as the page of the base |
| Sealing.PolicyForgetsWrite | src/store.rs:1632-1640 | a page written before it reads as it did before the write, and the transaction is still open |
| Sealing.AttachPreserves | src/store.rs:640-701 | swapping the native file for its sealed copy keeps every byte, the records, the boundary, the policies and the identity; the header names the copy, and the new file opens again |
| StoreHistory.CreatedHolds | src/store.rs:1618-1640 | a new database shows two empty vectors |
| StoreHistory.AdoptedHolds | src/store.rs:448-510 | an adopted database shows the native image as both vectors |
| StoreHistory.StepFollows | src/store.rs:3701-3814 | each operation keeps store and vectors in correspondence |
| StoreHistory.RollbackFollows | src/store.rs:2807-2822 | closing and reopening always succeeds and is no different from discarding |
| StoreHistory.AcceptedIff | src/store.rs:1203-1616 | exactly which operations are accepted, in terms of the vectors: a write unless the patched page 1 would not name the page size, a resize to whole pages that keeps a recorded page 1, a publication while its counters last |
| StoreHistory.BaseChangeFacts | src/store.rs:2078-2328 | an accepted seal, policy change or attachment leaves nothing open and nothing to seal, over the seal or copy it was given, in the same database |
| StoreHistory.StoreIsTwoVectors | src/store.rs:3701-3814 | after any legal run of writes, resizes, publications, discards, reopenings, seals, policy changes and base swaps every page reads as the page of the working vector, zero beyond its end, and the header on disk names the same database under the last accepted policies |
| StoreHistory.WholePageRunsAreLegal | src/store.rs:1326-1455 | every run of whole-page writes is legal, whatever else it contains |
| StoreSteps.SliceOfShown | src/store.rs:1102-1142 | a slice read from the store is the slice of the vector it shows |
| StoreSteps.CopyPages | src/store.rs:1192-1199 | copying a batch of pages extends what has been read to the end of the batch or of the range |
| StoreSteps.PagesAbove | src/store.rs:1436-1441 | exactly the recorded pages beyond a limit, in ascending order |
| StoreOps.Store.ReadMutablePage | src/store.rs:1285-1305 | the header check made on every record read never fails |
| StoreOps.Store.ReadLocalPage | src/store.rs:1792-1828 | a page held locally, or nothing exactly when only the sealed view has it |
| StoreOps.Store.FetchPage | src/store.rs:1830-1856 | the page the specification reads |
| StoreOps.Store.ReadByPage | src/store.rs:1122-1141 | the page loop fills the slice and leaves the rest zero |
| StoreOps.Store.ReadBatched | src/store.rs:1145-1201 | the batched loop terminates and fills the same slice, and fails if and only if the range reaches the reserved page |
| StoreOps.Store.ReadAt | src/store.rs:1102-1142 | fills the buffer or stops at the end of the database, with the bytes of the vector the store shows and zeros after them; fails if and only if more than one page is asked for up to the reserved one |
| StoreOps.Store.WriteMutablePage | src/store.rs:1326-1361 | in place, the specified page write, or nothing when the page is refused |
| StoreOps.Store.WriteMutablePages | src/store.rs:1363-1390 | in place, everything that fits is written, or nothing when the first page is refused |
| StoreOps.Store.WriteAt | src/store.rs:1203-1219 | in place, the specified write or no change |
| StoreOps.Store.Truncate | src/store.rs:1420-1455 | in place, the specified truncate with the pages zeroed in ascending order, or no change |
| StoreOps.Store.DiscardPending | src/store.rs:1392-1418 | in place, the specified discard, whatever the order of the undo copies |
| StoreOps.Store.Publish | src/store.rs:1508-1616 | in place, the specified publication |
| StoreOps.Store.LoadLocal | src/store.rs:1925-2021 | the fields the specification rebuilds, or its error and no change |
| StoreOps.Store.CollectSealed | src/store.rs:2078-2138 | the records collected one by one over the surviving parent are the specified view |
| StoreOps.Store.SealActive | src/store.rs:2068-2186 | in place, the specified seal, nothing when there is nothing to seal, and the errors |
| Crash.CrashRecovers | src/store.rs:2836-2906 | whatever a crash leaves of the file, opening it fails only while a state sector is in flight, and otherwise gives one endpoint with its exact index and its bytes on every page not written since |
| Crash.NextInv | src/store.rs:1538-1585 | every page write, resize, discard, sync and state write keeps disk, memory and both endpoints in step |
| Crash.CrashSafe | src/store.rs:1538-1585 | the same at any point of any sequence of writes, resizes, discards and durable publications |
| Crash.NewEndpointComplete | src/store.rs:1538-1585 | a published endpoint reads as the transaction did on every page |
| Crash.DurableCommit | src/store.rs:1538-1585 | once a publication is durable, whatever a crash leaves opens as that transaction, on every page and at its size |
| Crash.DurableTransaction | src/store.rs:1326-1585 | any pages written, the size set and a durable publication: no crash brings up anything but the last bytes written to each page over what was there |
| Crash.AbandonForgets | src/store.rs:1392-1418 | a discard takes the store back to its newest endpoint |
| Crash.SyncedCleanRecovers | src/store.rs:1538-1585 | with nothing open, after one sync every crash opens the store as it is, whatever was written and discarded before |
| Crash.BarrierMatters | src/store.rs:1538-1541 | without the sync before the state sector a crash can bring up the new endpoint with old bytes of a page it overwrote |
| Handles.FinishInv | src/store.rs:2140-2186 | finishing a seal never changes what the file holds, whatever happened since the snapshot |
| Handles.FinishOkIff | src/store.rs:2140-2186 | finishing a seal succeeds if and only if the lock is free, header and head on disk are the captured ones with room for a successor, and nothing fails; it puts a new file over the seal in place in exactly these cases and when it fails only afterwards, and ends in the right phase |
| Handles.PrepareCaptures | src/store.rs:2078-2138 | capturing takes header, head and image as they are on disk and lets the lock go, if and only if the lock is free |
| Handles.SealRaceIff | src/store.rs:2078-2186 | a seal captured, then anything by any other handles, then finished: it succeeds if and only if by then nobody holds the lock and the file is still the captured one |
| Handles.PublishLands | src/store.rs:1508-1616 | a publication of an open transaction always lands on top of what was there, with its size, number, times and phase |
| Handles.PublishNothing | src/store.rs:1508-1525 | with nothing open a publication changes no file; a durable one gets the lock first, and the lock is kept only on request or by a checkpoint or maintenance |
| Handles.WriteAndSeal | src/store.rs:1074-2186 | an idle handle whose turn it is writes, commits and seals, and everything it wrote is sealed |
| Handles.InvIffKeepsLock | src/store.rs:1058-1096 | a call keeps one owner, fresh locked handles, detectable staleness and honest snapshots if and only if it does not let go of a pending transaction's lock |
| Handles.NoLostCommit | src/store.rs:1058-1096 | in every interleaving of any number of handles in which every call keeps that, each publication was built on the one before it, none is lost, and at most one handle owns publication |
| Handles.DismissKeepsLock | src/store.rs:2741-2747 | ending maintenance keeps a pending transaction locked if and only if there is none or the lock is a checkpoint's |
| Handles.DroppedLockLosesCommit | src/store.rs:1074-1096 | after any call that lets go of such a lock, a write and publication by any second handle and then one by the first break the chain of publications |
| Handles.UnlockedPendingLosesCommit | src/store.rs:2715-2747 | a handle that writes, enters maintenance and leaves it is such a case |
| Handles.ReservationSurvives | src/store.rs:1486-1505 | a checkpoint reservation ends only with finish-checkpoint, discard or close of its own handle |
| Handles.LockGranted | src/store.rs:1074-1096 | when begin-write, begin-checkpoint and maintenance get the lock; then alone, over the file as it is and in the phase asked for; a refused call changes nothing |
| Handles.RefreshCatchesUp | src/store.rs:1058-1073 | a refresh always ends on the file as it is |
| Handles.AfterEnding | src/store.rs:1499-1505 | who still owns publication after a discard, close, end of checkpoint or end of maintenance, and what is left of an open transaction |
| Handles.FlushKeepsPhase | src/store.rs:2023-2041 | a successful flush returns in maintenance if entered in maintenance and unlocked if entered unlocked, whatever others do meanwhile |
| Handles.FlushSeals | src/store.rs:2023-2041 | a flush nobody disturbs succeeds: it publishes the open transaction, leaves nothing to seal and returns in the phase it was entered in |
| Handles.FlushRefused | src/store.rs:2028-2032 | a flush that cannot have the lock, or whose open transaction cannot be numbered, fails before it changes anything |
| HeadProtection.PrepareKeeps | src/storage/objects.rs:321-328 | preparing keeps the file's manifest protected if and only if the sealed head already protects it or the new head names it |
| HeadProtection.RecoverKeeps | src/storage/objects.rs:345-365 | recovering keeps it protected if and only if it finishes, there is a sealed head, nothing is pending, or there is no base |
| HeadProtection.InstalledInv | src/store.rs:1662-1682 | a database whose sealed head is the base of its file is where runs start |
| HeadProtection.InvIffSafe | src/store.rs:1662-1776 | with the handles, their lock and their reloads: a step keeps the manifest on disk sealed or one finish away from it if and only if it is not a compaction, repack, dictionary update or policy change over an unfinished file, nor a seal of commits carried into or made in one |
| HeadProtection.ProtectedIffSafe | src/store.rs:1662-1776 | for every step but a policy change, unsafe means that the manifest on disk is in neither catalog head at once |
| HeadProtection.UnsafePolicyStrands | src/store.rs:2313-2328 | after an unsafe policy change the next writer strands it, by its recovery or by its seal |
| HeadProtection.ReloadMakesSafe | src/store.rs:1074-1096 | before every seal of commits made after a reload, every commit and policy change by a writer or by a handle that did not leave the file unfinished, and every attachment, the sealed head is in force |
| HeadProtection.OthersAreSafe | src/store.rs:2715-2739 | a handle that did not itself leave the file unfinished finds the sealed head in force |
| HeadProtection.SealsNeverStrand | src/store.rs:2068-2186 | seals, commits and policy changes that come through a reload, faults and crashes in any order never leave the manifest unprotected |
| HeadProtection.UnprotectedAfterCompaction | src/store.rs:2188-2218 | a compaction by the handle whose seal was not finished leaves the manifest on disk unprotected |
| HeadProtection.UnprotectedAfterMaintenanceCommit | src/store.rs:1078-1096 | so does a commit by that handle under a maintenance lock, once it is sealed |
| HeadProtection.UnprotectedAfterAttachment | src/store.rs:640-701 | and a seal after an unfinished attachment that carried commits |
| HeadProtection.RecoverySettles | src/storage/objects.rs:345-365 | a successful recovery or finish puts the sealed head in force |
| HeadProtection.FinishSettles | src/storage/objects.rs:329-344 | a clean finish step puts the head of the file on disk in force, leaves nothing pending and keeps the lock |
| HeadProtection.FinishFails | src/store.rs:1662-1682 | a finish that is not confirmed lets the lock go and leaves the file marked as unfinished by its handle |
| HeadProtection.LockExcludes | src/store.rs:1074-1096 | a step that needs the lock does nothing for anybody else, and while it is held nobody gets it |
| HeadProtection.TakesLock | src/store.rs:2715-2739 | a writer gets the free lock if and only if its reload works, maintenance also without one; a reload leaves the file loaded and its sealed head in force |
| HeadProtection.PrepareOutcome | src/storage/objects.rs:321-328 | preparing writes the proposed header down as pending, and lets the lock go if that is not confirmed |
| HeadProtection.RenameOutcome | src/store.rs:1684-1776 | the rename puts the prepared header on disk for everybody, adopted or not |
| HeadProtection.PolicyOutcome | src/store.rs:2313-2328 | a policy change puts its header on disk without the catalog, and only its own handle has seen it |
| HeadProtection.SealSucceeds | src/store.rs:1643-1682 | a seal without faults ends with the new file's head in force, nothing pending, nothing to seal and the lock free |
| HeadProtection.FirstSeal | src/store.rs:1643-1682 | such a seal is reached from the installed database by installing, opening, committing and letting go |
| HeadProtection.CrashReleases | src/store.rs:1078-1096 | a crashed handle owns and has loaded nothing, and the file and the catalog are as it left them |
| HeadProtection.NeverStranded | src/store.rs:1643-1742 | at every step, fault and crash point of any number of handles whose steps are safe in that sense the manifest on disk is the sealed or the pending head, and no collection that keeps those two removes it |
| Conversion.PrefixOfSource | src/store.rs:398-429 | in every interleaving the published prefix is page-aligned and exactly the first bytes of the source, and what is attached is the source |
| Conversion.UnconvertedInv | src/store.rs:448-510 | an adopted file with no progress yet meets the invariant |
| Conversion.CaptureIff | src/store.rs:512-591 | a handle with nothing open captures a chunk if and only if nobody is at work and there is no pause, from the prefix to the next boundary |
| Conversion.PublishIff | src/store.rs:398-429 | it becomes the prefix if and only if there is no pause and the prefix has not moved, and otherwise is dropped |
| Conversion.AttachIff | src/store.rs:593-638 | the source is attached if and only if the view is the whole of it, still the prefix, with no pause and no open transaction |
| Conversion.PauseHolds | src/conversion.rs:285-305 | between a completed pause and the next resume nothing moves and nothing is attached |
| Conversion.PauseTakesEffect | src/conversion.rs:285-305 | from the pause on, whatever anybody does before a resume, the prefix, the count and what is attached stay as they were |
| Conversion.ResumeGoesOn | src/conversion.rs:285-305 | after a pause, anything without a resume, a resume and the loss of the worker, exactly the rounds that were missing attach the source |
| Conversion.CompleteAfter | src/store.rs:512-591 | the prefix is complete exactly from the ceil(source bytes / 8 MiB)-th publication on |
| Conversion.ConvertsAll | src/store.rs:2023-2028 | undisturbed rounds of capture, publish and finish attach the whole source after exactly ceil(source bytes / 8 MiB) of them, and nothing before |
| Conversion.GoesOn | src/store.rs:512-591 | wherever an unfinished conversion stopped, exactly the remaining rounds attach the source, one more if the prefix was complete |
| Conversion.AttachedStays | src/store.rs:640-701 | once attached it stays attached, and settling leaves no progress behind |
| Handoff.ImageKeepsOneName | src/conversion.rs:193-211 | in every run, native writes and foreign commits included, exactly one path holds the native image until a sealed copy of it is attached, unless a foreign commit was sealed |
| Handoff.HandoffConverges | src/conversion.rs:193-211 | without native writes and foreign commits, wherever earlier attempts stopped, the next one ends in the one state with the untouched image at `.source` under the store |
| Handoff.ResumeFinishesIff | src/store.rs:448-464 | a repeated adoption finishes if and only if nobody has committed into the store and the native file passes SQLite's checkpoint and still has the length, digest and page size of the descriptor |
| Handoff.NativeWriteStrands | src/conversion.rs:199-208 | one native write between interruption and retry that leaves a database which no longer matches: the file is moved, refused, and refused by every later attempt |
| Handoff.RefusedFileStays | src/conversion.rs:199-208 | a file the native checkpoint refuses is left in place, and putting the image back lets the next attempt finish |
| Handoff.ForeignCommitLosesImage | src/store.rs:1904-1920 | a foreign commit that is sealed before the handoff is finished removes the only copy of the native image, and no later attempt finishes |
| Handoff.AttachCompletes | src/store.rs:640-701 | adoption, attachment and removal in order end with the copy in the store and no native file, for good |
| Deadline.DeadlineBound | src/store.rs:2436-2454 | over every run of commits, reopenings and seals whose clock runs at the first commit after each seal the deadline is now or at most that commit plus the maximum age |
| Deadline.DeadlineExact | src/store.rs:2436-2454 | over every such run the deadline is now for a native file or past the rollover, none without unsealed commits or without a schedule, and otherwise the earlier of last commit plus settling time and first commit plus maximum age |
| Deadline.SpanPersists | src/store.rs:1593-1596 | commits and reopenings never move the recorded start of the span; only a seal does |
| Deadline.RecordedStartIff | src/store.rs:1556-1559 | the recorded start of the span is the reading at its first commit if and only if that was not zero or every later one is zero |
| Deadline.DeadlineBoundIff | src/store.rs:2436-2454 | where the schedule decides, the age bound of the first unsealed commit holds under every schedule if and only if the clock met that condition |
| Deadline.ZeroClockPassesBound | src/store.rs:1556-1559 | two commits, the first at a clock reading zero: the deadline passes the bound by the whole second reading |

## Left out

- src/vfs.rs and its C callbacks: foreign calls and pointer plumbing.
- Zstandard, BLAKE3 and CRC internals, dictionary training: function parameters of the model.
- The decoded-page cache, statistics and hole punching: they do not change what is read.
- Bootstrap staging before the page size is known: every modelled store has its page size.
- Seal building, GC tracing and the wire helpers beyond the envelope: a sealed view is a page map, and building it is its
  contract.
- Records are addressed by ordinal; `Pagefile.OffsetsOrdered` ties ordinals to byte offsets. A file tail shorter than one
  record is not represented.
- Of what a collection deletes, `CatalogCollection` follows the index objects and `HeadProtection` the manifests; packs,
  dictionaries and reader leases are not modelled.
- Deleting a database, which publishes an empty catalog under no branch name and removes every object.
- The background worker, repacking and compaction as separate operations: at this level they install a view with the
  same pages, which is the sealing step.
- The file adoption copies is a byte string; permissions, symbolic links and the notice database are not modelled.
- I/O errors other than those at the modelled crash and fault points, and clocks beyond being nonzero.
- Writes.WriteIsPatch: stated for writes that end below the reserved page; `StoreOps.Store.WriteAt` says what longer ones do.
- IndexHistory.FlushedButUnloadable: takes the hash to tell its two objects apart; if it did not, the second flush would be refused.
- Handles.UnlockedPendingLosesCommit: what the file holds afterwards is not followed; the second handle also cuts off the
  records the first had appended, so the result is a mix of both.
- CatalogCollection.CollectionKeepsRoot: takes an id to stand for the same bytes when it is put again after a deletion, which
  rests on the hash.
- Handoff.ResumeFinishesIff: SQLite's checkpoint is a function of the file that a second call does not change; locks held by
  native clients are not modelled.
- Handoff.NativeWriteStrands: a native client that creates a new file at the logical path after the move is not modelled.
- HeadProtection.InvIffSafe: retention roots and the collector's own look at the active header, which also keep a
  manifest, are not part of the protection it speaks of.
- Crash.CrashSafe: a torn state sector is taken to hold its old bytes, its new bytes, zeros, or bytes that do not decode; that
  the checksum catches tearing is not derived.
