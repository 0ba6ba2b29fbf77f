# DocRowwiseIterator read path, modelled in Dafny

This project models the read path of YugabyteDB's document store as the
`DocRowwiseIterator` tests exercise it. The store is an ordered map of
entries. Its key space holds three sections, in this order:

- transaction intents (weak and strong);
- the reverse index from a transaction to its intents;
- the regular versioned cells, sorted by document key, then sub key
  (the document itself before its columns), then hybrid time, newest first.

A read at a read time sees each column's newest version inside the read
ceiling. That column reads null when any of these holds:

- the version is a DEL;
- the version's TTL has passed;
- the version is not newer than the newest document-level version. A
  document tombstone hides every column cell at or before its time.

A strong intent is a version only when its transaction is committed as of
the read time. It then competes at its commit time, not its write time.
An intent whose transaction the status authority does not know fails the
read with TryAgain.

The iterator hands over one row per live document, in document-key order.
A document is live when some column, projected or not, has a live value.
A row holds the key columns, decoded from the document key, and the
projected value columns that have a live value.

- `HasNext` resolves the next live document lazily and keeps it pending,
  so asking twice changes nothing.
- `NextRow` hands the pending row over.
- A failed read stays failed.

The write side is a write batch and a database:

- The batch collects operations.
- The database applies a batch at one hybrid time, giving each operation
  its index in the batch as write id.
- A single transactional write stores a strong intent, a weak intent on
  the document for a column write, and reverse-index entries.

The transaction status authority is the test's mock. It maps transaction
ids to commit times and answers a status request for a read time with
TryAgain, PENDING or COMMITTED. Committing an id a second time keeps the
first commit time.

Each iterator test of `src/yb/docdb/docrowwiseiterator-test.cc` is
modelled in the same way:

- its writes are modelled as calls on the database, proved to leave the
  store its debug dump lists (for the test with transactions, section by
  section: intents, reverse index, regular cells);
- its scans are modelled as calls to the iterator's methods on that
  store, proved to return the rows the test expects.

Modules, in dependency order:

1. `Wrappers`, `HybridTimes`, `DocKeys` (key comparators), `DocStore`
   (entries, the store order, upsert).
2. `TransactionStatus` (the status authority).
3. `Visibility` (what a read sees of one document).
4. `Rows` (schemas, projections, row assembly).
5. `DocWriteBatch` (the batch and the database).
6. `RowIterator` (the iterator).
7. `Scenarios` (scans of one- and two-document stores).
8. The test modules: `TestFixtures`, `IteratorTests`, `ProjectionTests`,
   `TransactionTests`, `TestWrites`, `TransactionWrites`.

## Model

| member | source | states |
|---|---|---|
| HybridTimes.AddPhysicalMicros | src/yb/docdb/docrowwiseiterator-test.cc:447-448 | adding a physical delta never moves a hybrid time back |
| HybridTimes.ExpiryIsMonotone | src/yb/docdb/docrowwiseiterator-test.cc:445-512 | a cell whose TTL has passed at one read time has passed it at every later read time |
| DocKeys.DocKeyOrder | src/yb/docdb/docrowwiseiterator-test.cc:114-123 | the document-key comparator is antisymmetric, decides equality and is transitive |
| DocKeys.SubKeyOrder | src/yb/docdb/docrowwiseiterator-test.cc:114-123 | the sub-key comparator (document before columns, columns by id) is a total order |
| DocStore.KeyOrder | src/yb/docdb/docrowwiseiterator-test.cc:737-774 | the comparator of the whole store, across the intent, reverse-index and regular sections, is a total order |
| DocStore.Upsert | src/yb/docdb/docrowwiseiterator-test.cc:289-295 | writing an entry keeps the store sorted; afterwards it holds the new entry and exactly the old entries with other keys |
| DocStore.UpsertAt | src/yb/docdb/docrowwiseiterator-test.cc:114-123 | an entry whose key sorts between positions i-1 and i is inserted at position i, and nothing else moves |
| DocStore.UpsertReplaces | src/yb/docdb/docrowwiseiterator-test.cc:756-763 | an entry whose key is already at position i replaces exactly that entry |
| DocStore.UpsertOver | src/yb/docdb/docrowwiseiterator-test.cc:756-763 | an entry replaces the entry with its key and keeps those before and after it |
| DocStore.UpsertBetween | src/yb/docdb/docrowwiseiterator-test.cc:232-238 | a key that sorts between two runs of entries is inserted between them |
| DocStore.UpsertAppend | src/yb/docdb/docrowwiseiterator-test.cc:114-123 | a key above every key of the store goes at the end |
| DocStore.UpsertAppendTwo | src/yb/docdb/docrowwiseiterator-test.cc:289-295 | two ascending keys above every key of the store go at the end, in that order |
| DocStore.UpsertPrepend | src/yb/docdb/docrowwiseiterator-test.cc:232-238 | a key below every key of the store goes in front |
| DocStore.UpsertSame | src/yb/docdb/docrowwiseiterator-test.cc:756-763 | writing an entry the store already holds leaves the store as it is |
| DocStore.UpsertInFront | src/yb/docdb/docrowwiseiterator-test.cc:737-774 | an entry of an earlier key section than every entry of a tail goes into the head and leaves the tail alone |
| DocStore.UpsertBehind | src/yb/docdb/docrowwiseiterator-test.cc:737-774 | an entry of a later key section than every entry of a head goes into the tail and leaves the head alone |
| DocStore.SelectSorted | src/yb/docdb/docrowwiseiterator-test.cc:737-774 | a section of a sorted store is sorted |
| DocStore.SectionDocsAscend | src/yb/docdb/docrowwiseiterator-test.cc:737-774 | in the intent section and in the regular section, document keys never decrease |
| TransactionStatus.StatusAt | src/yb/docdb/docrowwiseiterator-test.cc:636-647 | TryAgain exactly for an unknown id; COMMITTED with the commit time exactly when the read time is not before it; otherwise PENDING at kMin |
| TransactionStatus.StatusIsMonotone | src/yb/docdb/docrowwiseiterator-test.cc:636-647 | a transaction seen committed stays committed with the same time at later read times; one seen pending was pending at earlier read times |
| TransactionStatus.TransactionStatusManagerMock.RequestStatusAt | src/yb/docdb/docrowwiseiterator-test.cc:636-647 | the answer is the status of the id at the read time, for the commit times the mock holds |
| TransactionStatus.TransactionStatusManagerMock.Commit | src/yb/docdb/docrowwiseiterator-test.cc:649-651 | an id not yet committed gets the commit time; an id already committed keeps its first time (emplace) |
| Visibility.CommitTimeAt | src/yb/docdb/docrowwiseiterator-test.cc:781-888 | an intent resolves to a commit time exactly when the read is transactional and the authority reports it committed as of the read time |
| Visibility.RegularVersions | src/yb/docdb/docrowwiseiterator-test.cc:151-163 | exactly the regular cells of the (document, sub key) inside the read ceiling are versions |
| Visibility.IntentVersions | src/yb/docdb/docrowwiseiterator-test.cc:781-888 | exactly the strong intents of the (document, sub key) whose transaction is committed as of the read time are versions, at their commit times |
| Visibility.Versions | src/yb/docdb/docrowwiseiterator-test.cc:151-163 | the candidates of a (document, sub key), intents first; `Visibility.VersionsAreCandidates` states what they are |
| Visibility.VersionsAreCandidates | src/yb/docdb/docrowwiseiterator-test.cc:151-163 | the candidates are every visible regular cell at its write time and every committed strong intent at its commit time, and nothing else, all inside the read ceiling; `Visibility.RegularVersions` and `Visibility.IntentVersions` give the two halves |
| Visibility.Newest | src/yb/docdb/docrowwiseiterator-test.cc:151-163 | the chosen version is one of the candidates, none is newer, and every earlier candidate is strictly older |
| Visibility.DocBoundary | src/yb/docdb/docrowwiseiterator-test.cc:229-230 | the time of the newest document-level version, or none when there is none |
| Visibility.UnknownTransaction | src/yb/docdb/docrowwiseiterator-test.cc:638-639 | some strong intent of the document names an unknown transaction exactly when one is reported, and it is that transaction |
| Visibility.ColumnsOf | src/yb/docdb/docrowwiseiterator-test.cc:561-568 | every column named by a cell or strong intent of the document is listed |
| Visibility.ColumnValue | src/yb/docdb/docrowwiseiterator-test.cc:151-163 | the value a read returns for a column, null when none; its meaning is given by `Visibility.NewestVisibleVersionWins` (a value read comes from a live newest version that outlives the document-level versions), `Visibility.StrictlyNewestDecides`, `Visibility.DocumentTombstoneHides` and `Visibility.ExpiredNewestReadsNull` |
| Visibility.DocLive | src/yb/docdb/docrowwiseiterator-test.cc:561-568 | whether a document yields a row; `Visibility.DocLiveIffSomeColumnLive` states that it does exactly when some column, projected or not, reads a value |
| Visibility.NewestVisibleVersionWins | src/yb/docdb/docrowwiseiterator-test.cc:89-112 | a value read for a column is that of a live newest version that outlives the document-level versions; a strictly newest such version is what is read |
| Visibility.DocumentTombstoneHides | src/yb/docdb/docrowwiseiterator-test.cc:229-230 | a document DEL at T makes every column whose versions are all at or before T read null |
| Visibility.DocumentTombstoneSkipsDocument | src/yb/docdb/docrowwiseiterator-test.cc:252-265 | a document whose every column version is at or before a document DEL yields no row |
| Visibility.ExpiredNewestReadsNull | src/yb/docdb/docrowwiseiterator-test.cc:490-512 | a column whose newest version's TTL has passed reads null |
| Visibility.DocLiveIffSomeColumnLive | src/yb/docdb/docrowwiseiterator-test.cc:561-568 | a document is live exactly when some column, whether its cells name it or not, reads a value |
| Visibility.RegularVersionsAppend | src/yb/docdb/docrowwiseiterator-test.cc:151-163 | the regular versions of two concatenated stores are the concatenation of their versions |
| Visibility.IntentVersionsAppend | src/yb/docdb/docrowwiseiterator-test.cc:781-888 | the intent versions of two concatenated stores are the concatenation of their versions |
| Visibility.UnresolvedIntentIsInvisible | src/yb/docdb/docrowwiseiterator-test.cc:781-819 | a weak intent, or one whose transaction is not committed as of the read time, changes no version and no column value |
| Visibility.IntentWriteTimeIsIrrelevant | src/yb/docdb/docrowwiseiterator-test.cc:824-861 | moving an intent to another write time changes no column value: it competes at its commit time |
| Visibility.NonTransactionalIgnoresIntents | src/yb/docdb/docrowwiseiterator-test.cc:131-133 | a read outside any transaction sees exactly the regular cells |
| Visibility.StrictlyNewestDecides | src/yb/docdb/docrowwiseiterator-test.cc:193-207 | a strictly newest version decides the column: its value when live and newer than the document-level versions, null otherwise |
| Visibility.BoundaryOfStrictlyNewest | src/yb/docdb/docrowwiseiterator-test.cc:229-230 | the document boundary is the time of a strictly newest document-level version |
| Rows.FindColumnFrom | src/yb/docdb/docrowwiseiterator-test.cc:405-406 | the first index from `from` on with the name, or none when no column from there on has it |
| Rows.FindColumn | src/yb/docdb/docrowwiseiterator-test.cc:405-406 | an index of a column with the name, and none exactly when no column has it |
| Rows.ProjectColumns | src/yb/docdb/docrowwiseiterator-test.cc:405-406 | succeeds exactly when every name is a column; then selects each named column and id position by position; otherwise reports a missing name |
| Rows.SelectsOneMore | src/yb/docdb/docrowwiseiterator-test.cc:405-406 | selecting the first name in front of a selection of the rest selects all the names |
| Rows.CreateProjectionByNames | src/yb/docdb/docrowwiseiterator-test.cc:603-604 | succeeds exactly when every name is a column and the key-column count fits; the projection holds the named columns in order, with that count |
| Rows.KeyValues | src/yb/docdb/docrowwiseiterator-test.cc:606-625 | key column ids are paired with the document-key components position by position |
| Rows.ColumnValues | src/yb/docdb/docrowwiseiterator-test.cc:138-148 | holds exactly the listed columns that read a value, each with that value |
| Rows.AssembleRow | src/yb/docdb/docrowwiseiterator-test.cc:585-625 | a projected column with a value holds it; an unprojected key column holds its key component; the row holds no other column |
| Rows.ReadDocument | src/yb/docdb/docrowwiseiterator-test.cc:552-582 | an error exactly for an unknown transaction; no row exactly when the document is not live; otherwise the assembled row |
| Rows.LivenessIgnoresProjection | src/yb/docdb/docrowwiseiterator-test.cc:561-568 | whether a document yields a row, no row or an error does not depend on the projection |
| Rows.UnprojectedLiveColumnKeepsRow | src/yb/docdb/docrowwiseiterator-test.cc:561-568 | a live value in any column, projected or not, makes the document yield a row |
| Rows.KeyColumnsComeFromDocKey | src/yb/docdb/docrowwiseiterator-test.cc:606-625 | each key column of a returned row holds the document-key component at its key position |
| Rows.ProjectedColumnsReadTheirValue | src/yb/docdb/docrowwiseiterator-test.cc:585-624 | a projected value column reads its column's value or null; a column neither key nor projected reads null |
| DocWriteBatch.ApplyOps | src/yb/docdb/docrowwiseiterator-test.cc:270-287 | applying a batch keeps the store sorted; it then holds every operation's cell, at its batch index as write id, and the old entries none of them replaces |
| DocWriteBatch.ApplyOneMore | src/yb/docdb/docrowwiseiterator-test.cc:270-287 | the cell of a batch's last operation replaces no cell of the earlier operations |
| DocWriteBatch.ApplyOpsStep | src/yb/docdb/docrowwiseiterator-test.cc:270-287 | applying one more operation of a batch upserts its cell at its index |
| DocWriteBatch.ApplyOneOp | src/yb/docdb/docrowwiseiterator-test.cc:339-347 | a batch of one operation upserts its cell at write id 0 |
| DocWriteBatch.ApplyTwoOps | src/yb/docdb/docrowwiseiterator-test.cc:272-277 | a batch of two operations upserts their cells at write ids 0 and 1, in order |
| DocWriteBatch.ApplyThreeOps | src/yb/docdb/docrowwiseiterator-test.cc:388-395 | a third operation's cell goes in at write id 2, after the first two |
| DocWriteBatch.ApplyFourOps | src/yb/docdb/docrowwiseiterator-test.cc:462-471 | the last two of four operations go in at write ids 2 and 3, after the first two |
| DocWriteBatch.DocWriteBatch.SetPrimitive | src/yb/docdb/docrowwiseiterator-test.cc:272-276 | appends a value write to the batch, and nothing else changes |
| DocWriteBatch.DocWriteBatch.DeleteSubDoc | src/yb/docdb/docrowwiseiterator-test.cc:279 | appends a DEL to the batch, and nothing else changes |
| DocWriteBatch.DocWriteBatch.Clear | src/yb/docdb/docrowwiseiterator-test.cc:460 | empties the batch |
| DocWriteBatch.UpsertAll | src/yb/docdb/docrowwiseiterator-test.cc:680-696 | upserting a run of entries keeps the store sorted |
| DocWriteBatch.IntentEntries | src/yb/docdb/docrowwiseiterator-test.cc:737-765 | the entries one transactional write stores; `DocWriteBatch.IntentEntriesShape` states what they are, and `TransactionWrites.ColumnWriteBySection`, `TransactionWrites.DocumentWriteBySection` and `TransactionWrites.TxnWritesGiveDump` place them in the store |
| DocWriteBatch.IntentEntriesShape | src/yb/docdb/docrowwiseiterator-test.cc:737-765 | a transactional write stores, under distinct keys and only in the intent and reverse-index sections, the strong intent of its path with its value, a weak intent without value on the document exactly when the path is a column, and for each intent a reverse-index entry of the transaction at the intent's time pointing at it |
| DocWriteBatch.UpsertAllContents | src/yb/docdb/docrowwiseiterator-test.cc:680-696 | upserting entries with distinct keys keeps all of them and exactly the old entries with other keys |
| DocWriteBatch.UpsertAllStep | src/yb/docdb/docrowwiseiterator-test.cc:680-696 | upserting one more entry of a run |
| DocWriteBatch.UpsertAllInFront | src/yb/docdb/docrowwiseiterator-test.cc:680-696 | intent and reverse-index entries go in front of the regular cells and leave them alone |
| DocWriteBatch.ApplyOpsBehind | src/yb/docdb/docrowwiseiterator-test.cc:698-723 | a regular batch leaves the intent and reverse-index entries in front of the regular cells alone |
| DocWriteBatch.DocDb.WriteToRocksDB | src/yb/docdb/docrowwiseiterator-test.cc:473 | the store becomes the batch applied at the hybrid time; the batch keeps its operations |
| DocWriteBatch.DocDb.WriteToRocksDBAndClear | src/yb/docdb/docrowwiseiterator-test.cc:277 | the store becomes the batch applied at the hybrid time, and the batch is emptied |
| DocWriteBatch.DocDb.SetPrimitive | src/yb/docdb/docrowwiseiterator-test.cc:680-696 | outside a transaction a cell at write id 0; inside one, a strong intent (and a weak document intent under a column) with reverse-index entries |
| DocWriteBatch.DocDb.DeleteSubDoc | src/yb/docdb/docrowwiseiterator-test.cc:712-714 | a single DEL of a document or column, outside or inside a transaction |
| DocWriteBatch.LaterOpOfBatchSortsFirst | src/yb/docdb/docrowwiseiterator-test.cc:594-598 | operations of one batch get their batch index as write id; of two on the same path, the later one's cell sorts first |
| RowIterator.NextFoundIsUnique | src/yb/docdb/docrowwiseiterator-test.cc:136-137 | a scan resumed at a position stops at one document at most |
| RowIterator.NextFoundIsNotEnd | src/yb/docdb/docrowwiseiterator-test.cc:136-137 | a scan that stops at a document has not run out |
| RowIterator.MinHead | src/yb/docdb/docrowwiseiterator-test.cc:131-165 | the next document is the smaller of the documents under the intent and regular cursors |
| RowIterator.SkipDocument | src/yb/docdb/docrowwiseiterator-test.cc:243-266 | the cursor moves past every entry of the document and no further |
| RowIterator.ScanFrom | src/yb/docdb/docrowwiseiterator-test.cc:243-266 | stops at the first document after the last returned one that yields a row or an error, with that read; or runs out, and then no document after it yields anything |
| RowIterator.MissingColumn | src/yb/docdb/docrowwiseiterator-test.cc:134 | the first projected id that is not a column of the schema, or none exactly when all are |
| RowIterator.StartIsConsistent | src/yb/docdb/docrowwiseiterator-test.cc:134 | Init's cursors, before the first document, satisfy the iterator invariant |
| RowIterator.ResolvedIsConsistent | src/yb/docdb/docrowwiseiterator-test.cc:136 | a resolved scan leaves the invariant with a pending row, or the end |
| RowIterator.HandOverIsConsistent | src/yb/docdb/docrowwiseiterator-test.cc:137 | handing over the pending row keeps the invariant, and that row is the read of the next live document |
| RowIterator.DocRowwiseIterator.Init | src/yb/docdb/docrowwiseiterator-test.cc:131-134 | fails exactly when the projection names a column the schema lacks; otherwise takes the store's current contents and positions before every document |
| RowIterator.DocRowwiseIterator.HasNext | src/yb/docdb/docrowwiseiterator-test.cc:367-370 | true exactly when a row or error is pending (resolving the next document with one); a repeated call changes nothing; false only at the end |
| RowIterator.DocRowwiseIterator.NextRow | src/yb/docdb/docrowwiseiterator-test.cc:136-165 | hands over the read of the next document with a row, or its error (which stays pending), or reports the end when nothing is left |
| RowIterator.DocRowwiseIterator.HandOver | src/yb/docdb/docrowwiseiterator-test.cc:137 | a pending row is handed over and becomes the last returned; a pending error stays pending |
| RowIterator.HasNextTwice | src/yb/docdb/docrowwiseiterator-test.cc:500-502 | asking twice before taking a row gives the same answer, and the iterator then holds the next live document's read pending, or has reached the end with no live document left |
| Scenarios.SortedByNeighbours | src/yb/docdb/docrowwiseiterator-test.cc:114-123 | a store whose neighbouring keys ascend is sorted |
| Scenarios.TwoDocuments | src/yb/docdb/docrowwiseiterator-test.cc:131-165 | where a scan of a two-document store stops from each position |
| Scenarios.OneDocument | src/yb/docdb/docrowwiseiterator-test.cc:358-381 | where a scan of a one-document store stops from each position |
| Scenarios.TakeStep | src/yb/docdb/docrowwiseiterator-test.cc:136-165 | one take from a two-document store hands over the next live row in key order, or the end |
| Scenarios.TakeRow | src/yb/docdb/docrowwiseiterator-test.cc:136-165 | one NextRow on a two-document store gives the next live row in key order, and counts it |
| Scenarios.OpenAndAsk | src/yb/docdb/docrowwiseiterator-test.cc:131-136 | opening the iterator and asking twice answers whether any document is live, the same both times |
| Scenarios.ScanTwoDocuments | src/yb/docdb/docrowwiseiterator-test.cc:131-165 | a scan of two documents hands over exactly the rows of the live ones, in key order, then the end |
| Scenarios.ScanOneDocument | src/yb/docdb/docrowwiseiterator-test.cc:358-382 | a scan of one document hands over its row when it is live, then the end |
| TestFixtures.ProjectionCDByName | src/yb/docdb/docrowwiseiterator-test.cc:405-406 | the projection by names c and d holds columns c and d with ids 30 and 40 |
| TestFixtures.ProjectionCDEByName | src/yb/docdb/docrowwiseiterator-test.cc:45-48 | the projection by names c, d and e that the fixture sets up holds columns c, d and e with ids 30, 40 and 50 |
| TestFixtures.ProjectionCEByName | src/yb/docdb/docrowwiseiterator-test.cc:488 | the projection by names c and e holds columns c and e with ids 30 and 50 |
| TestFixtures.ProjectionABByName | src/yb/docdb/docrowwiseiterator-test.cc:603-604 | the projection by names a and b with two key columns holds a and b, both as key columns |
| TestFixtures.ColumnsByName | src/yb/docdb/docrowwiseiterator-test.cc:57-63 | each column of the schema is found at its position |
| IteratorTests.StoreAIsSorted | src/yb/docdb/docrowwiseiterator-test.cc:114-123 | the dumped store is in store order |
| IteratorTests.ScanStoreA | src/yb/docdb/docrowwiseiterator-test.cc:130-209 | both rows at 2000, and at 5000 with row2's newer values, then the end |
| IteratorTests.ScanStoreB | src/yb/docdb/docrowwiseiterator-test.cc:243-266 | the deleted row1 is skipped; row2 is the only row |
| IteratorTests.ScanStoreC | src/yb/docdb/docrowwiseiterator-test.cc:300-335 | row1 holds only the column written after its DEL, then row2 |
| IteratorTests.ScanStoreD | src/yb/docdb/docrowwiseiterator-test.cc:358-382 | asking twice answers yes both times; the row surviving the DEL follows, then the end |
| ProjectionTests.ScanStoreE | src/yb/docdb/docrowwiseiterator-test.cc:403-439 | under the projection {c, d}, both rows with their d values, then the end |
| ProjectionTests.ScanStoreF | src/yb/docdb/docrowwiseiterator-test.cc:488-512 | row1's only later column outlived its TTL, so row1 is skipped; `HasNext` answers yes twice in a row; row2 reads c null and e inside its TTL, then the end |
| ProjectionTests.ScanStoreG | src/yb/docdb/docrowwiseiterator-test.cc:548-582 | row1 is returned with all projected columns null, because its unprojected e is live; then row2 |
| ProjectionTests.KeyColumnsOfRow | src/yb/docdb/docrowwiseiterator-test.cc:606-625 | the key columns of a returned row hold its document key's components |
| ProjectionTests.ScanStoreH | src/yb/docdb/docrowwiseiterator-test.cc:601-625 | under the key projection, the row's a and b come from its document key, then the end |
| TransactionTests.CommitBoth | src/yb/docdb/docrowwiseiterator-test.cc:725-735 | committing txn1 at 3500 and txn2 at 6000 leaves the mock with exactly those commit times |
| TransactionTests.StatusAtTheReadTimes | src/yb/docdb/docrowwiseiterator-test.cc:636-647 | both transactions pending at 2000, txn1 committed at 3500 from 5000, txn2 committed at 6000 from 6000, an unknown id answers TryAgain |
| TransactionTests.StoreTIsSorted | src/yb/docdb/docrowwiseiterator-test.cc:737-774 | the dumped store, intents then reverse index then regular cells, is in store order |
| TransactionTests.ScanAt2000 | src/yb/docdb/docrowwiseiterator-test.cc:781-819 | at 2000 no intent is visible: both rows read their regular values |
| TransactionTests.ScanAt5000 | src/yb/docdb/docrowwiseiterator-test.cc:824-861 | at 5000 txn1's intents, at commit time 3500, win over older cells but not over row2's e at 4000 |
| TransactionTests.ScanAt6000 | src/yb/docdb/docrowwiseiterator-test.cc:865-888 | at 6000 txn2's document DEL hides row1; row2 reads txn2's e |
| TestWrites.MainWritesGiveDump | src/yb/docdb/docrowwiseiterator-test.cc:77-123 | the eight single writes leave exactly the dumped store |
| TestWrites.MainWritesAreMainStore | src/yb/docdb/docrowwiseiterator-test.cc:77-112 | the eight single writes onto an empty store give the eight cells in store order |
| TestWrites.WriteMain | src/yb/docdb/docrowwiseiterator-test.cc:77-112 | the database runs the eight writes in order and ends with the store they give |
| TestWrites.DeletedDocumentWritesGiveDump | src/yb/docdb/docrowwiseiterator-test.cc:214-238 | the writes with the document DEL leave exactly the dumped store |
| TestWrites.WriteDeletedDocument | src/yb/docdb/docrowwiseiterator-test.cc:214-230 | the database runs those writes in order |
| TestWrites.RowDeletesWritesGiveDump | src/yb/docdb/docrowwiseiterator-test.cc:270-295 | the three batches leave exactly the dumped store |
| TestWrites.WriteRowDeletes | src/yb/docdb/docrowwiseiterator-test.cc:270-287 | a batch filled, applied and cleared three times ends with the store the batches give |
| TestWrites.IdempotenceWritesGiveDump | src/yb/docdb/docrowwiseiterator-test.cc:339-353 | a newer column value and then an older document DEL leave exactly the dumped store |
| TestWrites.WriteIdempotence | src/yb/docdb/docrowwiseiterator-test.cc:339-347 | the database runs those writes in order |
| TestWrites.IncompleteProjectionWritesGiveDump | src/yb/docdb/docrowwiseiterator-test.cc:386-401 | the batch of three leaves exactly the dumped store |
| TestWrites.WriteIncompleteProjection | src/yb/docdb/docrowwiseiterator-test.cc:386-395 | the batch is filled and applied |
| TestWrites.MultipleDeletesWritesGiveDump | src/yb/docdb/docrowwiseiterator-test.cc:443-486 | the batches with TTLs, the column DEL and the trailing empty batch leave exactly the dumped store |
| TestWrites.WriteMultipleDeletes | src/yb/docdb/docrowwiseiterator-test.cc:450-473 | the batch is cleared twice in a row and the empty batch is applied last |
| TestWrites.ValidColumnWritesGiveDump | src/yb/docdb/docrowwiseiterator-test.cc:517-546 | the four batches leave exactly the dumped store |
| TestWrites.WriteValidColumn | src/yb/docdb/docrowwiseiterator-test.cc:517-536 | each batch is applied and cleared |
| TestWrites.KeyProjectionWritesGiveDump | src/yb/docdb/docrowwiseiterator-test.cc:586-599 | the batch of two leaves exactly the dumped store |
| TestWrites.WriteKeyProjection | src/yb/docdb/docrowwiseiterator-test.cc:586-594 | the batch is filled and applied |
| TransactionWrites.FourBySection | src/yb/docdb/docrowwiseiterator-test.cc:680-696 | a column write's two intents go into the intent section and its two reverse-index entries into the reverse-index section, in that order |
| TransactionWrites.ColumnWriteBySection | src/yb/docdb/docrowwiseiterator-test.cc:680-696 | a transactional column write upserts its strong and weak intents among the intents and their reverse-index entries among the reverse index, keeping the two sections apart |
| TransactionWrites.DocumentWriteBySection | src/yb/docdb/docrowwiseiterator-test.cc:728-730 | a transactional document write upserts its strong intent among the intents and its reverse-index entry among the reverse index |
| TransactionWrites.Txn1Writes | src/yb/docdb/docrowwiseiterator-test.cc:680-696 | transaction 1's five writes leave two weak document intents, five strong column intents, and in the reverse index only the last write's two entries, since all five writes share the transaction and the hybrid time |
| TransactionWrites.MainWritesBehind | src/yb/docdb/docrowwiseiterator-test.cc:698-723 | the eight regular writes leave any intents and reverse-index entries in front untouched and add the same cells as onto an empty store |
| TransactionWrites.Txn1AndMainWrites | src/yb/docdb/docrowwiseiterator-test.cc:680-723 | after transaction 1 and the regular writes, the store is transaction 1's intents, its reverse index, then the eight regular cells |
| TransactionWrites.Txn2DeleteRow1 | src/yb/docdb/docrowwiseiterator-test.cc:728-730 | transaction 2's document DEL of row 1 goes in after row 1's weak intent of transaction 1, and its reverse-index entry after transaction 1's |
| TransactionWrites.Txn2WriteRow2E | src/yb/docdb/docrowwiseiterator-test.cc:731-733 | transaction 2's write of row 2's column e puts its strong and weak intents just ahead of transaction 1's older intents on the same keys; its strong reverse-index entry replaces the DEL's, whose key it shares, and its weak one is added |
| TransactionWrites.TxnWritesAreStore | src/yb/docdb/docrowwiseiterator-test.cc:680-734 | the writes of the transaction test leave ten intents, four reverse-index entries and the eight regular cells |
| TransactionWrites.TxnWritesGiveDump | src/yb/docdb/docrowwiseiterator-test.cc:680-774 | the writes of the transaction test leave exactly the dumped store |
| TransactionWrites.WriteResolveIntents | src/yb/docdb/docrowwiseiterator-test.cc:680-734 | the database runs the fifteen writes, with transaction 1 for the first five and transaction 2 for the last two, and ends with the store they give |

## Left out

- `doc_rowwise_iterator.cc` and the rest of the docdb sources are not part of this model. The iterator's behaviour is the one its tests in `docrowwiseiterator-test.cc` pin down.
- Byte encodings of keys and values, and the rocksdb store. The store is an ordered sequence of entries; each comparator states the order the encoding gives.
- The logical component of a hybrid time. Every time in the tests is built from microseconds, so the logical part is always zero.
- Hashed key components. The test keys have range components only.
- The debug-dump text format. Each dump is stated as the list of entries it prints.
- `FullyDecodeTransactionId`. Transaction ids are the numbers 1 and 2.
- Logging and `SeedRandom` have no effect on what a read returns.
- The mock's `LocalCommitTime`, `Metadata`, `Abort` and `RegisterRequest` stubs. The read path of the tests does not use them.
- The status callback of `RequestStatusAt` becomes a returned value.
- `SetCurrentTransactionId` and `ResetCurrentTransactionId` become an explicit transaction parameter of the single writes.
- The status authority is given to a read as a fixed map of commit times, not consulted through asynchronous requests while the read runs.
- Reads by a transaction of its own intents. The scans of the transaction test (lines 778-888) read inside a transaction, but that transaction has a freshly generated id and has written nothing, so it has no intents of its own to see. Such a read is modelled as a transactional read that resolves every strong intent through the status authority.
- Isolation levels other than snapshot isolation. The transaction test sets `SNAPSHOT_ISOLATION` (line 671); the strong intent on the written path, with a weak intent on the document above a column, is the intent shape that level writes.
- TTLs on intents. No transactional write in the tests carries a TTL.
- I/O errors of the store. Every read of the model succeeds, except for an unknown transaction.
- The iterator's seek cache and its internal prefix iterators. These are modelled as two cursors over the intent and regular sections.
- Edge rules that no test in the source pins down, stated here as modelled:
  - a cell is still visible when the read time equals write time + TTL;
  - when an intent and a regular cell have the same effective time, the intent wins;
  - a `NextRow` called with no row pending first resolves the next live document, as `HasNext` would, and hands its row over; it reports the end only when no live document is left.
- HybridTimes.AddPhysicalMicros: states only that the result is not earlier than its input. The exact sum is what its callers compute with.
