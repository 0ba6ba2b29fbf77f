/**
  The writes of the iterator tests, from an empty store, and the store they
  leave: each sequence of writes gives exactly the store its test's debug
  dump lists. A method per test makes the `DocDb` and `DocWriteBatch` calls
  the test makes; a lemma per test shows that the store they leave is the
  dump, computed one write or one batch at a time through stores named on
  the way.
 */
module TestWrites {
  import opened Wrappers
  import opened HybridTimes
  import opened DocKeys
  import opened DocStore
  import opened DocWriteBatch
  import opened TestFixtures
  import opened IteratorTests
  import opened ProjectionTests

  /** Writing value `v` to column `col` of `doc`, without a TTL. */
  function Put(doc: DocKey, col: ColumnId, v: PrimitiveValue): WriteOp {
    WriteOp(DocPath(doc, Column(col)), Primitive(v), None)
  }

  /** Deleting the whole document `doc`. */
  function DeleteDoc(doc: DocKey): WriteOp {
    WriteOp(DocPath(doc, DocRoot), Tombstone, None)
  }

  /** Writing the DEL marker to column `col` of `doc`. */
  function DeleteColumn(doc: DocKey, col: ColumnId): WriteOp {
    WriteOp(DocPath(doc, Column(col)), Tombstone, None)
  }

  const PutRow1C := Put(Key1, 30, String("row1_c"))
  const PutRow1D := Put(Key1, 40, Int64(10000))
  const PutRow1E := Put(Key1, 50, String("row1_e"))
  const PutRow2C := Put(Key2, 30, String("row2_c"))
  const PutRow2D := Put(Key2, 40, Int64(20000))
  const PutRow2E := Put(Key2, 50, String("row2_e"))
  const DeleteRow1 := DeleteDoc(Key1)
  const DeleteRow2 := DeleteDoc(Key2)

  // ---------------------------------------------------------------------------
  // Sequence identities the stores below are rearranged by

  lemma Assoc<T>(a: seq<T>, b: seq<T>, c: seq<T>)
    ensures a + (b + c) == a + b + c
  {
  }

  lemma EmptyFirst<T>(a: seq<T>)
    ensures [] + a == a
  {
  }

  lemma Pair<T>(x: T, y: T)
    ensures [x] + [y] == [x, y]
  {
  }

  lemma Triple<T>(x: T, y: T, z: T)
    ensures [x, y] + [z] == [x, y, z]
  {
  }

  lemma Quadruple<T>(x: T, y: T, z: T, w: T)
    ensures [x, y, z] + [w] == [x, y, z, w]
  {
  }

  // ---------------------------------------------------------------------------
  // Where a new cell goes: the order of regular keys, one component at a time

  lemma OtherDocumentAfter(a: SubKey, b: SubKey, t1: DocHybridTime, t2: DocHybridTime)
    ensures CompareKeys(RegularKey(Key1, a, t1), RegularKey(Key2, b, t2)) == Less
  {
    KeysAscend();
  }

  lemma LaterColumnAfter(d: DocKey, a: ColumnId, b: ColumnId, t1: DocHybridTime, t2: DocHybridTime)
    requires a < b
    ensures CompareKeys(RegularKey(d, Column(a), t1), RegularKey(d, Column(b), t2)) == Less
  {
    DocKeyOrder();
  }

  lemma ColumnAfterRoot(d: DocKey, c: ColumnId, t1: DocHybridTime, t2: DocHybridTime)
    ensures CompareKeys(RegularKey(d, DocRoot, t1), RegularKey(d, Column(c), t2)) == Less
  {
    DocKeyOrder();
  }

  lemma OlderVersionAfter(d: DocKey, sub: SubKey, t1: DocHybridTime, t2: DocHybridTime)
    requires Before(t2, t1)
    ensures CompareKeys(RegularKey(d, sub, t1), RegularKey(d, sub, t2)) == Less
  {
    DocKeyOrder();
    SubKeyOrder();
  }

  // ---------------------------------------------------------------------------
  // DocRowwiseIteratorTest (lines 76-123): single writes, one of them a column DEL

  const DeleteRow2D := DeleteColumn(Key2, 40)
  const PutRow2DAgain := Put(Key2, 40, Int64(30000))
  const PutRow2EPrime := Put(Key2, 50, String("row2_e_prime"))

  const MainStore1: seq<Entry> := [CellOf(PutRow1C, 1000, 0)]
  const MainStore2: seq<Entry> := MainStore1 + [CellOf(PutRow1D, 1000, 0)]
  const MainStore3: seq<Entry> := MainStore2 + [CellOf(PutRow1E, 1000, 0)]
  const MainStore4: seq<Entry> := MainStore3 + [CellOf(PutRow2D, 2000, 0)]
  const MainStore5: seq<Entry> := MainStore3 + [CellOf(DeleteRow2D, 2500, 0), CellOf(PutRow2D, 2000, 0)]
  const MainStore6: seq<Entry> :=
    MainStore3 + [CellOf(PutRow2DAgain, 3000, 0)] + [CellOf(DeleteRow2D, 2500, 0), CellOf(PutRow2D, 2000, 0)]
  const MainStore7: seq<Entry> := MainStore6 + [CellOf(PutRow2E, 2000, 0)]
  const MainStore8: seq<Entry> := MainStore6 + [CellOf(PutRow2EPrime, 4000, 0)] + [CellOf(PutRow2E, 2000, 0)]

  /** The store the eight writes of lines 76-112 leave when made on top of `base`. */
  function MainWritesOnto(base: seq<Entry>): seq<Entry>
    requires Sorted(base)
  {
    var s := ApplyOps(ApplyOps(ApplyOps(base, [PutRow1C], 1000), [PutRow1D], 1000), [PutRow1E], 1000);
    var s := ApplyOps(ApplyOps(ApplyOps(s, [PutRow2D], 2000), [DeleteRow2D], 2500), [PutRow2DAgain], 3000);
    ApplyOps(ApplyOps(s, [PutRow2E], 2000), [PutRow2EPrime], 4000)
  }

  /** The store the eight writes of lines 76-112 leave. */
  function MainWrites(): seq<Entry> {
    MainWritesOnto([])
  }

  lemma MainWritesRow1()
    ensures ApplyOps(ApplyOps(ApplyOps([], [PutRow1C], 1000), [PutRow1D], 1000), [PutRow1E], 1000) == MainStore3
  {
    ApplyOneOp([], PutRow1C, 1000);
    ApplyOneOp(MainStore1, PutRow1D, 1000);
    LaterColumnAfter(Key1, 30, 40, DocHybridTime(1000, 0), DocHybridTime(1000, 0));
    UpsertAppend(MainStore1, CellOf(PutRow1D, 1000, 0));
    ApplyOneOp(MainStore2, PutRow1E, 1000);
    LaterColumnAfter(Key1, 40, 50, DocHybridTime(1000, 0), DocHybridTime(1000, 0));
    UpsertAppend(MainStore2, CellOf(PutRow1E, 1000, 0));
  }

  lemma MainWriteRow2D(s: seq<Entry>)
    requires s == MainStore3 && Sorted(s)
    ensures ApplyOps(s, [PutRow2D], 2000) == MainStore4
  {
    ApplyOneOp(s, PutRow2D, 2000);
    OtherDocumentAfter(Column(50), Column(40), DocHybridTime(1000, 0), DocHybridTime(2000, 0));
    UpsertAppend(s, CellOf(PutRow2D, 2000, 0));
  }

  /** The DEL at 2500 sorts between the newer cells of row 1 and the older value at 2000. */
  lemma MainDeleteRow2D(s: seq<Entry>)
    requires s == MainStore4 && Sorted(s)
    ensures ApplyOps(s, [DeleteRow2D], 2500) == MainStore5
  {
    var del := CellOf(DeleteRow2D, 2500, 0);
    ApplyOneOp(s, DeleteRow2D, 2500);
    OtherDocumentAfter(Column(50), Column(40), DocHybridTime(1000, 0), DocHybridTime(2500, 0));
    OlderVersionAfter(Key2, Column(40), DocHybridTime(2500, 0), DocHybridTime(2000, 0));
    UpsertBetween(MainStore3, [CellOf(PutRow2D, 2000, 0)], del);
    Assoc(MainStore3, [del], [CellOf(PutRow2D, 2000, 0)]);
    Pair(del, CellOf(PutRow2D, 2000, 0));
  }

  /** The value at 3000 sorts before the DEL at 2500 of the same column. */
  lemma MainWriteRow2DAgain(s: seq<Entry>)
    requires s == MainStore5 && Sorted(s)
    ensures ApplyOps(s, [PutRow2DAgain], 3000) == MainStore6
  {
    ApplyOneOp(s, PutRow2DAgain, 3000);
    OtherDocumentAfter(Column(50), Column(40), DocHybridTime(1000, 0), DocHybridTime(3000, 0));
    OlderVersionAfter(Key2, Column(40), DocHybridTime(3000, 0), DocHybridTime(2500, 0));
    UpsertBetween(MainStore3, [CellOf(DeleteRow2D, 2500, 0), CellOf(PutRow2D, 2000, 0)], CellOf(PutRow2DAgain, 3000, 0));
  }

  lemma MainWriteRow2E(s: seq<Entry>)
    requires s == MainStore6 && Sorted(s)
    ensures ApplyOps(s, [PutRow2E], 2000) == MainStore7
  {
    ApplyOneOp(s, PutRow2E, 2000);
    LaterColumnAfter(Key2, 40, 50, DocHybridTime(2000, 0), DocHybridTime(2000, 0));
    UpsertAppend(s, CellOf(PutRow2E, 2000, 0));
  }

  lemma MainWriteRow2EPrime(s: seq<Entry>)
    requires s == MainStore7 && Sorted(s)
    ensures ApplyOps(s, [PutRow2EPrime], 4000) == MainStore8
  {
    ApplyOneOp(s, PutRow2EPrime, 4000);
    LaterColumnAfter(Key2, 40, 50, DocHybridTime(2000, 0), DocHybridTime(4000, 0));
    OlderVersionAfter(Key2, Column(50), DocHybridTime(4000, 0), DocHybridTime(2000, 0));
    UpsertBetween(MainStore6, [CellOf(PutRow2E, 2000, 0)], CellOf(PutRow2EPrime, 4000, 0));
  }

  lemma MainStoreIsDump()
    ensures IsStoreA(MainStore8)
  {
  }

  lemma MainWritesAreMainStore()
    ensures MainWrites() == MainStore8
  {
    MainWritesRow1();
    MainWriteRow2D(MainStore3);
    MainDeleteRow2D(MainStore4);
    MainWriteRow2DAgain(MainStore5);
    MainWriteRow2E(MainStore6);
    MainWriteRow2EPrime(MainStore7);
  }

  /** The writes of lines 76-112 leave the store of lines 114-123. */
  lemma MainWritesGiveDump()
    ensures IsStoreA(MainWrites())
  {
    MainWritesAreMainStore();
    MainStoreIsDump();
  }

  /** The writes of lines 76-112 as the test makes them, each a write of its own. */
  method WriteMain(db: DocDb)
    requires db.Valid() && db.entries == []
    modifies db
    ensures db.Valid() && db.entries == MainWrites()
  {
    db.SetPrimitive(DocPath(Key1, Column(30)), Primitive(String("row1_c")), 1000, None);
    db.SetPrimitive(DocPath(Key1, Column(40)), Primitive(Int64(10000)), 1000, None);
    db.SetPrimitive(DocPath(Key1, Column(50)), Primitive(String("row1_e")), 1000, None);
    db.SetPrimitive(DocPath(Key2, Column(40)), Primitive(Int64(20000)), 2000, None);
    db.DeleteSubDoc(DocPath(Key2, Column(40)), 2500, None);
    db.SetPrimitive(DocPath(Key2, Column(40)), Primitive(Int64(30000)), 3000, None);
    db.SetPrimitive(DocPath(Key2, Column(50)), Primitive(String("row2_e")), 2000, None);
    db.SetPrimitive(DocPath(Key2, Column(50)), Primitive(String("row2_e_prime")), 4000, None);
  }

  // ---------------------------------------------------------------------------
  // DocRowwiseIteratorDeletedDocumentTest (lines 214-238): the same first four writes,
  // then a document DEL

  const DeletedDocumentStore: seq<Entry> := [CellOf(DeleteRow1, 2500, 0)] + MainStore4

  /** The store the writes of lines 214-230 leave. */
  function DeletedDocumentWrites(): seq<Entry> {
    var s := ApplyOps(ApplyOps(ApplyOps([], [PutRow1C], 1000), [PutRow1D], 1000), [PutRow1E], 1000);
    ApplyOps(ApplyOps(s, [PutRow2D], 2000), [DeleteRow1], 2500)
  }

  /** The document DEL sorts before every column of its document. */
  lemma DeletedDocumentDeleteRow1(s: seq<Entry>)
    requires s == MainStore4 && Sorted(s)
    ensures ApplyOps(s, [DeleteRow1], 2500) == DeletedDocumentStore
  {
    ApplyOneOp(s, DeleteRow1, 2500);
    ColumnAfterRoot(Key1, 30, DocHybridTime(2500, 0), DocHybridTime(1000, 0));
    UpsertPrepend(s, CellOf(DeleteRow1, 2500, 0));
  }

  lemma DeletedDocumentStoreIsDump()
    ensures IsStoreB(DeletedDocumentStore)
  {
  }

  /** The writes of lines 214-230 leave the store of lines 232-238. */
  lemma DeletedDocumentWritesGiveDump()
    ensures IsStoreB(DeletedDocumentWrites())
  {
    MainWritesRow1();
    MainWriteRow2D(MainStore3);
    DeletedDocumentDeleteRow1(MainStore4);
    DeletedDocumentStoreIsDump();
  }

  /** The writes of lines 214-230 as the test makes them. */
  method WriteDeletedDocument(db: DocDb)
    requires db.Valid() && db.entries == []
    modifies db
    ensures db.Valid() && db.entries == DeletedDocumentWrites()
  {
    db.SetPrimitive(DocPath(Key1, Column(30)), Primitive(String("row1_c")), 1000, None);
    db.SetPrimitive(DocPath(Key1, Column(40)), Primitive(Int64(10000)), 1000, None);
    db.SetPrimitive(DocPath(Key1, Column(50)), Primitive(String("row1_e")), 1000, None);
    db.SetPrimitive(DocPath(Key2, Column(40)), Primitive(Int64(20000)), 2000, None);
    db.DeleteSubDoc(DocPath(Key1, DocRoot), 2500, None);
  }

  // ---------------------------------------------------------------------------
  // DocRowwiseIteratorTestRowDeletes (lines 270-295): three batches

  /** The batch at 1000 of lines 272-277, and of lines 450-454. */
  const PutRow1CD: seq<WriteOp> := [PutRow1C, PutRow1D]
  const RowDeletesAt2500: seq<WriteOp> := [DeleteRow1]
  const RowDeletesAt2800: seq<WriteOp> := [PutRow1E, PutRow2D]

  const Row1CDStore: seq<Entry> := [CellOf(PutRow1C, 1000, 0), CellOf(PutRow1D, 1000, 1)]
  const RowDeletesStore2500: seq<Entry> := [CellOf(DeleteRow1, 2500, 0)] + Row1CDStore
  const RowDeletesStore2800: seq<Entry> := RowDeletesStore2500 + [CellOf(PutRow1E, 2800, 0), CellOf(PutRow2D, 2800, 1)]

  /** The store the batches of lines 272-287 leave. */
  function RowDeletesWrites(): seq<Entry> {
    ApplyOps(ApplyOps(ApplyOps([], PutRow1CD, 1000), RowDeletesAt2500, 2500), RowDeletesAt2800, 2800)
  }

  lemma Row1CDBatch()
    ensures ApplyOps([], PutRow1CD, 1000) == Row1CDStore
  {
    ApplyTwoOps([], PutRow1C, PutRow1D, 1000);
    LaterColumnAfter(Key1, 30, 40, DocHybridTime(1000, 0), DocHybridTime(1000, 1));
    UpsertAppendTwo([], CellOf(PutRow1C, 1000, 0), CellOf(PutRow1D, 1000, 1));
  }

  lemma RowDeletesBatch2500(s: seq<Entry>)
    requires s == Row1CDStore && Sorted(s)
    ensures ApplyOps(s, RowDeletesAt2500, 2500) == RowDeletesStore2500
  {
    ApplyOneOp(s, DeleteRow1, 2500);
    ColumnAfterRoot(Key1, 30, DocHybridTime(2500, 0), DocHybridTime(1000, 0));
    UpsertPrepend(s, CellOf(DeleteRow1, 2500, 0));
  }

  lemma RowDeletesBatch2800(s: seq<Entry>)
    requires s == RowDeletesStore2500 && Sorted(s)
    ensures ApplyOps(s, RowDeletesAt2800, 2800) == RowDeletesStore2800
  {
    ApplyTwoOps(s, PutRow1E, PutRow2D, 2800);
    LaterColumnAfter(Key1, 40, 50, DocHybridTime(1000, 1), DocHybridTime(2800, 0));
    OtherDocumentAfter(Column(50), Column(40), DocHybridTime(2800, 0), DocHybridTime(2800, 1));
    UpsertAppendTwo(s, CellOf(PutRow1E, 2800, 0), CellOf(PutRow2D, 2800, 1));
  }

  lemma RowDeletesStoreIsDump()
    ensures IsStoreC(RowDeletesStore2800)
  {
  }

  /** Applying the three batches of lines 272-287 to an empty store gives the store of lines 289-295. */
  lemma RowDeletesWritesGiveDump()
    ensures IsStoreC(RowDeletesWrites())
  {
    Row1CDBatch();
    RowDeletesBatch2500(Row1CDStore);
    RowDeletesBatch2800(RowDeletesStore2500);
    RowDeletesStoreIsDump();
  }

  /** The writes of lines 272-287 as the test makes them: the batch is applied and cleared
      at 1000 and at 2500, and applied at 2800. */
  method WriteRowDeletes(db: DocDb)
    requires db.Valid() && db.entries == []
    modifies db
    ensures db.Valid() && db.entries == RowDeletesWrites()
  {
    var dwb := new DocWriteBatch();
    dwb.SetPrimitive(DocPath(Key1, Column(30)), Primitive(String("row1_c")), None);
    EmptyFirst([PutRow1C]);
    dwb.SetPrimitive(DocPath(Key1, Column(40)), Primitive(Int64(10000)), None);
    Pair(PutRow1C, PutRow1D);
    assert dwb.ops == PutRow1CD;
    db.WriteToRocksDBAndClear(dwb, 1000);
    dwb.DeleteSubDoc(DocPath(Key1, DocRoot));
    EmptyFirst([DeleteRow1]);
    assert dwb.ops == RowDeletesAt2500;
    db.WriteToRocksDBAndClear(dwb, 2500);
    dwb.SetPrimitive(DocPath(Key1, Column(50)), Primitive(String("row1_e")), None);
    EmptyFirst([PutRow1E]);
    dwb.SetPrimitive(DocPath(Key2, Column(40)), Primitive(Int64(20000)), None);
    Pair(PutRow1E, PutRow2D);
    assert dwb.ops == RowDeletesAt2800;
    db.WriteToRocksDB(dwb, 2800);
  }

  // ---------------------------------------------------------------------------
  // DocRowwiseIteratorHasNextIdempotence (lines 339-353): the document DEL is written
  // after a newer column value

  const IdempotenceStore1: seq<Entry> := [CellOf(PutRow1D, 1000, 0)]
  const IdempotenceStore2: seq<Entry> := IdempotenceStore1 + [CellOf(PutRow1E, 2800, 0)]
  const IdempotenceStore3: seq<Entry> := [CellOf(DeleteRow1, 2500, 0)] + IdempotenceStore2

  /** The store the writes of lines 339-347 leave. */
  function IdempotenceWrites(): seq<Entry> {
    ApplyOps(ApplyOps(ApplyOps([], [PutRow1D], 1000), [PutRow1E], 2800), [DeleteRow1], 2500)
  }

  lemma IdempotenceWritesRow1()
    ensures ApplyOps(ApplyOps([], [PutRow1D], 1000), [PutRow1E], 2800) == IdempotenceStore2
  {
    ApplyOneOp([], PutRow1D, 1000);
    ApplyOneOp(IdempotenceStore1, PutRow1E, 2800);
    LaterColumnAfter(Key1, 40, 50, DocHybridTime(1000, 0), DocHybridTime(2800, 0));
    UpsertAppend(IdempotenceStore1, CellOf(PutRow1E, 2800, 0));
  }

  /** An older document DEL still sorts before the newer column value. */
  lemma IdempotenceDeleteRow1(s: seq<Entry>)
    requires s == IdempotenceStore2 && Sorted(s)
    ensures ApplyOps(s, [DeleteRow1], 2500) == IdempotenceStore3
  {
    ApplyOneOp(s, DeleteRow1, 2500);
    ColumnAfterRoot(Key1, 40, DocHybridTime(2500, 0), DocHybridTime(1000, 0));
    UpsertPrepend(s, CellOf(DeleteRow1, 2500, 0));
  }

  /** The writes of lines 339-347 leave the store of lines 349-353. */
  lemma IdempotenceWritesGiveDump()
    ensures IsStoreD(IdempotenceWrites())
  {
    IdempotenceWritesRow1();
    IdempotenceDeleteRow1(IdempotenceStore2);
    assert IsStoreD(IdempotenceStore3);
  }

  /** The writes of lines 339-347 as the test makes them. */
  method WriteIdempotence(db: DocDb)
    requires db.Valid() && db.entries == []
    modifies db
    ensures db.Valid() && db.entries == IdempotenceWrites()
  {
    db.SetPrimitive(DocPath(Key1, Column(40)), Primitive(Int64(10000)), 1000, None);
    db.SetPrimitive(DocPath(Key1, Column(50)), Primitive(String("row1_e")), 2800, None);
    db.DeleteSubDoc(DocPath(Key1, DocRoot), 2500, None);
  }

  // ---------------------------------------------------------------------------
  // DocRowwiseIteratorIncompleteProjection (lines 386-401): one batch of three

  const IncompleteProjectionBatch: seq<WriteOp> := [PutRow1D, PutRow1E, PutRow2D]
  const IncompleteProjectionStore: seq<Entry> :=
    [CellOf(PutRow1D, 1000, 0), CellOf(PutRow1E, 1000, 1)] + [CellOf(PutRow2D, 1000, 2)]

  lemma IncompleteProjectionBatchAt1000()
    ensures ApplyOps([], IncompleteProjectionBatch, 1000) == IncompleteProjectionStore
  {
    var row1 := [CellOf(PutRow1D, 1000, 0), CellOf(PutRow1E, 1000, 1)];
    ApplyThreeOps([], PutRow1D, PutRow1E, PutRow2D, 1000);
    ApplyTwoOps([], PutRow1D, PutRow1E, 1000);
    LaterColumnAfter(Key1, 40, 50, DocHybridTime(1000, 0), DocHybridTime(1000, 1));
    UpsertAppendTwo([], CellOf(PutRow1D, 1000, 0), CellOf(PutRow1E, 1000, 1));
    EmptyFirst(row1);
    OtherDocumentAfter(Column(50), Column(40), DocHybridTime(1000, 1), DocHybridTime(1000, 2));
    UpsertAppend(row1, CellOf(PutRow2D, 1000, 2));
  }

  /** The batch of lines 388-395 leaves the store of lines 397-401. */
  lemma IncompleteProjectionWritesGiveDump()
    ensures IsStoreE(ApplyOps([], IncompleteProjectionBatch, 1000))
  {
    IncompleteProjectionBatchAt1000();
    assert IsStoreE(IncompleteProjectionStore);
  }

  /** The writes of lines 386-395 as the test makes them. */
  method WriteIncompleteProjection(db: DocDb)
    requires db.Valid() && db.entries == []
    modifies db
    ensures db.Valid() && db.entries == ApplyOps([], IncompleteProjectionBatch, 1000)
  {
    var dwb := new DocWriteBatch();
    dwb.SetPrimitive(DocPath(Key1, Column(40)), Primitive(Int64(10000)), None);
    EmptyFirst([PutRow1D]);
    dwb.SetPrimitive(DocPath(Key1, Column(50)), Primitive(String("row1_e")), None);
    Pair(PutRow1D, PutRow1E);
    dwb.SetPrimitive(DocPath(Key2, Column(40)), Primitive(Int64(20000)), None);
    Triple(PutRow1D, PutRow1E, PutRow2D);
    assert dwb.ops == IncompleteProjectionBatch;
    db.WriteToRocksDB(dwb, 1000);
  }

  // ---------------------------------------------------------------------------
  // DocRowwiseIteratorMultipleDeletes (lines 443-486): TTLs, a column DEL written as a
  // value, and an empty batch at the end

  const PutRow1EWithTtl := WriteOp(DocPath(Key1, Column(50)), Primitive(String("row1_e")), Some(Millis(1)))
  const DeleteRow2C := DeleteColumn(Key2, 30)
  const PutRow2EWithTtl := WriteOp(DocPath(Key2, Column(50)), Primitive(String("row2_e")), Some(Millis(3)))

  const MultipleDeletesAt2500: seq<WriteOp> := [DeleteRow1, DeleteRow2]
  const MultipleDeletesAt2800: seq<WriteOp> := [PutRow1EWithTtl, DeleteRow2C, PutRow2D, PutRow2EWithTtl]

  const MultipleDeletesStore2500: seq<Entry> :=
    [CellOf(DeleteRow1, 2500, 0)] + Row1CDStore + [CellOf(DeleteRow2, 2500, 1)]
  const MultipleDeletesStoreMid: seq<Entry> :=
    [CellOf(DeleteRow1, 2500, 0)] + Row1CDStore + [CellOf(PutRow1EWithTtl, 2800, 0)]
      + [CellOf(DeleteRow2, 2500, 1)] + [CellOf(DeleteRow2C, 2800, 1)]
  const MultipleDeletesStore2800: seq<Entry> :=
    MultipleDeletesStoreMid + [CellOf(PutRow2D, 2800, 2), CellOf(PutRow2EWithTtl, 2800, 3)]

  /** The store the batches of lines 450-473 leave; the last one is empty. */
  function MultipleDeletesWrites(): seq<Entry> {
    var s := ApplyOps(ApplyOps([], PutRow1CD, 1000), MultipleDeletesAt2500, 2500);
    ApplyOps(ApplyOps(s, MultipleDeletesAt2800, 2800), [], 1000)
  }

  /** The two document DELs go in front of their documents. */
  lemma MultipleDeletesBatch2500(s: seq<Entry>)
    requires s == Row1CDStore && Sorted(s)
    ensures ApplyOps(s, MultipleDeletesAt2500, 2500) == MultipleDeletesStore2500
  {
    ApplyTwoOps(s, DeleteRow1, DeleteRow2, 2500);
    ColumnAfterRoot(Key1, 30, DocHybridTime(2500, 0), DocHybridTime(1000, 0));
    UpsertPrepend(s, CellOf(DeleteRow1, 2500, 0));
    OtherDocumentAfter(Column(40), DocRoot, DocHybridTime(1000, 1), DocHybridTime(2500, 1));
    UpsertAppend([CellOf(DeleteRow1, 2500, 0)] + s, CellOf(DeleteRow2, 2500, 1));
  }

  lemma MultipleDeletesBatch2800Start(s: seq<Entry>)
    requires s == MultipleDeletesStore2500 && Sorted(s)
    ensures ApplyOps(s, [PutRow1EWithTtl, DeleteRow2C], 2800) == MultipleDeletesStoreMid
  {
    var p := [CellOf(DeleteRow1, 2500, 0)] + Row1CDStore;
    ApplyTwoOps(s, PutRow1EWithTtl, DeleteRow2C, 2800);
    LaterColumnAfter(Key1, 40, 50, DocHybridTime(1000, 1), DocHybridTime(2800, 0));
    OtherDocumentAfter(Column(50), DocRoot, DocHybridTime(2800, 0), DocHybridTime(2500, 1));
    UpsertBetween(p, [CellOf(DeleteRow2, 2500, 1)], CellOf(PutRow1EWithTtl, 2800, 0));
    ColumnAfterRoot(Key2, 30, DocHybridTime(2500, 1), DocHybridTime(2800, 1));
    UpsertAppend(p + [CellOf(PutRow1EWithTtl, 2800, 0)] + [CellOf(DeleteRow2, 2500, 1)], CellOf(DeleteRow2C, 2800, 1));
  }

  lemma MultipleDeletesBatch2800End(m: seq<Entry>)
    requires m == MultipleDeletesStoreMid && Sorted(m)
    ensures Upsert(Upsert(m, CellOf(PutRow2D, 2800, 2)), CellOf(PutRow2EWithTtl, 2800, 3)) == MultipleDeletesStore2800
  {
    LaterColumnAfter(Key2, 30, 40, DocHybridTime(2800, 1), DocHybridTime(2800, 2));
    LaterColumnAfter(Key2, 40, 50, DocHybridTime(2800, 2), DocHybridTime(2800, 3));
    UpsertAppendTwo(m, CellOf(PutRow2D, 2800, 2), CellOf(PutRow2EWithTtl, 2800, 3));
  }

  lemma MultipleDeletesBatch2800(s: seq<Entry>)
    requires s == MultipleDeletesStore2500 && Sorted(s)
    ensures ApplyOps(s, MultipleDeletesAt2800, 2800) == MultipleDeletesStore2800
  {
    ApplyFourOps(s, PutRow1EWithTtl, DeleteRow2C, PutRow2D, PutRow2EWithTtl, 2800);
    MultipleDeletesBatch2800Start(s);
    MultipleDeletesBatch2800End(MultipleDeletesStoreMid);
  }

  lemma MultipleDeletesStoreIsDump()
    ensures IsStoreF(MultipleDeletesStore2800)
  {
  }

  /** The batches of lines 450-473 leave the store of lines 475-486. */
  lemma MultipleDeletesWritesGiveDump()
    ensures IsStoreF(MultipleDeletesWrites())
  {
    Row1CDBatch();
    MultipleDeletesBatch2500(Row1CDStore);
    MultipleDeletesBatch2800(MultipleDeletesStore2500);
    MultipleDeletesStoreIsDump();
  }

  /** The writes of lines 450-473 as the test makes them: a batch cleared twice in a row,
      and written once more after it was cleared. */
  method WriteMultipleDeletes(db: DocDb)
    requires db.Valid() && db.entries == []
    modifies db
    ensures db.Valid() && db.entries == MultipleDeletesWrites()
  {
    var dwb := new DocWriteBatch();
    dwb.SetPrimitive(DocPath(Key1, Column(30)), Primitive(String("row1_c")), None);
    EmptyFirst([PutRow1C]);
    dwb.SetPrimitive(DocPath(Key1, Column(40)), Primitive(Int64(10000)), None);
    Pair(PutRow1C, PutRow1D);
    assert dwb.ops == PutRow1CD;
    db.WriteToRocksDBAndClear(dwb, 1000);
    dwb.DeleteSubDoc(DocPath(Key1, DocRoot));
    EmptyFirst([DeleteRow1]);
    dwb.DeleteSubDoc(DocPath(Key2, DocRoot));
    Pair(DeleteRow1, DeleteRow2);
    assert dwb.ops == MultipleDeletesAt2500;
    db.WriteToRocksDBAndClear(dwb, 2500);
    dwb.Clear();
    dwb.SetPrimitive(DocPath(Key1, Column(50)), Primitive(String("row1_e")), Some(Millis(1)));
    EmptyFirst([PutRow1EWithTtl]);
    dwb.SetPrimitive(DocPath(Key2, Column(30)), Tombstone, None);
    Pair(PutRow1EWithTtl, DeleteRow2C);
    dwb.SetPrimitive(DocPath(Key2, Column(40)), Primitive(Int64(20000)), None);
    Triple(PutRow1EWithTtl, DeleteRow2C, PutRow2D);
    dwb.SetPrimitive(DocPath(Key2, Column(50)), Primitive(String("row2_e")), Some(Millis(3)));
    Quadruple(PutRow1EWithTtl, DeleteRow2C, PutRow2D, PutRow2EWithTtl);
    assert dwb.ops == MultipleDeletesAt2800;
    db.WriteToRocksDBAndClear(dwb, 2800);
    db.WriteToRocksDB(dwb, 1000);
  }

  // ---------------------------------------------------------------------------
  // DocRowwiseIteratorValidColumnNotInProjection (lines 517-546): four batches, one of
  // them writing a lower column id after a higher one

  const ValidColumnAt1000: seq<WriteOp> := [PutRow1D, PutRow2D]
  const ValidColumnAt2000: seq<WriteOp> := [PutRow2E, PutRow2C]
  const ValidColumnAt2500: seq<WriteOp> := [DeleteRow1]
  const ValidColumnAt2800: seq<WriteOp> := [PutRow1E]

  const ValidColumnStore1000: seq<Entry> := [CellOf(PutRow1D, 1000, 0), CellOf(PutRow2D, 1000, 1)]
  const ValidColumnRow2: seq<Entry> :=
    [CellOf(PutRow2C, 2000, 1)] + [CellOf(PutRow2D, 1000, 1), CellOf(PutRow2E, 2000, 0)]
  const ValidColumnStore2000: seq<Entry> := [CellOf(PutRow1D, 1000, 0)] + ValidColumnRow2
  const ValidColumnStore2500: seq<Entry> := [CellOf(DeleteRow1, 2500, 0)] + ValidColumnStore2000
  const ValidColumnStore2800: seq<Entry> :=
    [CellOf(DeleteRow1, 2500, 0)] + [CellOf(PutRow1D, 1000, 0)] + [CellOf(PutRow1E, 2800, 0)] + ValidColumnRow2

  /** The store the batches of lines 519-536 leave. */
  function ValidColumnWrites(): seq<Entry> {
    var s := ApplyOps(ApplyOps([], ValidColumnAt1000, 1000), ValidColumnAt2000, 2000);
    ApplyOps(ApplyOps(s, ValidColumnAt2500, 2500), ValidColumnAt2800, 2800)
  }

  lemma ValidColumnBatch1000()
    ensures ApplyOps([], ValidColumnAt1000, 1000) == ValidColumnStore1000
  {
    ApplyTwoOps([], PutRow1D, PutRow2D, 1000);
    OtherDocumentAfter(Column(40), Column(40), DocHybridTime(1000, 0), DocHybridTime(1000, 1));
    UpsertAppendTwo([], CellOf(PutRow1D, 1000, 0), CellOf(PutRow2D, 1000, 1));
  }

  const ValidColumnStore2000Start: seq<Entry> :=
    [CellOf(PutRow1D, 1000, 0)] + [CellOf(PutRow2D, 1000, 1), CellOf(PutRow2E, 2000, 0)]

  lemma ValidColumnBatch2000Start(s: seq<Entry>)
    requires s == ValidColumnStore1000 && Sorted(s)
    ensures Upsert(s, CellOf(PutRow2E, 2000, 0)) == ValidColumnStore2000Start
  {
    var e2 := CellOf(PutRow2E, 2000, 0);
    var d2 := CellOf(PutRow2D, 1000, 1);
    LaterColumnAfter(Key2, 40, 50, DocHybridTime(1000, 1), DocHybridTime(2000, 0));
    UpsertAppend(s, e2);
    Pair(CellOf(PutRow1D, 1000, 0), d2);
    Assoc([CellOf(PutRow1D, 1000, 0)], [d2], [e2]);
    Pair(d2, e2);
  }

  /** Column 30, written second, still sorts before columns 40 and 50 of its document. */
  lemma ValidColumnBatch2000End(t: seq<Entry>)
    requires t == ValidColumnStore2000Start && Sorted(t)
    ensures Upsert(t, CellOf(PutRow2C, 2000, 1)) == ValidColumnStore2000
  {
    OtherDocumentAfter(Column(40), Column(30), DocHybridTime(1000, 0), DocHybridTime(2000, 1));
    LaterColumnAfter(Key2, 30, 40, DocHybridTime(2000, 1), DocHybridTime(1000, 1));
    UpsertBetween([CellOf(PutRow1D, 1000, 0)], [CellOf(PutRow2D, 1000, 1), CellOf(PutRow2E, 2000, 0)],
                  CellOf(PutRow2C, 2000, 1));
  }

  lemma ValidColumnBatch2000(s: seq<Entry>)
    requires s == ValidColumnStore1000 && Sorted(s)
    ensures ApplyOps(s, ValidColumnAt2000, 2000) == ValidColumnStore2000
  {
    ApplyTwoOps(s, PutRow2E, PutRow2C, 2000);
    ValidColumnBatch2000Start(s);
    ValidColumnBatch2000End(ValidColumnStore2000Start);
  }

  lemma ValidColumnBatch2500(s: seq<Entry>)
    requires s == ValidColumnStore2000 && Sorted(s)
    ensures ApplyOps(s, ValidColumnAt2500, 2500) == ValidColumnStore2500
  {
    ApplyOneOp(s, DeleteRow1, 2500);
    ColumnAfterRoot(Key1, 40, DocHybridTime(2500, 0), DocHybridTime(1000, 0));
    UpsertPrepend(s, CellOf(DeleteRow1, 2500, 0));
  }

  lemma ValidColumnBatch2800(s: seq<Entry>)
    requires s == ValidColumnStore2500 && Sorted(s)
    ensures ApplyOps(s, ValidColumnAt2800, 2800) == ValidColumnStore2800
  {
    var p := [CellOf(DeleteRow1, 2500, 0)] + [CellOf(PutRow1D, 1000, 0)];
    ApplyOneOp(s, PutRow1E, 2800);
    Assoc([CellOf(DeleteRow1, 2500, 0)], [CellOf(PutRow1D, 1000, 0)], ValidColumnRow2);
    LaterColumnAfter(Key1, 40, 50, DocHybridTime(1000, 0), DocHybridTime(2800, 0));
    OtherDocumentAfter(Column(50), Column(30), DocHybridTime(2800, 0), DocHybridTime(2000, 1));
    UpsertBetween(p, ValidColumnRow2, CellOf(PutRow1E, 2800, 0));
  }

  lemma ValidColumnStoreIsDump()
    ensures IsStoreG(ValidColumnStore2800)
  {
  }

  /** The batches of lines 519-536 leave the store of lines 539-546. */
  lemma ValidColumnWritesGiveDump()
    ensures IsStoreG(ValidColumnWrites())
  {
    ValidColumnBatch1000();
    ValidColumnBatch2000(ValidColumnStore1000);
    ValidColumnBatch2500(ValidColumnStore2000);
    ValidColumnBatch2800(ValidColumnStore2500);
    ValidColumnStoreIsDump();
  }

  /** The writes of lines 517-536 as the test makes them: every batch is applied and cleared. */
  method WriteValidColumn(db: DocDb)
    requires db.Valid() && db.entries == []
    modifies db
    ensures db.Valid() && db.entries == ValidColumnWrites()
  {
    var dwb := new DocWriteBatch();
    dwb.SetPrimitive(DocPath(Key1, Column(40)), Primitive(Int64(10000)), None);
    EmptyFirst([PutRow1D]);
    dwb.SetPrimitive(DocPath(Key2, Column(40)), Primitive(Int64(20000)), None);
    Pair(PutRow1D, PutRow2D);
    assert dwb.ops == ValidColumnAt1000;
    db.WriteToRocksDBAndClear(dwb, 1000);
    dwb.SetPrimitive(DocPath(Key2, Column(50)), Primitive(String("row2_e")), None);
    EmptyFirst([PutRow2E]);
    dwb.SetPrimitive(DocPath(Key2, Column(30)), Primitive(String("row2_c")), None);
    Pair(PutRow2E, PutRow2C);
    assert dwb.ops == ValidColumnAt2000;
    db.WriteToRocksDBAndClear(dwb, 2000);
    dwb.DeleteSubDoc(DocPath(Key1, DocRoot));
    EmptyFirst([DeleteRow1]);
    assert dwb.ops == ValidColumnAt2500;
    db.WriteToRocksDBAndClear(dwb, 2500);
    dwb.SetPrimitive(DocPath(Key1, Column(50)), Primitive(String("row1_e")), None);
    EmptyFirst([PutRow1E]);
    assert dwb.ops == ValidColumnAt2800;
    db.WriteToRocksDBAndClear(dwb, 2800);
  }

  // ---------------------------------------------------------------------------
  // DocRowwiseIteratorKeyProjection (lines 586-599): one batch of two

  const KeyProjectionBatch: seq<WriteOp> := [PutRow1D, PutRow1E]

  /** The batch of lines 589-594 leaves the store of lines 596-599. */
  lemma KeyProjectionWritesGiveDump()
    ensures IsStoreH(ApplyOps([], KeyProjectionBatch, 1000))
  {
    ApplyTwoOps([], PutRow1D, PutRow1E, 1000);
    LaterColumnAfter(Key1, 40, 50, DocHybridTime(1000, 0), DocHybridTime(1000, 1));
    UpsertAppendTwo([], CellOf(PutRow1D, 1000, 0), CellOf(PutRow1E, 1000, 1));
  }

  /** The writes of lines 586-594 as the test makes them. */
  method WriteKeyProjection(db: DocDb)
    requires db.Valid() && db.entries == []
    modifies db
    ensures db.Valid() && db.entries == ApplyOps([], KeyProjectionBatch, 1000)
  {
    var dwb := new DocWriteBatch();
    dwb.SetPrimitive(DocPath(Key1, Column(40)), Primitive(Int64(10000)), None);
    EmptyFirst([PutRow1D]);
    dwb.SetPrimitive(DocPath(Key1, Column(50)), Primitive(String("row1_e")), None);
    Pair(PutRow1D, PutRow1E);
    assert dwb.ops == KeyProjectionBatch;
    db.WriteToRocksDB(dwb, 1000);
  }
}
