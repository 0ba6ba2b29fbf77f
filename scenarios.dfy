/**
  Tools for stating what a scan of a small, fixed store yields: how a column
  of a listed store reads, where a scan of a two-document store stops from
  each position, and a run of the iterator in the shape of the iterator
  tests (open, ask twice, take rows until the end).
 */
module Scenarios {
  import opened Wrappers
  import opened HybridTimes
  import opened DocKeys
  import opened DocStore
  import opened Visibility
  import opened Rows
  import opened DocWriteBatch
  import opened RowIterator

  /** A regular cell of column `col`, with an optional TTL in microseconds. */
  function Cell(doc: DocKey, col: ColumnId, ht: HybridTime, w: nat, v: Value, ttl: Option<nat>): Entry {
    Entry(RegularKey(doc, Column(col), DocHybridTime(ht, w)), RegularValue(v, ttl))
  }

  /** A document-level DEL. */
  function DocDel(doc: DocKey, ht: HybridTime, w: nat): Entry {
    Entry(RegularKey(doc, DocRoot, DocHybridTime(ht, w)), RegularValue(Tombstone, None))
  }

  /** An ascending run of adjacent keys is sorted. */
  lemma {:induction false} SortedByNeighbours(s: seq<Entry>)
    requires forall i :: 0 <= i < |s| - 1 ==> CompareKeys(s[i].key, s[i + 1].key) == Less
    ensures Sorted(s)
  {
    if |s| > 1 {
      SortedByNeighbours(s[1..]);
      KeyOrder();
      forall j | 1 <= j < |s| ensures CompareKeys(s[0].key, s[j].key) == Less {
        if j > 1 {
          assert s[1..][0] == s[1] && s[1..][j - 1] == s[j];
        }
      }
      forall i, j | 0 <= i < j < |s| ensures CompareKeys(s[i].key, s[j].key) == Less {
        if i > 0 {
          assert s[1..][i - 1] == s[i] && s[1..][j - 1] == s[j];
        }
      }
    }
  }

  /** No cell of `s` at (`doc`, `sub`) is inside the read ceiling. */
  predicate NoCellAt(s: seq<Entry>, doc: DocKey, sub: SubKey, readTime: HybridTime) {
    forall i :: 0 <= i < |s| ==> !IsRegularVersion(s[i], doc, sub, readTime)
  }

  /** Cell `k` of `s` is the newest cell at (`doc`, `sub`) inside the read ceiling. */
  predicate NewestCellAt(s: seq<Entry>, k: nat, doc: DocKey, sub: SubKey, readTime: HybridTime) {
    && k < |s| && IsRegularVersion(s[k], doc, sub, readTime)
    && forall i :: 0 <= i < |s| && i != k && IsRegularVersion(s[i], doc, sub, readTime)
                   ==> Before(s[i].key.time, s[k].key.time)
  }

  /** A non-transactional read of `doc` finds no document-level version. */
  lemma NoDocLevelCells(s: seq<Entry>, doc: DocKey, readTime: HybridTime)
    requires NoCellAt(s, doc, DocRoot, readTime)
    ensures DocBoundary(s, NonTransactional, doc, readTime) == None
  {
    NonTransactionalIgnoresIntents(s, doc, DocRoot, readTime);
  }

  /** A non-transactional read of `doc` finds its newest document-level cell `k` as the boundary. */
  lemma NewestDocLevelCell(s: seq<Entry>, k: nat, doc: DocKey, readTime: HybridTime)
    requires NewestCellAt(s, k, doc, DocRoot, readTime)
    ensures DocBoundary(s, NonTransactional, doc, readTime) == Some(s[k].key.time)
  {
    NonTransactionalIgnoresIntents(s, doc, DocRoot, readTime);
    var v := RegularVersionOf(s[k]);
    var vs := Versions(s, NonTransactional, doc, DocRoot, readTime);
    forall w | w in vs && w != v ensures Before(w.time, v.time) {
      var e :| e in s && IsRegularVersion(e, doc, DocRoot, readTime) && w == RegularVersionOf(e);
      var i :| 0 <= i < |s| && s[i] == e;
    }
    BoundaryOfStrictlyNewest(s, NonTransactional, doc, readTime, v);
  }

  /** A non-transactional read of a column no cell of which is inside the read ceiling is null. */
  lemma NoCells(s: seq<Entry>, doc: DocKey, col: ColumnId, readTime: HybridTime)
    requires NoCellAt(s, doc, Column(col), readTime)
    ensures ColumnValue(s, NonTransactional, doc, col, readTime) == None
  {
    NonTransactionalIgnoresIntents(s, doc, Column(col), readTime);
  }

  /** A non-transactional read of a column is decided by its newest cell. */
  lemma NewestCellDecides(s: seq<Entry>, k: nat, doc: DocKey, col: ColumnId, readTime: HybridTime)
    requires NewestCellAt(s, k, doc, Column(col), readTime)
    ensures ColumnValue(s, NonTransactional, doc, col, readTime)
            == var v := RegularVersionOf(s[k]);
               if IsLive(v, readTime) && Survives(v.time, DocBoundary(s, NonTransactional, doc, readTime)) then Some(v.value.p) else None
  {
    NonTransactionalIgnoresIntents(s, doc, Column(col), readTime);
    var v := RegularVersionOf(s[k]);
    var vs := Versions(s, NonTransactional, doc, Column(col), readTime);
    forall w | w in vs && w != v ensures Before(w.time, v.time) {
      var e :| e in s && IsRegularVersion(e, doc, Column(col), readTime) && w == RegularVersionOf(e);
      var i :| 0 <= i < |s| && s[i] == e;
    }
    StrictlyNewestDecides(s, NonTransactional, doc, col, readTime, v);
  }

  /** A non-transactional read of a column whose newest cell is live and newer than the
      document's boundary reads that cell's value. */
  lemma NewestLiveCellReads(s: seq<Entry>, k: nat, doc: DocKey, col: ColumnId, readTime: HybridTime,
                            boundary: Option<DocHybridTime>)
    requires NewestCellAt(s, k, doc, Column(col), readTime)
    requires DocBoundary(s, NonTransactional, doc, readTime) == boundary
    requires s[k].value.value.Primitive? && !HasExpired(s[k].key.time.hybridTime, s[k].value.ttl, readTime)
    requires Survives(s[k].key.time, boundary)
    ensures ColumnValue(s, NonTransactional, doc, col, readTime) == Some(s[k].value.value.p)
  {
    NewestCellDecides(s, k, doc, col, readTime);
  }

  /** A non-transactional read of a column whose newest cell is a DEL, has expired, or is not
      newer than the document's boundary is null. */
  lemma NewestDeadCellReadsNull(s: seq<Entry>, k: nat, doc: DocKey, col: ColumnId, readTime: HybridTime,
                                boundary: Option<DocHybridTime>)
    requires NewestCellAt(s, k, doc, Column(col), readTime)
    requires DocBoundary(s, NonTransactional, doc, readTime) == boundary
    requires || s[k].value.value.Tombstone?
             || HasExpired(s[k].key.time.hybridTime, s[k].value.ttl, readTime)
             || !Survives(s[k].key.time, boundary)
    ensures ColumnValue(s, NonTransactional, doc, col, readTime) == None
  {
    NewestCellDecides(s, k, doc, col, readTime);
  }

  /** A non-transactional read of a column whose cells are all at or before document-level cell `k`
      is null. */
  lemma TombstoneHidesColumn(s: seq<Entry>, k: nat, doc: DocKey, col: ColumnId, readTime: HybridTime)
    requires k < |s| && IsRegularVersion(s[k], doc, DocRoot, readTime)
    requires forall i :: 0 <= i < |s| && IsRegularVersion(s[i], doc, Column(col), readTime)
                         ==> !Before(s[k].key.time, s[i].key.time)
    ensures ColumnValue(s, NonTransactional, doc, col, readTime) == None
  {
    NonTransactionalIgnoresIntents(s, doc, Column(col), readTime);
    forall w | w in Versions(s, NonTransactional, doc, Column(col), readTime) ensures !Before(s[k].key.time, w.time) {
      var e :| e in s && IsRegularVersion(e, doc, Column(col), readTime) && w == RegularVersionOf(e);
      var i :| 0 <= i < |s| && s[i] == e;
    }
    DocumentTombstoneHides(s, NonTransactional, doc, col, readTime, s[k]);
  }

  /** A document none of whose columns reads a value yields no row. */
  lemma NoLiveColumn(s: seq<Entry>, rs: ReadSpec, doc: DocKey)
    requires UnknownTransaction(s, rs.ctx, doc).None?
    requires forall c :: ColumnValue(s, rs.ctx, doc, c, rs.readTime).None?
    ensures ReadDocument(s, rs, doc) == Ok(None)
  {
    DocLiveIffSomeColumnLive(s, rs.ctx, doc, rs.readTime);
  }

  // ---------------------------------------------------------------------------
  // The versions of one path of a small fixed store

  /** `e` is not an intent of (`doc`, `sub`). */
  predicate NoIntentOn(e: Entry, doc: DocKey, sub: SubKey) {
    !(e.key.IntentKey? && e.key.doc == doc && e.key.subKey == sub)
  }

  /** `e` is not a regular cell of (`doc`, `sub`). */
  predicate NoCellOn(e: Entry, doc: DocKey, sub: SubKey) {
    !(e.key.RegularKey? && e.key.doc == doc && e.key.subKey == sub)
  }

  lemma {:induction false} NoIntentVersions(s: seq<Entry>, ctx: TxnContext, doc: DocKey, sub: SubKey, readTime: HybridTime)
    requires forall i :: 0 <= i < |s| ==> NoIntentOn(s[i], doc, sub)
    ensures IntentVersions(s, ctx, doc, sub, readTime) == []
  {
    if s != [] {
      assert NoIntentOn(s[0], doc, sub);
      NoIntentVersions(s[1..], ctx, doc, sub, readTime);
    }
  }

  lemma {:induction false} NoRegularVersions(s: seq<Entry>, doc: DocKey, sub: SubKey, readTime: HybridTime)
    requires forall i :: 0 <= i < |s| ==> NoCellOn(s[i], doc, sub)
    ensures RegularVersions(s, doc, sub, readTime) == []
  {
    if s != [] {
      assert NoCellOn(s[0], doc, sub);
      NoRegularVersions(s[1..], doc, sub, readTime);
    }
  }

  /** When the intents of (`doc`, `sub`) all lie in `s[lo..hi]`, only they give its intent versions. */
  lemma IntentVersionsOfSlice(s: seq<Entry>, ctx: TxnContext, doc: DocKey, sub: SubKey, readTime: HybridTime,
                              lo: nat, hi: nat)
    requires lo <= hi <= |s|
    requires forall i :: 0 <= i < lo ==> NoIntentOn(s[i], doc, sub)
    requires forall i :: hi <= i < |s| ==> NoIntentOn(s[i], doc, sub)
    ensures IntentVersions(s, ctx, doc, sub, readTime) == IntentVersions(s[lo..hi], ctx, doc, sub, readTime)
  {
    assert s == s[..lo] + s[lo..hi] + s[hi..];
    IntentVersionsAppend(s[..lo] + s[lo..hi], s[hi..], ctx, doc, sub, readTime);
    IntentVersionsAppend(s[..lo], s[lo..hi], ctx, doc, sub, readTime);
    NoIntentVersions(s[..lo], ctx, doc, sub, readTime);
    NoIntentVersions(s[hi..], ctx, doc, sub, readTime);
  }

  /** When the regular cells of (`doc`, `sub`) all lie in `s[lo..hi]`, only they give its regular versions. */
  lemma RegularVersionsOfSlice(s: seq<Entry>, doc: DocKey, sub: SubKey, readTime: HybridTime, lo: nat, hi: nat)
    requires lo <= hi <= |s|
    requires forall i :: 0 <= i < lo ==> NoCellOn(s[i], doc, sub)
    requires forall i :: hi <= i < |s| ==> NoCellOn(s[i], doc, sub)
    ensures RegularVersions(s, doc, sub, readTime) == RegularVersions(s[lo..hi], doc, sub, readTime)
  {
    assert s == s[..lo] + s[lo..hi] + s[hi..];
    RegularVersionsAppend(s[..lo] + s[lo..hi], s[hi..], doc, sub, readTime);
    RegularVersionsAppend(s[..lo], s[lo..hi], doc, sub, readTime);
    NoRegularVersions(s[..lo], doc, sub, readTime);
    NoRegularVersions(s[hi..], doc, sub, readTime);
  }

  /** When every transaction named by a strong intent of `doc` is known, no read of `doc` has to try again. */
  lemma TransactionsKnown(s: seq<Entry>, ctx: TxnContext, doc: DocKey)
    requires ctx.Transactional?
    requires forall i :: 0 <= i < |s| && IsStrongIntent(s[i], doc) ==> s[i].value.txn in ctx.commitTimes
    ensures UnknownTransaction(s, ctx, doc).None?
  {
  }

  /** The read of a document yields a row. */
  predicate HasRow(r: Result<Option<Row>, ReadError>) {
    r.Ok? && r.value.Some?
  }

  /** What a present column value reads as; an absent one reads as null. */
  function Lift(v: Option<PrimitiveValue>): QLValue {
    match v
    case None => Null
    case Some(p) => Val(p)
  }

  /** A column outside the key columns reads its value in the row of a live document. */
  lemma ColumnOfRow(s: seq<Entry>, rs: ReadSpec, doc: DocKey, id: ColumnId, v: Option<PrimitiveValue>)
    requires HasRow(ReadDocument(s, rs, doc))
    requires ColumnValue(s, rs.ctx, doc, id, rs.readTime) == v
    requires id in ValueColumnIds(rs.projection) && id !in KeyColumnIds(rs.schema)
    ensures GetValue(ReadDocument(s, rs, doc).value.value, id) == Lift(v)
  {
    ProjectedColumnsReadTheirValue(s, rs, doc, id);
  }

  // ---------------------------------------------------------------------------
  // Scans of a store of two documents

  /** Document `d` yields a row or an error. */
  ghost predicate Yields(s: seq<Entry>, rs: ReadSpec, d: DocKey) {
    ReadDocument(s, rs, d) != Ok(None)
  }

  /** Where a scan of a store holding the documents `d1 < d2` stops, from each position. */
  lemma TwoDocuments(s: seq<Entry>, rs: ReadSpec, d1: DocKey, d2: DocKey)
    requires CompareDocKeys(d1, d2) == Less
    requires forall x :: HasDocument(s, x) <==> x == d1 || x == d2
    ensures forall d :: NextFound(s, rs, None, d) <==>
                          (Yields(s, rs, d1) && d == d1) || (!Yields(s, rs, d1) && Yields(s, rs, d2) && d == d2)
    ensures AbsentAfter(s, rs, None) <==> !Yields(s, rs, d1) && !Yields(s, rs, d2)
    ensures forall d :: NextFound(s, rs, Some(d1), d) <==> Yields(s, rs, d2) && d == d2
    ensures AbsentAfter(s, rs, Some(d1)) <==> !Yields(s, rs, d2)
    ensures forall d :: !NextFound(s, rs, Some(d2), d)
    ensures AbsentAfter(s, rs, Some(d2))
    ensures d1 != d2
  {
    DocKeyOrder();
  }

  /** The outcome of the `i`-th call to take a row when the scan yields `rows`. */
  function NthRow(rows: seq<Row>, i: nat): Result<Row, ReadError> {
    if i < |rows| then Ok(rows[i]) else Err(EndOfIteration)
  }

  /** When both documents yield a row, the scan yields both rows. */
  lemma BothLive(r1: Result<Option<Row>, ReadError>, r2: Result<Option<Row>, ReadError>)
    requires HasRow(r1) && HasRow(r2)
    ensures LiveRows(r1, r2) == [r1.value.value, r2.value.value]
  {
  }

  /** When only the second document yields a row, the scan yields that row alone. */
  lemma SecondLive(r1: Result<Option<Row>, ReadError>, r2: Result<Option<Row>, ReadError>)
    requires r1 == Ok(None) && HasRow(r2)
    ensures LiveRows(r1, r2) == [r2.value.value]
  {
  }

  /** The rows of the documents `d1 < d2`, in key order, skipping documents that are not live. */
  function LiveRows(r1: Result<Option<Row>, ReadError>, r2: Result<Option<Row>, ReadError>): seq<Row>
    requires r1.Ok? && r2.Ok?
  {
    (if r1.value.Some? then [r1.value.value] else []) + (if r2.value.Some? then [r2.value.value] else [])
  }

  /** How many rows of the documents `d1 < d2` a scan has handed over once it is past `from`. */
  ghost function RowsBefore(s: seq<Entry>, rs: ReadSpec, d1: DocKey, d2: DocKey, from: Option<DocKey>): nat
    requires ReadDocument(s, rs, d1).Ok? && ReadDocument(s, rs, d2).Ok?
  {
    match from
    case None => 0
    case Some(d) =>
      if d == d1 then (if Yields(s, rs, d1) then 1 else 0)
      else |LiveRows(ReadDocument(s, rs, d1), ReadDocument(s, rs, d2))|
  }

  /** One take of a row, as the iterator promises it, from position `from` to position `to`. */
  lemma TakeStep(s: seq<Entry>, rs: ReadSpec, d1: DocKey, d2: DocKey, from: Option<DocKey>,
                 r: Result<Row, ReadError>, to: Option<DocKey>, failed: DocKey)
    requires CompareDocKeys(d1, d2) == Less
    requires forall x :: HasDocument(s, x) <==> x == d1 || x == d2
    requires ReadDocument(s, rs, d1).Ok? && ReadDocument(s, rs, d2).Ok?
    requires from == None || from == Some(d1) || from == Some(d2)
    requires r.Ok? ==> to.Some? && NextFound(s, rs, from, to.value) && ReadDocument(s, rs, to.value) == Ok(Some(r.value))
    requires r.Err? && r.error != EndOfIteration ==> NextFound(s, rs, from, failed) && ReadDocument(s, rs, failed) == Err(r.error)
    requires r == Err(EndOfIteration) ==> AbsentAfter(s, rs, from)
    requires r.Err? ==> to == from
    ensures var rows := LiveRows(ReadDocument(s, rs, d1), ReadDocument(s, rs, d2));
            && r == NthRow(rows, RowsBefore(s, rs, d1, d2, from))
            && RowsBefore(s, rs, d1, d2, from) <= |rows|
            && (r.Err? ==> RowsBefore(s, rs, d1, d2, from) == |rows|)
    ensures to == None || to == Some(d1) || to == Some(d2)
    ensures RowsBefore(s, rs, d1, d2, to) == RowsBefore(s, rs, d1, d2, from) + (if r.Ok? then 1 else 0)
  {
    TwoDocuments(s, rs, d1, d2);
  }

  /** The first answer to whether a row is there. */
  lemma AskStep(s: seq<Entry>, rs: ReadSpec, d1: DocKey, d2: DocKey, r: bool, d: DocKey)
    requires CompareDocKeys(d1, d2) == Less
    requires forall x :: HasDocument(s, x) <==> x == d1 || x == d2
    requires ReadDocument(s, rs, d1).Ok? && ReadDocument(s, rs, d2).Ok?
    requires r ==> NextFound(s, rs, None, d)
    requires !r ==> AbsentAfter(s, rs, None)
    ensures r == (|LiveRows(ReadDocument(s, rs, d1), ReadDocument(s, rs, d2))| > 0)
  {
    TwoDocuments(s, rs, d1, d2);
  }

  /** One take of a row from an iterator over a store of the documents `d1 < d2`. */
  method TakeRow(it: DocRowwiseIterator, ghost s: seq<Entry>, ghost rs: ReadSpec, ghost d1: DocKey, ghost d2: DocKey)
    returns (r: Result<Row, ReadError>)
    requires it.Valid() && it.state != Uninitialized && it.snapshot == s && it.Spec() == rs
    requires CompareDocKeys(d1, d2) == Less
    requires forall x :: HasDocument(s, x) <==> x == d1 || x == d2
    requires ReadDocument(s, rs, d1).Ok? && ReadDocument(s, rs, d2).Ok?
    requires it.returned == None || it.returned == Some(d1) || it.returned == Some(d2)
    modifies it
    ensures it.Valid() && it.state != Uninitialized && it.snapshot == s
    ensures it.returned == None || it.returned == Some(d1) || it.returned == Some(d2)
    ensures var rows := LiveRows(ReadDocument(s, rs, d1), ReadDocument(s, rs, d2));
            && r == NthRow(rows, RowsBefore(s, rs, d1, d2, old(it.returned)))
            && RowsBefore(s, rs, d1, d2, old(it.returned)) <= |rows|
            && (r.Err? ==> RowsBefore(s, rs, d1, d2, old(it.returned)) == |rows|)
    ensures RowsBefore(s, rs, d1, d2, it.returned) == RowsBefore(s, rs, d1, d2, old(it.returned)) + (if r.Ok? then 1 else 0)
  {
    ghost var from := it.returned;
    r := it.NextRow();
    TakeStep(s, rs, d1, d2, from, r, it.returned, if it.pending.Failed? then it.pending.doc else d1);
  }

  /** Opens an iterator over a store of the documents `d1 < d2` and asks twice whether a row is there. */
  method OpenAndAsk(db: DocDb, projection: Schema, schema: Schema, ctx: TxnContext, readTime: HybridTime,
                    ghost d1: DocKey, ghost d2: DocKey)
    returns (it: DocRowwiseIterator, firstAsk: bool, secondAsk: bool)
    requires db.Valid()
    requires MissingColumn(projection.columnIds, schema).None?
    requires CompareDocKeys(d1, d2) == Less
    requires forall x :: HasDocument(db.entries, x) <==> x == d1 || x == d2
    requires ReadDocument(db.entries, ReadSpec(schema, projection, ctx, readTime), d1).Ok?
    requires ReadDocument(db.entries, ReadSpec(schema, projection, ctx, readTime), d2).Ok?
    ensures fresh(it) && it.Valid() && it.state != Uninitialized && it.snapshot == db.entries
    ensures it.Spec() == ReadSpec(schema, projection, ctx, readTime) && it.returned.None?
    ensures var rs := ReadSpec(schema, projection, ctx, readTime);
            firstAsk == secondAsk == (|LiveRows(ReadDocument(db.entries, rs, d1), ReadDocument(db.entries, rs, d2))| > 0)
  {
    ghost var rs := ReadSpec(schema, projection, ctx, readTime);
    ghost var s := db.entries;
    it := new DocRowwiseIterator(projection, schema, ctx, db, readTime);
    var init := it.Init();
    assert it.Spec() == rs && it.snapshot == s && it.returned.None?;
    firstAsk := it.HasNext();
    AskStep(s, rs, d1, d2, firstAsk, if firstAsk then it.pending.doc else d1);
    secondAsk := it.HasNext();
  }

  /** The shape of the iterator tests: open an iterator on the store, ask twice whether a row
      is there, then take rows one after the other. Over a store of two documents it hands
      over exactly the rows of the live ones, in key order, and then reports the end. */
  method ScanTwoDocuments(db: DocDb, projection: Schema, schema: Schema, ctx: TxnContext, readTime: HybridTime,
                          ghost d1: DocKey, ghost d2: DocKey)
    returns (firstAsk: bool, secondAsk: bool, first: Result<Row, ReadError>, second: Result<Row, ReadError>,
             third: Result<Row, ReadError>)
    requires db.Valid()
    requires MissingColumn(projection.columnIds, schema).None?
    requires CompareDocKeys(d1, d2) == Less
    requires forall x :: HasDocument(db.entries, x) <==> x == d1 || x == d2
    requires ReadDocument(db.entries, ReadSpec(schema, projection, ctx, readTime), d1).Ok?
    requires ReadDocument(db.entries, ReadSpec(schema, projection, ctx, readTime), d2).Ok?
    ensures var rs := ReadSpec(schema, projection, ctx, readTime);
            var rows := LiveRows(ReadDocument(db.entries, rs, d1), ReadDocument(db.entries, rs, d2));
            && firstAsk == secondAsk == (|rows| > 0)
            && first == NthRow(rows, 0) && second == NthRow(rows, 1) && third == NthRow(rows, 2)
  {
    ghost var rs := ReadSpec(schema, projection, ctx, readTime);
    ghost var s := db.entries;
    var it;
    it, firstAsk, secondAsk := OpenAndAsk(db, projection, schema, ctx, readTime, d1, d2);
    first := TakeRow(it, s, rs, d1, d2);
    second := TakeRow(it, s, rs, d1, d2);
    third := TakeRow(it, s, rs, d1, d2);
  }

  // ---------------------------------------------------------------------------
  // Scans of a store of one document

  /** Where a scan of a store holding the one document `d` stops, from each position. */
  lemma OneDocument(s: seq<Entry>, rs: ReadSpec, d: DocKey)
    requires forall x :: HasDocument(s, x) <==> x == d
    ensures forall e :: NextFound(s, rs, None, e) <==> Yields(s, rs, d) && e == d
    ensures AbsentAfter(s, rs, None) <==> !Yields(s, rs, d)
    ensures forall e :: !NextFound(s, rs, Some(d), e)
    ensures AbsentAfter(s, rs, Some(d))
  {
    DocKeyOrder();
  }

  /** Opens an iterator over a store of the one document `d` and asks twice whether a row is there. */
  method OpenAndAskOne(db: DocDb, projection: Schema, schema: Schema, ctx: TxnContext, readTime: HybridTime,
                       ghost d: DocKey)
    returns (it: DocRowwiseIterator, firstAsk: bool, secondAsk: bool)
    requires db.Valid()
    requires MissingColumn(projection.columnIds, schema).None?
    requires forall x :: HasDocument(db.entries, x) <==> x == d
    ensures fresh(it) && it.Valid() && it.state != Uninitialized && it.snapshot == db.entries
    ensures it.Spec() == ReadSpec(schema, projection, ctx, readTime) && it.returned.None?
    ensures firstAsk == secondAsk == Yields(db.entries, ReadSpec(schema, projection, ctx, readTime), d)
  {
    ghost var rs := ReadSpec(schema, projection, ctx, readTime);
    OneDocument(db.entries, rs, d);
    it := new DocRowwiseIterator(projection, schema, ctx, db, readTime);
    var init := it.Init();
    assert it.Spec() == rs && it.snapshot == db.entries && it.returned.None?;
    firstAsk := it.HasNext();
    secondAsk := it.HasNext();
  }

  /** The shape of the iterator tests over a store of one document: the row of the document,
      if it is live, and then the end. */
  method ScanOneDocument(db: DocDb, projection: Schema, schema: Schema, ctx: TxnContext, readTime: HybridTime,
                         ghost d: DocKey)
    returns (firstAsk: bool, secondAsk: bool, first: Result<Row, ReadError>, second: Result<Row, ReadError>)
    requires db.Valid()
    requires MissingColumn(projection.columnIds, schema).None?
    requires forall x :: HasDocument(db.entries, x) <==> x == d
    requires ReadDocument(db.entries, ReadSpec(schema, projection, ctx, readTime), d).Ok?
    ensures var r := ReadDocument(db.entries, ReadSpec(schema, projection, ctx, readTime), d);
            && firstAsk == secondAsk == HasRow(r)
            && first == (if HasRow(r) then Ok(r.value.value) else Err(EndOfIteration))
            && second == Err(EndOfIteration)
  {
    ghost var rs := ReadSpec(schema, projection, ctx, readTime);
    ghost var s := db.entries;
    var it;
    it, firstAsk, secondAsk := OpenAndAskOne(db, projection, schema, ctx, readTime, d);
    OneDocument(s, rs, d);
    first := it.NextRow();
    assert first.Ok? ==> it.returned == Some(d);
    second := it.NextRow();
  }
}
