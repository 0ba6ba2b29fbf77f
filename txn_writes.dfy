/**
  The writes of the write-intents test (lines 680-734): transaction 1
  writes five columns at 500, eight regular writes follow, then
  transaction 2 deletes row 1 and writes one column at 4000. Each
  transactional write adds its intents to the intent section and its
  reverse-index entries to the reverse-index section and leaves the
  regular cells alone; each regular write leaves both of those sections
  alone. Following the writes one at a time, section by section, gives
  exactly the store the test's debug dump lists.
 */
module TransactionWrites {
  import opened Wrappers
  import opened HybridTimes
  import opened DocKeys
  import opened DocStore
  import opened DocWriteBatch
  import opened TestFixtures
  import opened TestWrites
  import opened TransactionTests

  /** The strong intent a transactional write of `v` at `doc`/`sub` stores. */
  function StrongIntent(doc: DocKey, sub: SubKey, ht: HybridTime, txn: TransactionId, v: Value): Entry {
    Entry(IntentKey(doc, sub, Strong, DocHybridTime(ht, 0)), IntentValue(txn, Some(v)))
  }

  /** The weak intent a transactional write under a column stores at its document. */
  function WeakIntent(doc: DocKey, ht: HybridTime, txn: TransactionId): Entry {
    Entry(IntentKey(doc, DocRoot, Weak, DocHybridTime(ht, 1)), IntentValue(txn, None))
  }

  /** The reverse-index entry from `txn` at (`ht`, `w`) to `intent`. */
  function ReverseOf(txn: TransactionId, ht: HybridTime, w: nat, intent: Entry): Entry {
    Entry(ReverseIndexKey(txn, DocHybridTime(ht, w)), ReverseIndexValue(intent.key))
  }

  lemma ColumnWriteIntents(doc: DocKey, col: ColumnId, v: Value, ht: HybridTime, txn: TransactionId)
    ensures IntentEntries(DocPath(doc, Column(col)), v, ht, txn)
         == [StrongIntent(doc, Column(col), ht, txn, v), ReverseOf(txn, ht, 0, StrongIntent(doc, Column(col), ht, txn, v)),
             WeakIntent(doc, ht, txn), ReverseOf(txn, ht, 1, WeakIntent(doc, ht, txn))]
  {
  }

  lemma DocumentWriteIntents(doc: DocKey, v: Value, ht: HybridTime, txn: TransactionId)
    ensures IntentEntries(DocPath(doc, DocRoot), v, ht, txn)
         == [StrongIntent(doc, DocRoot, ht, txn, v), ReverseOf(txn, ht, 0, StrongIntent(doc, DocRoot, ht, txn, v))]
  {
  }

  // ---------------------------------------------------------------------------
  // A transactional write, section by section

  /** Every entry of `s` is an intent. */
  ghost predicate IntentsOnly(s: seq<Entry>) {
    forall x :: x in s ==> Section(x.key) == 0
  }

  /** Every entry of `s` is a reverse-index entry. */
  ghost predicate ReverseOnly(s: seq<Entry>) {
    forall x :: x in s ==> Section(x.key) == 1
  }

  /** A store split into its intent section `I` and its reverse-index section `R`. */
  ghost predicate Split(I: seq<Entry>, R: seq<Entry>) {
    Sorted(I + R) && Sorted(I) && Sorted(R) && IntentsOnly(I) && ReverseOnly(R)
  }

  /** Two intents and two reverse-index entries, upserted alternately, go to their own sections. */
  lemma FourBySection(I: seq<Entry>, R: seq<Entry>, a: Entry, ra: Entry, w: Entry, rw: Entry)
    requires Sorted(I + R) && IntentsOnly(I) && ReverseOnly(R)
    requires Section(a.key) == 0 && Section(w.key) == 0 && Section(ra.key) == 1 && Section(rw.key) == 1
    ensures Sorted(I) && Sorted(R)
    ensures UpsertAll(I + R, [a, ra, w, rw]) == Upsert(Upsert(I, a), w) + Upsert(Upsert(R, ra), rw)
  {
    UpsertAllFour(I + R, a, ra, w, rw);
    UpsertAllTwo(I + R, a, ra);
    UpsertInFront(I, R, a);
    var i1 := Upsert(I, a);
    UpsertBehind(i1, R, ra);
    var r1 := Upsert(R, ra);
    UpsertInFront(i1, r1, w);
    UpsertBehind(Upsert(i1, w), r1, rw);
  }

  /** A transactional write under a column adds its strong and then its weak intent to the
      intent section, and their reverse-index entries to the reverse-index section. */
  lemma ColumnWriteBySection(I: seq<Entry>, R: seq<Entry>, doc: DocKey, col: ColumnId, v: Value,
                             ht: HybridTime, txn: TransactionId, I': seq<Entry>, R': seq<Entry>)
    requires Split(I, R)
    requires Upsert(Upsert(I, StrongIntent(doc, Column(col), ht, txn, v)), WeakIntent(doc, ht, txn)) == I'
    requires Upsert(Upsert(R, ReverseOf(txn, ht, 0, StrongIntent(doc, Column(col), ht, txn, v))),
                    ReverseOf(txn, ht, 1, WeakIntent(doc, ht, txn))) == R'
    ensures Split(I', R')
    ensures UpsertAll(I + R, IntentEntries(DocPath(doc, Column(col)), v, ht, txn)) == I' + R'
  {
    var a, w := StrongIntent(doc, Column(col), ht, txn, v), WeakIntent(doc, ht, txn);
    ColumnWriteIntents(doc, col, v, ht, txn);
    FourBySection(I, R, a, ReverseOf(txn, ht, 0, a), w, ReverseOf(txn, ht, 1, w));
  }

  /** A transactional write of a whole document adds its strong intent to the intent section
      and its reverse-index entry to the reverse-index section. */
  lemma DocumentWriteBySection(I: seq<Entry>, R: seq<Entry>, doc: DocKey, v: Value,
                               ht: HybridTime, txn: TransactionId, I': seq<Entry>, R': seq<Entry>)
    requires Split(I, R)
    requires Upsert(I, StrongIntent(doc, DocRoot, ht, txn, v)) == I'
    requires Upsert(R, ReverseOf(txn, ht, 0, StrongIntent(doc, DocRoot, ht, txn, v))) == R'
    ensures Split(I', R')
    ensures UpsertAll(I + R, IntentEntries(DocPath(doc, DocRoot), v, ht, txn)) == I' + R'
  {
    var a := StrongIntent(doc, DocRoot, ht, txn, v);
    DocumentWriteIntents(doc, v, ht, txn);
    UpsertAllTwo(I + R, a, ReverseOf(txn, ht, 0, a));
    UpsertInFront(I, R, a);
    UpsertBehind(Upsert(I, a), R, ReverseOf(txn, ht, 0, a));
  }

  // ---------------------------------------------------------------------------
  // Where a new intent or reverse-index entry goes

  lemma IntentRootFirst(d: DocKey, c: ColumnId, st1: IntentStrength, st2: IntentStrength, t1: DocHybridTime, t2: DocHybridTime)
    ensures CompareKeys(IntentKey(d, DocRoot, st1, t1), IntentKey(d, Column(c), st2, t2)) == Less
  {
    DocKeyOrder();
  }

  lemma IntentLaterColumn(d: DocKey, a: ColumnId, b: ColumnId, t1: DocHybridTime, t2: DocHybridTime)
    requires a < b
    ensures CompareKeys(IntentKey(d, Column(a), Strong, t1), IntentKey(d, Column(b), Strong, t2)) == Less
  {
    DocKeyOrder();
  }

  lemma IntentOtherDocument(a: SubKey, b: SubKey, st1: IntentStrength, st2: IntentStrength, t1: DocHybridTime, t2: DocHybridTime)
    ensures CompareKeys(IntentKey(Key1, a, st1, t1), IntentKey(Key2, b, st2, t2)) == Less
  {
    KeysAscend();
  }

  lemma WeakBeforeStrong(d: DocKey, sub: SubKey, t1: DocHybridTime, t2: DocHybridTime)
    ensures CompareKeys(IntentKey(d, sub, Weak, t1), IntentKey(d, sub, Strong, t2)) == Less
  {
    DocKeyOrder();
    SubKeyOrder();
  }

  lemma IntentOlderAfter(d: DocKey, sub: SubKey, st: IntentStrength, t1: DocHybridTime, t2: DocHybridTime)
    requires Before(t2, t1)
    ensures CompareKeys(IntentKey(d, sub, st, t1), IntentKey(d, sub, st, t2)) == Less
  {
    DocKeyOrder();
    SubKeyOrder();
  }

  lemma ReverseOlderAfter(x: TransactionId, t1: DocHybridTime, t2: DocHybridTime)
    requires Before(t2, t1)
    ensures CompareKeys(ReverseIndexKey(x, t1), ReverseIndexKey(x, t2)) == Less
  {
  }

  lemma ReverseLaterTransaction(x1: TransactionId, x2: TransactionId, t1: DocHybridTime, t2: DocHybridTime)
    requires x1 < x2
    ensures CompareKeys(ReverseIndexKey(x1, t1), ReverseIndexKey(x2, t2)) == Less
  {
  }

  // ---------------------------------------------------------------------------
  // The intents and reverse-index entries of the test

  const Row1CT1 := StrongIntent(Key1, Column(30), 500, Txn1, Primitive(String("row1_c_t1")))
  const Row1DT1 := StrongIntent(Key1, Column(40), 500, Txn1, Primitive(Int64(40000)))
  const Row1ET1 := StrongIntent(Key1, Column(50), 500, Txn1, Primitive(String("row1_e_t1")))
  const Row2DT1 := StrongIntent(Key2, Column(40), 500, Txn1, Primitive(Int64(42000)))
  const Row2ET1 := StrongIntent(Key2, Column(50), 500, Txn1, Primitive(String("row2_e_t1")))
  const Row1WeakT1 := WeakIntent(Key1, 500, Txn1)
  const Row2WeakT1 := WeakIntent(Key2, 500, Txn1)
  const Row1DelT2 := StrongIntent(Key1, DocRoot, 4000, Txn2, Tombstone)
  const Row2ET2 := StrongIntent(Key2, Column(50), 4000, Txn2, Primitive(String("row2_e_t2")))
  const Row2WeakT2 := WeakIntent(Key2, 4000, Txn2)

  const RevRow1C := ReverseOf(Txn1, 500, 0, Row1CT1)
  const RevRow1D := ReverseOf(Txn1, 500, 0, Row1DT1)
  const RevRow1E := ReverseOf(Txn1, 500, 0, Row1ET1)
  const RevRow2D := ReverseOf(Txn1, 500, 0, Row2DT1)
  const RevRow2E := ReverseOf(Txn1, 500, 0, Row2ET1)
  const RevRow1Weak := ReverseOf(Txn1, 500, 1, Row1WeakT1)
  const RevRow2Weak := ReverseOf(Txn1, 500, 1, Row2WeakT1)
  const RevRow1Del := ReverseOf(Txn2, 4000, 0, Row1DelT2)
  const RevRow2ET2 := ReverseOf(Txn2, 4000, 0, Row2ET2)
  const RevRow2WeakT2 := ReverseOf(Txn2, 4000, 1, Row2WeakT2)

  const Intents1: seq<Entry> := [Row1CT1]
  const Intents2: seq<Entry> := [Row1WeakT1, Row1CT1]
  const Intents3: seq<Entry> := [Row1WeakT1, Row1CT1, Row1DT1]
  const Intents4: seq<Entry> := [Row1WeakT1, Row1CT1, Row1DT1, Row1ET1]
  const Intents5: seq<Entry> := [Row1WeakT1, Row1CT1, Row1DT1, Row1ET1, Row2DT1]
  const Intents6: seq<Entry> := [Row1WeakT1, Row1CT1, Row1DT1, Row1ET1, Row2WeakT1, Row2DT1]
  const Intents7: seq<Entry> := [Row1WeakT1, Row1CT1, Row1DT1, Row1ET1, Row2WeakT1, Row2DT1, Row2ET1]
  const Intents8: seq<Entry> := [Row1WeakT1, Row1DelT2, Row1CT1, Row1DT1, Row1ET1, Row2WeakT1, Row2DT1, Row2ET1]
  const Intents9: seq<Entry> :=
    [Row1WeakT1, Row1DelT2, Row1CT1, Row1DT1, Row1ET1, Row2WeakT1, Row2DT1, Row2ET2, Row2ET1]
  const Intents10: seq<Entry> :=
    [Row1WeakT1, Row1DelT2, Row1CT1, Row1DT1, Row1ET1, Row2WeakT2, Row2WeakT1, Row2DT1, Row2ET2, Row2ET1]

  const Reverse1: seq<Entry> := [RevRow1C]
  const Reverse2: seq<Entry> := [RevRow1Weak, RevRow1C]
  const Reverse3: seq<Entry> := [RevRow1Weak, RevRow1D]
  const Reverse4: seq<Entry> := [RevRow1Weak, RevRow1E]
  const Reverse5: seq<Entry> := [RevRow1Weak, RevRow2D]
  const Reverse6: seq<Entry> := [RevRow2Weak, RevRow2D]
  const Reverse7: seq<Entry> := [RevRow2Weak, RevRow2E]
  const Reverse8: seq<Entry> := [RevRow2Weak, RevRow2E, RevRow1Del]
  const Reverse9: seq<Entry> := [RevRow2Weak, RevRow2E, RevRow2ET2]
  const Reverse10: seq<Entry> := [RevRow2Weak, RevRow2E, RevRow2WeakT2, RevRow2ET2]

  /** The store the five writes of transaction 1 (lines 680-696) leave. */
  function Txn1Store(): seq<Entry> {
    var s := UpsertAll([], IntentEntries(DocPath(Key1, Column(30)), Primitive(String("row1_c_t1")), 500, Txn1));
    var s := UpsertAll(s, IntentEntries(DocPath(Key1, Column(40)), Primitive(Int64(40000)), 500, Txn1));
    var s := UpsertAll(s, IntentEntries(DocPath(Key1, Column(50)), Primitive(String("row1_e_t1")), 500, Txn1));
    var s := UpsertAll(s, IntentEntries(DocPath(Key2, Column(40)), Primitive(Int64(42000)), 500, Txn1));
    UpsertAll(s, IntentEntries(DocPath(Key2, Column(50)), Primitive(String("row2_e_t1")), 500, Txn1))
  }

  /** The store the two writes of transaction 2 (lines 727-734) leave on top of `base`. */
  function Txn2WritesOnto(base: seq<Entry>): seq<Entry>
    requires Sorted(base)
  {
    var s := UpsertAll(base, IntentEntries(DocPath(Key1, DocRoot), Tombstone, 4000, Txn2));
    UpsertAll(s, IntentEntries(DocPath(Key2, Column(50)), Primitive(String("row2_e_t2")), 4000, Txn2))
  }

  /** The store the writes of lines 680-734 leave. */
  function TxnWrites(): seq<Entry> {
    Txn2WritesOnto(MainWritesOnto(Txn1Store()))
  }

  // ---------------------------------------------------------------------------
  // Sequence shapes the intent section passes through

  lemma Snoc5<T>(a: T, b: T, c: T, d: T, e: T)
    ensures [a, b, c, d] + [e] == [a, b, c, d, e]
  {
  }

  lemma Snoc7<T>(a: T, b: T, c: T, d: T, e: T, f: T, g: T)
    ensures [a, b, c, d, e, f] + [g] == [a, b, c, d, e, f, g]
  {
  }

  lemma Insert4Of5<T>(a: T, b: T, c: T, d: T, e: T, x: T)
    ensures [a, b, c, d, e][..4] + [x] + [a, b, c, d, e][4..] == [a, b, c, d, x, e]
  {
  }

  lemma Insert1Of7<T>(a: T, b: T, c: T, d: T, e: T, f: T, g: T, x: T)
    ensures [a, b, c, d, e, f, g][..1] + [x] + [a, b, c, d, e, f, g][1..] == [a, x, b, c, d, e, f, g]
  {
  }

  lemma Insert7Of8<T>(a: T, b: T, c: T, d: T, e: T, f: T, g: T, h: T, x: T)
    ensures [a, b, c, d, e, f, g, h][..7] + [x] + [a, b, c, d, e, f, g, h][7..] == [a, b, c, d, e, f, g, x, h]
  {
  }

  lemma Insert5Of9<T>(a: T, b: T, c: T, d: T, e: T, f: T, g: T, h: T, i: T, x: T)
    ensures [a, b, c, d, e, f, g, h, i][..5] + [x] + [a, b, c, d, e, f, g, h, i][5..]
         == [a, b, c, d, e, x, f, g, h, i]
  {
  }

  // ---------------------------------------------------------------------------
  // Transaction 1 at 500

  /** Row 1, column 30: the weak intent at the document sorts before the strong one. */
  lemma Row1CIntents()
    ensures Upsert(Upsert([], Row1CT1), Row1WeakT1) == Intents2
  {
    IntentRootFirst(Key1, 30, Weak, Strong, DocHybridTime(500, 1), DocHybridTime(500, 0));
    UpsertPrepend(Intents1, Row1WeakT1);
    Pair(Row1WeakT1, Row1CT1);
  }

  /** The reverse entry of write id 1 sorts before the one of write id 0. */
  lemma Row1CReverse()
    ensures Upsert(Upsert([], RevRow1C), RevRow1Weak) == Reverse2
  {
    ReverseOlderAfter(Txn1, DocHybridTime(500, 1), DocHybridTime(500, 0));
    UpsertPrepend(Reverse1, RevRow1Weak);
    Pair(RevRow1Weak, RevRow1C);
  }

  /** A later column of row 1: its strong intent goes last; the weak intent is written again unchanged. */
  lemma Row1DIntents(I: seq<Entry>)
    requires I == Intents2 && Sorted(I)
    ensures Upsert(Upsert(I, Row1DT1), Row1WeakT1) == Intents3
  {
    IntentLaterColumn(Key1, 30, 40, DocHybridTime(500, 0), DocHybridTime(500, 0));
    UpsertAppend(I, Row1DT1);
    Triple(Row1WeakT1, Row1CT1, Row1DT1);
    UpsertSame(Intents3, Row1WeakT1);
  }

  /** The reverse entry at write id 0 now points at the new strong intent. */
  lemma Row1DReverse(R: seq<Entry>)
    requires R == Reverse2 && Sorted(R)
    ensures Upsert(Upsert(R, RevRow1D), RevRow1Weak) == Reverse3
  {
    UpsertReplaces(R, 1, RevRow1D);
    assert R[..1] + [RevRow1D] + R[2..] == Reverse3;
    UpsertSame(Reverse3, RevRow1Weak);
  }

  lemma Row1EIntents(I: seq<Entry>)
    requires I == Intents3 && Sorted(I)
    ensures Upsert(Upsert(I, Row1ET1), Row1WeakT1) == Intents4
  {
    IntentLaterColumn(Key1, 40, 50, DocHybridTime(500, 0), DocHybridTime(500, 0));
    UpsertAppend(I, Row1ET1);
    Quadruple(Row1WeakT1, Row1CT1, Row1DT1, Row1ET1);
    UpsertSame(Intents4, Row1WeakT1);
  }

  lemma Row1EReverse(R: seq<Entry>)
    requires R == Reverse3 && Sorted(R)
    ensures Upsert(Upsert(R, RevRow1E), RevRow1Weak) == Reverse4
  {
    UpsertReplaces(R, 1, RevRow1E);
    assert R[..1] + [RevRow1E] + R[2..] == Reverse4;
    UpsertSame(Reverse4, RevRow1Weak);
  }

  /** Row 2: its strong intent goes last and its weak intent between row 1 and it. */
  lemma Row2DIntents(I: seq<Entry>)
    requires I == Intents4 && Sorted(I)
    ensures Upsert(Upsert(I, Row2DT1), Row2WeakT1) == Intents6
  {
    IntentOtherDocument(Column(50), Column(40), Strong, Strong, DocHybridTime(500, 0), DocHybridTime(500, 0));
    UpsertAppend(I, Row2DT1);
    Snoc5(Row1WeakT1, Row1CT1, Row1DT1, Row1ET1, Row2DT1);
    IntentOtherDocument(Column(50), DocRoot, Strong, Weak, DocHybridTime(500, 0), DocHybridTime(500, 1));
    IntentRootFirst(Key2, 40, Weak, Strong, DocHybridTime(500, 1), DocHybridTime(500, 0));
    UpsertAt(Intents5, 4, Row2WeakT1);
    Insert4Of5(Row1WeakT1, Row1CT1, Row1DT1, Row1ET1, Row2DT1, Row2WeakT1);
  }

  /** The weak intent of row 2 has the reverse key of the weak intent of row 1, and replaces it. */
  lemma Row2DReverse(R: seq<Entry>)
    requires R == Reverse4 && Sorted(R)
    ensures Upsert(Upsert(R, RevRow2D), RevRow2Weak) == Reverse6
  {
    UpsertReplaces(R, 1, RevRow2D);
    assert R[..1] + [RevRow2D] + R[2..] == Reverse5;
    UpsertReplaces(Reverse5, 0, RevRow2Weak);
    assert Reverse5[..0] + [RevRow2Weak] + Reverse5[1..] == Reverse6;
  }

  lemma Row2EIntents(I: seq<Entry>)
    requires I == Intents6 && Sorted(I)
    ensures Upsert(Upsert(I, Row2ET1), Row2WeakT1) == Intents7
  {
    IntentLaterColumn(Key2, 40, 50, DocHybridTime(500, 0), DocHybridTime(500, 0));
    UpsertAppend(I, Row2ET1);
    Snoc7(Row1WeakT1, Row1CT1, Row1DT1, Row1ET1, Row2WeakT1, Row2DT1, Row2ET1);
    UpsertSame(Intents7, Row2WeakT1);
  }

  lemma Row2EReverse(R: seq<Entry>)
    requires R == Reverse6 && Sorted(R)
    ensures Upsert(Upsert(R, RevRow2E), RevRow2Weak) == Reverse7
  {
    UpsertReplaces(R, 1, RevRow2E);
    assert R[..1] + [RevRow2E] + R[2..] == Reverse7;
    UpsertSame(Reverse7, RevRow2Weak);
  }

  /** The five writes of transaction 1, lines 680-696. */
  lemma Txn1Writes()
    ensures Txn1Store() == Intents7 + Reverse7
    ensures Split(Intents7, Reverse7)
  {
    var empty: seq<Entry> := [];
    assert empty + empty == empty;
    Row1CIntents();
    Row1CReverse();
    ColumnWriteBySection(empty, empty, Key1, 30, Primitive(String("row1_c_t1")), 500, Txn1, Intents2, Reverse2);
    Row1DIntents(Intents2);
    Row1DReverse(Reverse2);
    ColumnWriteBySection(Intents2, Reverse2, Key1, 40, Primitive(Int64(40000)), 500, Txn1, Intents3, Reverse3);
    Row1EIntents(Intents3);
    Row1EReverse(Reverse3);
    ColumnWriteBySection(Intents3, Reverse3, Key1, 50, Primitive(String("row1_e_t1")), 500, Txn1, Intents4, Reverse4);
    Row2DIntents(Intents4);
    Row2DReverse(Reverse4);
    ColumnWriteBySection(Intents4, Reverse4, Key2, 40, Primitive(Int64(42000)), 500, Txn1, Intents6, Reverse6);
    Row2EIntents(Intents6);
    Row2EReverse(Reverse6);
    ColumnWriteBySection(Intents6, Reverse6, Key2, 50, Primitive(String("row2_e_t1")), 500, Txn1, Intents7, Reverse7);
  }

  // ---------------------------------------------------------------------------
  // The regular writes, behind the intents

  lemma MainStoreIsRegular()
    ensures SectionsAbove(MainStore8, 1)
  {
  }

  /** The first four regular writes of lines 698-710 leave the entries of earlier sections in front alone. */
  lemma FirstMainWritesBehind(p: seq<Entry>)
    requires Sorted(p) && SectionsBelow(p, 2)
    ensures ApplyOps(ApplyOps(ApplyOps(ApplyOps(p, [PutRow1C], 1000), [PutRow1D], 1000), [PutRow1E], 1000), [PutRow2D], 2000)
         == p + ApplyOps(ApplyOps(ApplyOps(ApplyOps([], [PutRow1C], 1000), [PutRow1D], 1000), [PutRow1E], 1000), [PutRow2D], 2000)
  {
    assert p + [] == p;
    ApplyOpsBehind(p, [], [PutRow1C], 1000);
    var s1 := ApplyOps([], [PutRow1C], 1000);
    ApplyOpsBehind(p, s1, [PutRow1D], 1000);
    var s2 := ApplyOps(s1, [PutRow1D], 1000);
    ApplyOpsBehind(p, s2, [PutRow1E], 1000);
    var s3 := ApplyOps(s2, [PutRow1E], 1000);
    ApplyOpsBehind(p, s3, [PutRow2D], 2000);
  }

  /** The last four regular writes of lines 712-723 leave the entries of earlier sections in front alone. */
  lemma LastMainWritesBehind(p: seq<Entry>, g: seq<Entry>)
    requires Sorted(p + g) && SectionsBelow(p, 2)
    ensures Sorted(g)
    ensures ApplyOps(ApplyOps(ApplyOps(ApplyOps(p + g, [DeleteRow2D], 2500), [PutRow2DAgain], 3000), [PutRow2E], 2000), [PutRow2EPrime], 4000)
         == p + ApplyOps(ApplyOps(ApplyOps(ApplyOps(g, [DeleteRow2D], 2500), [PutRow2DAgain], 3000), [PutRow2E], 2000), [PutRow2EPrime], 4000)
  {
    ApplyOpsBehind(p, g, [DeleteRow2D], 2500);
    var s1 := ApplyOps(g, [DeleteRow2D], 2500);
    ApplyOpsBehind(p, s1, [PutRow2DAgain], 3000);
    var s2 := ApplyOps(s1, [PutRow2DAgain], 3000);
    ApplyOpsBehind(p, s2, [PutRow2E], 2000);
    var s3 := ApplyOps(s2, [PutRow2E], 2000);
    ApplyOpsBehind(p, s3, [PutRow2EPrime], 4000);
  }

  /** The eight regular writes of lines 698-723 leave the entries of earlier sections in front alone. */
  lemma MainWritesBehind(p: seq<Entry>)
    requires Sorted(p) && SectionsBelow(p, 2)
    ensures MainWritesOnto(p) == p + MainWrites()
  {
    FirstMainWritesBehind(p);
    var g := ApplyOps(ApplyOps(ApplyOps(ApplyOps([], [PutRow1C], 1000), [PutRow1D], 1000), [PutRow1E], 1000), [PutRow2D], 2000);
    LastMainWritesBehind(p, g);
  }

  // ---------------------------------------------------------------------------
  // Transaction 2 at 4000, in front of the regular cells

  /** The document DEL of row 1: its strong intent sorts after the weak intent of the same document. */
  lemma Row1DelIntents(I: seq<Entry>)
    requires I == Intents7 && Sorted(I)
    ensures Upsert(I, Row1DelT2) == Intents8
  {
    WeakBeforeStrong(Key1, DocRoot, DocHybridTime(500, 1), DocHybridTime(4000, 0));
    IntentRootFirst(Key1, 30, Strong, Strong, DocHybridTime(4000, 0), DocHybridTime(500, 0));
    UpsertAt(I, 1, Row1DelT2);
    Insert1Of7(Row1WeakT1, Row1CT1, Row1DT1, Row1ET1, Row2WeakT1, Row2DT1, Row2ET1, Row1DelT2);
  }

  /** Transaction 2 sorts after transaction 1 in the reverse index. */
  lemma Row1DelReverse(R: seq<Entry>)
    requires R == Reverse7 && Sorted(R)
    ensures Upsert(R, RevRow1Del) == Reverse8
  {
    ReverseLaterTransaction(Txn1, Txn2, DocHybridTime(500, 0), DocHybridTime(4000, 0));
    UpsertAppend(R, RevRow1Del);
    assert R + [RevRow1Del] == Reverse8;
  }

  /** The newer strong intent of row 2, column 50 sorts before the older one of transaction 1. */
  lemma Row2ET2StrongIntent(I: seq<Entry>)
    requires I == Intents8 && Sorted(I)
    ensures Upsert(I, Row2ET2) == Intents9
  {
    IntentLaterColumn(Key2, 40, 50, DocHybridTime(500, 0), DocHybridTime(4000, 0));
    IntentOlderAfter(Key2, Column(50), Strong, DocHybridTime(4000, 0), DocHybridTime(500, 0));
    UpsertAt(I, 7, Row2ET2);
    Insert7Of8(Row1WeakT1, Row1DelT2, Row1CT1, Row1DT1, Row1ET1, Row2WeakT1, Row2DT1, Row2ET1, Row2ET2);
  }

  /** The newer weak intent of row 2 sorts before the older one of transaction 1. */
  lemma Row2ET2WeakIntent(I: seq<Entry>)
    requires I == Intents9 && Sorted(I)
    ensures Upsert(I, Row2WeakT2) == Intents10
  {
    IntentOtherDocument(Column(50), DocRoot, Strong, Weak, DocHybridTime(500, 0), DocHybridTime(4000, 1));
    IntentOlderAfter(Key2, DocRoot, Weak, DocHybridTime(4000, 1), DocHybridTime(500, 1));
    UpsertAt(I, 5, Row2WeakT2);
    Insert5Of9(Row1WeakT1, Row1DelT2, Row1CT1, Row1DT1, Row1ET1, Row2WeakT1, Row2DT1, Row2ET2, Row2ET1, Row2WeakT2);
  }

  /** The reverse entry at write id 0 of transaction 2 now points at the column intent. */
  lemma Row2ET2StrongReverse(R: seq<Entry>)
    requires R == Reverse8 && Sorted(R)
    ensures Upsert(R, RevRow2ET2) == Reverse9
  {
    UpsertReplaces(R, 2, RevRow2ET2);
    assert R[..2] + [RevRow2ET2] + R[3..] == Reverse9;
  }

  lemma Row2ET2WeakReverse(R: seq<Entry>)
    requires R == Reverse9 && Sorted(R)
    ensures Upsert(R, RevRow2WeakT2) == Reverse10
  {
    ReverseLaterTransaction(Txn1, Txn2, DocHybridTime(500, 0), DocHybridTime(4000, 1));
    ReverseOlderAfter(Txn2, DocHybridTime(4000, 1), DocHybridTime(4000, 0));
    UpsertAt(R, 2, RevRow2WeakT2);
    assert R[..2] + [RevRow2WeakT2] + R[2..] == Reverse10;
  }

  /** The document DEL of transaction 2, lines 728-730, in front of the regular cells. */
  lemma Txn2DeleteRow1(I: seq<Entry>, R: seq<Entry>, G: seq<Entry>)
    requires I == Intents7 && R == Reverse7 && Split(I, R) && Sorted(I + R + G) && SectionsAbove(G, 1)
    ensures UpsertAll(I + R + G, IntentEntries(DocPath(Key1, DocRoot), Tombstone, 4000, Txn2)) == Intents8 + Reverse8 + G
    ensures Split(Intents8, Reverse8)
  {
    DocumentWriteIntents(Key1, Tombstone, 4000, Txn2);
    UpsertAllInFront(I + R, G, IntentEntries(DocPath(Key1, DocRoot), Tombstone, 4000, Txn2));
    Row1DelIntents(I);
    Row1DelReverse(R);
    DocumentWriteBySection(I, R, Key1, Tombstone, 4000, Txn2, Intents8, Reverse8);
  }

  /** The column write of transaction 2, lines 731-733, in front of the regular cells. */
  lemma Txn2WriteRow2E(I: seq<Entry>, R: seq<Entry>, G: seq<Entry>)
    requires I == Intents8 && R == Reverse8 && Split(I, R) && Sorted(I + R + G) && SectionsAbove(G, 1)
    ensures UpsertAll(I + R + G, IntentEntries(DocPath(Key2, Column(50)), Primitive(String("row2_e_t2")), 4000, Txn2))
         == Intents10 + Reverse10 + G
  {
    ColumnWriteIntents(Key2, 50, Primitive(String("row2_e_t2")), 4000, Txn2);
    UpsertAllInFront(I + R, G, IntentEntries(DocPath(Key2, Column(50)), Primitive(String("row2_e_t2")), 4000, Txn2));
    Row2ET2StrongIntent(I);
    Row2ET2WeakIntent(Intents9);
    Row2ET2StrongReverse(R);
    Row2ET2WeakReverse(Reverse9);
    ColumnWriteBySection(I, R, Key2, 50, Primitive(String("row2_e_t2")), 4000, Txn2, Intents10, Reverse10);
  }

  lemma StoreAfterTxn2IsDump()
    ensures IsStoreT(Intents10 + Reverse10 + MainStore8)
  {
  }

  /** Transaction 1 and the regular writes, lines 680-723, leave its intents in front of the regular cells. */
  lemma Txn1AndMainWrites()
    ensures MainWritesOnto(Txn1Store()) == Intents7 + Reverse7 + MainStore8
    ensures Split(Intents7, Reverse7)
  {
    Txn1Writes();
    var p := Intents7 + Reverse7;
    assert SectionsBelow(p, 2);
    MainWritesBehind(p);
    MainWritesAreMainStore();
  }

  /** The writes of lines 680-734 leave transaction 2's intents inserted among transaction 1's. */
  lemma TxnWritesAreStore()
    ensures TxnWrites() == Intents10 + Reverse10 + MainStore8
  {
    Txn1AndMainWrites();
    MainStoreIsRegular();
    Txn2DeleteRow1(Intents7, Reverse7, MainStore8);
    Txn2WriteRow2E(Intents8, Reverse8, MainStore8);
  }

  /** The writes of lines 680-734 leave the store of lines 737-774. */
  lemma TxnWritesGiveDump()
    ensures IsStoreT(TxnWrites())
  {
    TxnWritesAreStore();
    StoreAfterTxn2IsDump();
  }

  /** The writes of lines 680-734 as the test makes them; the current transaction becomes the
      last argument of each write. */
  method WriteResolveIntents(db: DocDb)
    requires db.Valid() && db.entries == []
    modifies db
    ensures db.Valid() && db.entries == TxnWrites()
  {
    db.SetPrimitive(DocPath(Key1, Column(30)), Primitive(String("row1_c_t1")), 500, Some(Txn1));
    db.SetPrimitive(DocPath(Key1, Column(40)), Primitive(Int64(40000)), 500, Some(Txn1));
    db.SetPrimitive(DocPath(Key1, Column(50)), Primitive(String("row1_e_t1")), 500, Some(Txn1));
    db.SetPrimitive(DocPath(Key2, Column(40)), Primitive(Int64(42000)), 500, Some(Txn1));
    db.SetPrimitive(DocPath(Key2, Column(50)), Primitive(String("row2_e_t1")), 500, Some(Txn1));
    db.SetPrimitive(DocPath(Key1, Column(30)), Primitive(String("row1_c")), 1000, None);
    db.SetPrimitive(DocPath(Key1, Column(40)), Primitive(Int64(10000)), 1000, None);
    db.SetPrimitive(DocPath(Key1, Column(50)), Primitive(String("row1_e")), 1000, None);
    db.SetPrimitive(DocPath(Key2, Column(40)), Primitive(Int64(20000)), 2000, None);
    db.DeleteSubDoc(DocPath(Key2, Column(40)), 2500, None);
    db.SetPrimitive(DocPath(Key2, Column(40)), Primitive(Int64(30000)), 3000, None);
    db.SetPrimitive(DocPath(Key2, Column(50)), Primitive(String("row2_e")), 2000, None);
    db.SetPrimitive(DocPath(Key2, Column(50)), Primitive(String("row2_e_prime")), 4000, None);
    db.DeleteSubDoc(DocPath(Key1, DocRoot), 4000, Some(Txn2));
    db.SetPrimitive(DocPath(Key2, Column(50)), Primitive(String("row2_e_t2")), 4000, Some(Txn2));
  }
}
