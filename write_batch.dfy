/**
  The write side the read path is exercised against: a write batch that
  collects operations and is applied at one hybrid time, each operation
  getting its index in the batch as write id; and single writes, outside
  or inside a transaction. A transactional write stores intents (a strong
  intent at the written path and, under a column, a weak intent at the
  document) together with reverse-index entries from the transaction to
  each intent.
 */
module DocWriteBatch {
  import opened Wrappers
  import opened HybridTimes
  import opened DocKeys
  import opened DocStore

  /** A document, or one column of it. */
  datatype DocPath = DocPath(doc: DocKey, subKey: SubKey)

  /** One write of a batch: a value or a DEL at a path, with an optional TTL in microseconds. */
  datatype WriteOp = WriteOp(path: DocPath, value: Value, ttl: Option<nat>)

  /** The regular cell a batch operation becomes. */
  function CellOf(op: WriteOp, ht: HybridTime, writeId: nat): Entry {
    Entry(RegularKey(op.path.doc, op.path.subKey, DocHybridTime(ht, writeId)), RegularValue(op.value, op.ttl))
  }

  /** `r` holds the cells of `ops` applied at `ht`, and the entries of `s` that none of them replaces. */
  ghost predicate HoldsOps(r: seq<Entry>, s: seq<Entry>, ops: seq<WriteOp>, ht: HybridTime) {
    forall x :: x in r <==> (exists i :: 0 <= i < |ops| && x == CellOf(ops[i], ht, i))
                            || (x in s && forall i :: 0 <= i < |ops| ==> x.key != CellOf(ops[i], ht, i).key)
  }

  /** The store after applying `ops` in order at `ht`, the i-th op with write id i. */
  function ApplyOps(s: seq<Entry>, ops: seq<WriteOp>, ht: HybridTime): (r: seq<Entry>)
    requires Sorted(s)
    ensures Sorted(r)
    ensures HoldsOps(r, s, ops, ht)
  {
    if ops == [] then s
    else
      var n := |ops| - 1;
      var prefix := ApplyOps(s, ops[..n], ht);
      ApplyOneMore(s, ops, ht, prefix);
      Upsert(prefix, CellOf(ops[n], ht, n))
  }

  /** Upserting the cell of the last operation extends what the store holds by that operation:
      its write id is new, so it replaces no cell of the earlier operations. */
  lemma ApplyOneMore(s: seq<Entry>, ops: seq<WriteOp>, ht: HybridTime, prefix: seq<Entry>)
    requires ops != [] && Sorted(prefix)
    requires HoldsOps(prefix, s, ops[..|ops| - 1], ht)
    ensures HoldsOps(Upsert(prefix, CellOf(ops[|ops| - 1], ht, |ops| - 1)), s, ops, ht)
  {
    var n := |ops| - 1;
    assert forall i :: 0 <= i < n ==> ops[..n][i] == ops[i];
    assert forall i :: 0 <= i < n ==> CellOf(ops[i], ht, i).key != CellOf(ops[n], ht, n).key;
  }

  /** The operations collected for one write. */
  class DocWriteBatch {
    var ops: seq<WriteOp>

    constructor()
      ensures ops == []
    {
      ops := [];
    }

    method SetPrimitive(path: DocPath, value: Value, ttl: Option<nat>)
      modifies this
      ensures ops == old(ops) + [WriteOp(path, value, ttl)]
    {
      ops := ops + [WriteOp(path, value, ttl)];
    }

    method DeleteSubDoc(path: DocPath)
      modifies this
      ensures ops == old(ops) + [WriteOp(path, Tombstone, None)]
    {
      ops := ops + [WriteOp(path, Tombstone, None)];
    }

    method Clear()
      modifies this
      ensures ops == []
    {
      ops := [];
    }
  }

  /** The intents one transactional write stores, with their reverse-index entries. */
  function IntentEntries(path: DocPath, value: Value, ht: HybridTime, txn: TransactionId): seq<Entry>
  {
    var strong := IntentKey(path.doc, path.subKey, Strong, DocHybridTime(ht, 0));
    var strongEntries := [Entry(strong, IntentValue(txn, Some(value))),
                          Entry(ReverseIndexKey(txn, DocHybridTime(ht, 0)), ReverseIndexValue(strong))];
    if path.subKey.DocRoot? then strongEntries
    else
      var weak := IntentKey(path.doc, DocRoot, Weak, DocHybridTime(ht, 1));
      strongEntries + [Entry(weak, IntentValue(txn, None)),
                       Entry(ReverseIndexKey(txn, DocHybridTime(ht, 1)), ReverseIndexValue(weak))]
  }

  /** What one transactional write stores in `es`: under distinct keys and only in the intent
      and reverse-index sections, the strong intent of its path with its value, a weak intent
      without value on the document exactly when the path is a column, and for each intent
      a reverse-index entry of the transaction at the intent's time that points at it. */
  ghost predicate StoresWrite(es: seq<Entry>, path: DocPath, value: Value, ht: HybridTime, txn: TransactionId) {
    && (forall e :: e in es ==> Section(e.key) <= 1)
    && DistinctKeys(es)
    && Entry(IntentKey(path.doc, path.subKey, Strong, DocHybridTime(ht, 0)), IntentValue(txn, Some(value))) in es
    && (forall e :: e in es && e.key.IntentKey? ==>
          && e.key.doc == path.doc && e.key.time.hybridTime == ht
          && e.value.IntentValue? && e.value.txn == txn
          && (e.key.strength == Weak <==> e.value.body.None?)
          && (e.key.strength == Weak ==> e.key.subKey == DocRoot))
    && ((exists e :: e in es && e.key.IntentKey? && e.key.strength == Weak) <==> path.subKey.Column?)
    && (forall e :: e in es && e.key.ReverseIndexKey? ==>
          && e.key.txn == txn && e.value.ReverseIndexValue?
          && exists i :: 0 <= i < |es| && e.key == ReverseIndexKey(txn, es[i].key.time) && e.value.intent == es[i].key)
  }

  /** A transactional write stores its intents and their reverse-index entries and nothing else. */
  lemma IntentEntriesShape(path: DocPath, value: Value, ht: HybridTime, txn: TransactionId)
    ensures StoresWrite(IntentEntries(path, value, ht, txn), path, value, ht, txn)
  {
  }

  /** The store after upserting `es` in order. */
  function UpsertAll(s: seq<Entry>, es: seq<Entry>): (r: seq<Entry>)
    requires Sorted(s)
    ensures Sorted(r)
  {
    if es == [] then s else Upsert(UpsertAll(s, es[..|es| - 1]), es[|es| - 1])
  }

  predicate DistinctKeys(es: seq<Entry>) {
    forall i, j :: 0 <= i < j < |es| ==> es[i].key != es[j].key
  }

  /** Upserting entries with distinct keys keeps all of them and, of the old entries,
      those whose key none of them has. */
  lemma {:induction false} UpsertAllContents(s: seq<Entry>, es: seq<Entry>)
    requires Sorted(s) && DistinctKeys(es)
    ensures forall x :: x in UpsertAll(s, es) <==> x in es || (x in s && forall e :: e in es ==> x.key != e.key)
  {
    if es != [] {
      var n := |es| - 1;
      assert DistinctKeys(es[..n]) by {
        forall i, j | 0 <= i < j < n ensures es[..n][i].key != es[..n][j].key {
          assert es[..n][i] == es[i] && es[..n][j] == es[j];
        }
      }
      UpsertAllContents(s, es[..n]);
      assert forall e :: e in es <==> e in es[..n] || e == es[n];
      forall e | e in es[..n] ensures e.key != es[n].key {
        var i :| 0 <= i < n && es[..n][i] == e;
      }
    }
  }

  /** Applying one more operation of a batch upserts its cell. */
  lemma ApplyOpsStep(s: seq<Entry>, ops: seq<WriteOp>, ht: HybridTime, i: nat)
    requires Sorted(s) && i < |ops|
    ensures ApplyOps(s, ops[..i + 1], ht) == Upsert(ApplyOps(s, ops[..i], ht), CellOf(ops[i], ht, i))
  {
    assert ops[..i + 1][..i] == ops[..i];
  }

  /** A batch of one operation upserts its cell at write id 0. */
  lemma ApplyOneOp(s: seq<Entry>, a: WriteOp, ht: HybridTime)
    requires Sorted(s)
    ensures ApplyOps(s, [a], ht) == Upsert(s, CellOf(a, ht, 0))
  {
    assert [a][..0] == [];
  }

  /** A batch of two operations upserts their cells at write ids 0 and 1, in that order. */
  lemma ApplyTwoOps(s: seq<Entry>, a: WriteOp, b: WriteOp, ht: HybridTime)
    requires Sorted(s)
    ensures ApplyOps(s, [a, b], ht) == Upsert(Upsert(s, CellOf(a, ht, 0)), CellOf(b, ht, 1))
  {
    assert [a, b][..1] == [a];
    ApplyOneOp(s, a, ht);
  }

  /** A batch of three operations upserts the third cell, at write id 2, after the first two. */
  lemma ApplyThreeOps(s: seq<Entry>, a: WriteOp, b: WriteOp, c: WriteOp, ht: HybridTime)
    requires Sorted(s)
    ensures ApplyOps(s, [a, b, c], ht) == Upsert(ApplyOps(s, [a, b], ht), CellOf(c, ht, 2))
  {
    var ops := [a, b, c];
    assert ops[..2] == [a, b];
    assert ops[2] == c;
  }

  /** A batch of four operations upserts the last two cells, at write ids 2 and 3, after the first two. */
  lemma ApplyFourOps(s: seq<Entry>, a: WriteOp, b: WriteOp, c: WriteOp, d: WriteOp, ht: HybridTime)
    requires Sorted(s)
    ensures ApplyOps(s, [a, b, c, d], ht) == Upsert(Upsert(ApplyOps(s, [a, b], ht), CellOf(c, ht, 2)), CellOf(d, ht, 3))
  {
    var ops := [a, b, c, d];
    assert ops[..3] == [a, b, c];
    assert ops[3] == d;
    ApplyThreeOps(s, a, b, c, ht);
  }

  /** Upserting one more entry. */
  lemma UpsertAllStep(s: seq<Entry>, es: seq<Entry>, i: nat)
    requires Sorted(s) && i < |es|
    ensures UpsertAll(s, es[..i + 1]) == Upsert(UpsertAll(s, es[..i]), es[i])
  {
    assert es[..i + 1][..i] == es[..i];
  }

  /** Upserting two entries. */
  lemma UpsertAllTwo(s: seq<Entry>, a: Entry, b: Entry)
    requires Sorted(s)
    ensures UpsertAll(s, [a, b]) == Upsert(Upsert(s, a), b)
  {
    UpsertAllStep(s, [a, b], 0);
    UpsertAllStep(s, [a, b], 1);
    assert [a, b][..1] == [a] && [a, b][..2] == [a, b];
  }

  /** Upserting four entries: the last two after the first two. */
  lemma UpsertAllFour(s: seq<Entry>, a: Entry, b: Entry, c: Entry, d: Entry)
    requires Sorted(s)
    ensures UpsertAll(s, [a, b, c, d]) == Upsert(Upsert(UpsertAll(s, [a, b]), c), d)
  {
    assert [a, b, c, d][..3] == [a, b, c];
    assert [a, b, c][..2] == [a, b];
  }

  /** A batch writes regular cells only, so the intents and the reverse index in front stay as they were. */
  lemma {:induction false} ApplyOpsBehind(p: seq<Entry>, g: seq<Entry>, ops: seq<WriteOp>, ht: HybridTime)
    requires Sorted(p + g) && SectionsBelow(p, 2)
    ensures Sorted(g) && ApplyOps(p + g, ops, ht) == p + ApplyOps(g, ops, ht)
  {
    SortedSplit(p, g);
    if ops != [] {
      var n := |ops| - 1;
      ApplyOpsBehind(p, g, ops[..n], ht);
      UpsertBehind(p, ApplyOps(g, ops[..n], ht), CellOf(ops[n], ht, n));
    }
  }

  /** Intents and reverse-index entries go in front of the regular cells, which stay as they were. */
  lemma {:induction false} UpsertAllInFront(p: seq<Entry>, g: seq<Entry>, es: seq<Entry>)
    requires Sorted(p + g) && SectionsAbove(g, 1)
    requires forall e :: e in es ==> Section(e.key) <= 1
    ensures Sorted(p) && UpsertAll(p + g, es) == UpsertAll(p, es) + g
  {
    SortedSplit(p, g);
    if es != [] {
      var n := |es| - 1;
      assert forall e :: e in es[..n] ==> e in es;
      UpsertAllInFront(p, g, es[..n]);
      assert es[n] in es;
      UpsertInFront(UpsertAll(p, es[..n]), g, es[n]);
    }
  }

  /** The whole ordered store. */
  class DocDb {
    var entries: seq<Entry>

    ghost predicate Valid()
      reads this
    {
      Sorted(entries)
    }

    constructor()
      ensures Valid() && entries == []
    {
      entries := [];
    }

    /** Applies `batch` at `ht`; the batch keeps its operations. */
    method WriteToRocksDB(batch: DocWriteBatch, ht: HybridTime)
      requires Valid()
      modifies this
      ensures Valid()
      ensures entries == ApplyOps(old(entries), batch.ops, ht)
    {
      var ops := batch.ops;
      for i := 0 to |ops|
        invariant Sorted(entries)
        invariant entries == ApplyOps(old(entries), ops[..i], ht)
      {
        ApplyOpsStep(old(entries), ops, ht, i);
        entries := Upsert(entries, CellOf(ops[i], ht, i));
      }
      assert ops[..|ops|] == ops;
    }

    /** Applies `batch` at `ht` and empties it. */
    method WriteToRocksDBAndClear(batch: DocWriteBatch, ht: HybridTime)
      requires Valid()
      modifies this, batch
      ensures Valid()
      ensures entries == ApplyOps(old(entries), old(batch.ops), ht)
      ensures batch.ops == []
    {
      WriteToRocksDB(batch, ht);
      batch.Clear();
    }

    /** A single write at `ht`: a regular cell at write id 0, or, inside transaction `txn`, its intents. */
    method SetPrimitive(path: DocPath, value: Value, ht: HybridTime, txn: Option<TransactionId>)
      requires Valid()
      modifies this
      ensures Valid()
      ensures txn.None? ==> entries == ApplyOps(old(entries), [WriteOp(path, value, None)], ht)
      ensures txn.Some? ==> entries == UpsertAll(old(entries), IntentEntries(path, value, ht, txn.value))
    {
      if txn.None? {
        ApplyOpsStep(entries, [WriteOp(path, value, None)], ht, 0);
        assert [WriteOp(path, value, None)][..1] == [WriteOp(path, value, None)];
        entries := Upsert(entries, CellOf(WriteOp(path, value, None), ht, 0));
      } else {
        var es := IntentEntries(path, value, ht, txn.value);
        var i := 0;
        while i < |es|
          invariant 0 <= i <= |es|
          invariant Sorted(entries)
          invariant entries == UpsertAll(old(entries), es[..i])
        {
          UpsertAllStep(old(entries), es, i);
          entries := Upsert(entries, es[i]);
          i := i + 1;
        }
        assert es[..|es|] == es;
      }
    }

    /** A single DEL at `ht` of a document or a column. */
    method DeleteSubDoc(path: DocPath, ht: HybridTime, txn: Option<TransactionId>)
      requires Valid()
      modifies this
      ensures Valid()
      ensures txn.None? ==> entries == ApplyOps(old(entries), [WriteOp(path, Tombstone, None)], ht)
      ensures txn.Some? ==> entries == UpsertAll(old(entries), IntentEntries(path, Tombstone, ht, txn.value))
    {
      SetPrimitive(path, Tombstone, ht, txn);
    }
  }

  // ---------------------------------------------------------------------------
  // Properties of batches

  /** Two operations of one batch never collide: their write ids differ, and the later
      operation's cell sorts first whenever both write the same path. */
  lemma LaterOpOfBatchSortsFirst(ops: seq<WriteOp>, ht: HybridTime, i: nat, j: nat)
    requires i < j < |ops| && ops[i].path == ops[j].path
    ensures CompareKeys(CellOf(ops[j], ht, j).key, CellOf(ops[i], ht, i).key) == Less
  {
    DocKeyOrder();
    SubKeyOrder();
  }
}
