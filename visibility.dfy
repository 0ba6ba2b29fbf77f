/**
  Visibility: what a read at a given read time sees of one document. Regular
  cells are versions at their write time; a strong intent is a version only
  when its transaction is committed as of the read time, and then at its
  commit time. The newest version of a column wins, unless it is a DEL, has
  expired, or is not newer than the newest document-level version (a
  document tombstone hides every column cell at or before its time).
 */
module Visibility {
  import opened Wrappers
  import opened HybridTimes
  import opened DocKeys
  import opened DocStore
  import opened TransactionStatus

  /** How a read resolves intents: a non-transactional read ignores them. */
  datatype TxnContext =
    | NonTransactional
    | Transactional(commitTimes: map<TransactionId, HybridTime>)

  /** A candidate value for one (document, subkey), with its effective time. */
  datatype Version = Version(time: DocHybridTime, value: Value, ttl: Option<nat>)

  predicate IsRegularVersion(e: Entry, doc: DocKey, sub: SubKey, readTime: HybridTime) {
    && e.key.RegularKey? && e.key.doc == doc && e.key.subKey == sub
    && e.value.RegularValue? && VisibleAt(e.key.time, readTime)
  }

  /** A strong intent of `doc` that carries a value or a DEL. */
  predicate IsStrongIntent(e: Entry, doc: DocKey) {
    && e.key.IntentKey? && e.key.doc == doc && e.key.strength == Strong
    && e.value.IntentValue? && e.value.body.Some?
  }

  /** The commit time of `txn` when the status authority reports it committed as of `readTime`. */
  function CommitTimeAt(ctx: TxnContext, txn: TransactionId, readTime: HybridTime): (r: Option<HybridTime>)
    ensures r.Some? <==> ctx.Transactional? && txn in ctx.commitTimes && ctx.commitTimes[txn] <= readTime
    ensures r.Some? ==> r.value == ctx.commitTimes[txn]
  {
    match ctx
    case NonTransactional => None
    case Transactional(commitTimes) =>
      match StatusAt(commitTimes, txn, readTime)
      case StatusResult(Committed, commitTime) => Some(commitTime)
      case _ => None
  }

  predicate IsIntentVersion(e: Entry, ctx: TxnContext, doc: DocKey, sub: SubKey, readTime: HybridTime) {
    IsStrongIntent(e, doc) && e.key.subKey == sub && CommitTimeAt(ctx, e.value.txn, readTime).Some?
  }

  function RegularVersionOf(e: Entry): Version
    requires e.value.RegularValue?
  {
    Version(e.key.time, e.value.value, e.value.ttl)
  }

  /** A committed intent competes at its commit time, keeping its write id. */
  function IntentVersionOf(e: Entry, ctx: TxnContext, readTime: HybridTime): Version
    requires e.key.IntentKey? && e.value.IntentValue? && e.value.body.Some?
    requires CommitTimeAt(ctx, e.value.txn, readTime).Some?
  {
    Version(DocHybridTime(CommitTimeAt(ctx, e.value.txn, readTime).value, e.key.time.writeId),
            e.value.body.value, None)
  }

  function RegularVersions(s: seq<Entry>, doc: DocKey, sub: SubKey, readTime: HybridTime): (r: seq<Version>)
    ensures forall e :: e in s && IsRegularVersion(e, doc, sub, readTime) ==> RegularVersionOf(e) in r
    ensures forall v :: v in r ==> exists e :: e in s && IsRegularVersion(e, doc, sub, readTime) && v == RegularVersionOf(e)
  {
    if s == [] then []
    else
      (if IsRegularVersion(s[0], doc, sub, readTime) then [RegularVersionOf(s[0])] else [])
      + RegularVersions(s[1..], doc, sub, readTime)
  }

  function IntentVersions(s: seq<Entry>, ctx: TxnContext, doc: DocKey, sub: SubKey, readTime: HybridTime)
    : (r: seq<Version>)
    ensures forall e :: e in s && IsIntentVersion(e, ctx, doc, sub, readTime) ==> IntentVersionOf(e, ctx, readTime) in r
    ensures forall v :: v in r ==> exists e :: e in s && IsIntentVersion(e, ctx, doc, sub, readTime) && v == IntentVersionOf(e, ctx, readTime)
  {
    if s == [] then []
    else
      (if IsIntentVersion(s[0], ctx, doc, sub, readTime) then [IntentVersionOf(s[0], ctx, readTime)] else [])
      + IntentVersions(s[1..], ctx, doc, sub, readTime)
  }

  /** Both histories of one (document, subkey) inside the read ceiling, intents first:
      every visible regular cell and every committed strong intent, and nothing else. */
  function Versions(s: seq<Entry>, ctx: TxnContext, doc: DocKey, sub: SubKey, readTime: HybridTime): seq<Version> {
    IntentVersions(s, ctx, doc, sub, readTime) + RegularVersions(s, doc, sub, readTime)
  }

  /** The versions are every visible regular cell and every committed strong intent of the
      (document, subkey), and nothing else; all of them lie inside the read ceiling. */
  lemma VersionsAreCandidates(s: seq<Entry>, ctx: TxnContext, doc: DocKey, sub: SubKey, readTime: HybridTime)
    ensures forall v :: v in Versions(s, ctx, doc, sub, readTime) ==> v.time.hybridTime <= readTime
    ensures forall e :: e in s && IsRegularVersion(e, doc, sub, readTime) ==> RegularVersionOf(e) in Versions(s, ctx, doc, sub, readTime)
    ensures forall e :: e in s && IsIntentVersion(e, ctx, doc, sub, readTime)
                        ==> IntentVersionOf(e, ctx, readTime) in Versions(s, ctx, doc, sub, readTime)
    ensures forall v :: v in Versions(s, ctx, doc, sub, readTime) ==>
              (exists e :: e in s && IsRegularVersion(e, doc, sub, readTime) && v == RegularVersionOf(e))
              || (exists e :: e in s && IsIntentVersion(e, ctx, doc, sub, readTime) && v == IntentVersionOf(e, ctx, readTime))
  {
  }

  /** The newest version; of versions with equal times the first one wins. */
  function Newest(vs: seq<Version>): (r: Version)
    requires vs != []
    ensures r in vs
    ensures forall v :: v in vs ==> !Before(r.time, v.time)
    ensures exists k :: 0 <= k < |vs| && vs[k] == r && forall j :: 0 <= j < k ==> Before(vs[j].time, r.time)
  {
    if |vs| == 1 then vs[0]
    else
      var rest := Newest(vs[1..]);
      assert forall v :: v in vs ==> v == vs[0] || v in vs[1..];
      if Before(vs[0].time, rest.time) then
        var k :| 0 <= k < |vs[1..]| && vs[1..][k] == rest && forall j :: 0 <= j < k ==> Before(vs[1..][j].time, rest.time);
        assert vs[k + 1] == rest;
        rest
      else
        vs[0]
  }

  /** The time of the newest document-level version inside the read ceiling. */
  function DocBoundary(s: seq<Entry>, ctx: TxnContext, doc: DocKey, readTime: HybridTime): (r: Option<DocHybridTime>)
    ensures r.None? <==> Versions(s, ctx, doc, DocRoot, readTime) == []
    ensures r.Some? ==> forall v :: v in Versions(s, ctx, doc, DocRoot, readTime) ==> !Before(r.value, v.time)
    ensures r.Some? ==> exists v :: v in Versions(s, ctx, doc, DocRoot, readTime) && v.time == r.value
  {
    var vs := Versions(s, ctx, doc, DocRoot, readTime);
    if vs == [] then None else Some(Newest(vs).time)
  }

  /** A column version survives the document-level versions when it is strictly newer. */
  predicate Survives(t: DocHybridTime, boundary: Option<DocHybridTime>) {
    boundary.None? || Before(boundary.value, t)
  }

  /** A version that a reader sees as a value: not DEL, not expired. */
  predicate IsLive(v: Version, readTime: HybridTime) {
    v.value.Primitive? && !HasExpired(v.time.hybridTime, v.ttl, readTime)
  }

  /** `v` is newer than every other version of `vs`. */
  predicate StrictlyNewest(v: Version, vs: seq<Version>) {
    v in vs && forall w :: w in vs && w != v ==> Before(w.time, v.time)
  }

  /** The value a read at `readTime` sees for column `col` of `doc`; None reads as null. */
  function ColumnValue(s: seq<Entry>, ctx: TxnContext, doc: DocKey, col: ColumnId, readTime: HybridTime)
    : (r: Option<PrimitiveValue>)
  {
    var vs := Versions(s, ctx, doc, Column(col), readTime);
    if vs == [] then None
    else
      var n := Newest(vs);
      if Survives(n.time, DocBoundary(s, ctx, doc, readTime)) && IsLive(n, readTime) then Some(n.value.p)
      else None
  }

  /** The first strong intent of `doc` whose transaction the status authority does not know:
      resolving it answers TryAgain, and the read of the document cannot go on. */
  function UnknownTransaction(s: seq<Entry>, ctx: TxnContext, doc: DocKey): (r: Option<TransactionId>)
    ensures r.Some? ==> ctx.Transactional? && r.value !in ctx.commitTimes
                        && exists e :: e in s && IsStrongIntent(e, doc) && e.value.txn == r.value
    ensures r.None? ==> forall e :: e in s && IsStrongIntent(e, doc) && ctx.Transactional?
                                    ==> e.value.txn in ctx.commitTimes
  {
    if ctx.NonTransactional? || s == [] then None
    else if IsStrongIntent(s[0], doc) && StatusAt(ctx.commitTimes, s[0].value.txn, 0).TryAgain? then
      Some(s[0].value.txn)
    else UnknownTransaction(s[1..], ctx, doc)
  }

  /** `e` is a regular cell or a strong intent of one column of `doc`. */
  predicate IsColumnCell(e: Entry, doc: DocKey) {
    ((e.key.RegularKey? && e.key.doc == doc) || IsStrongIntent(e, doc)) && e.key.subKey.Column?
  }

  /** The column ids named by the regular cells and strong intents of `doc`. */
  function ColumnsOf(s: seq<Entry>, doc: DocKey): (r: seq<ColumnId>)
    ensures forall e :: e in s && IsColumnCell(e, doc) ==> e.key.subKey.id in r
  {
    if s == [] then []
    else (if IsColumnCell(s[0], doc) then [s[0].key.subKey.id] else []) + ColumnsOf(s[1..], doc)
  }

  /** A document is returned when at least one of its columns has a live value. */
  predicate DocLive(s: seq<Entry>, ctx: TxnContext, doc: DocKey, readTime: HybridTime)
  {
    exists c :: c in ColumnsOf(s, doc) && ColumnValue(s, ctx, doc, c, readTime).Some?
  }

  // ---------------------------------------------------------------------------
  // Properties of the read path

  /** The value read for a column is the newest version inside the read ceiling;
      and a strictly newest live version that outlives the document-level
      versions is exactly what is read. */
  lemma NewestVisibleVersionWins(s: seq<Entry>, ctx: TxnContext, doc: DocKey, col: ColumnId, readTime: HybridTime)
    ensures ColumnValue(s, ctx, doc, col, readTime).Some? ==>
      exists v :: v in Versions(s, ctx, doc, Column(col), readTime)
        && v.value == Primitive(ColumnValue(s, ctx, doc, col, readTime).value)
        && IsLive(v, readTime) && Survives(v.time, DocBoundary(s, ctx, doc, readTime))
        && forall w :: w in Versions(s, ctx, doc, Column(col), readTime) ==> !Before(v.time, w.time)
    ensures forall v :: StrictlyNewest(v, Versions(s, ctx, doc, Column(col), readTime))
                        && IsLive(v, readTime) && Survives(v.time, DocBoundary(s, ctx, doc, readTime))
                        ==> ColumnValue(s, ctx, doc, col, readTime) == Some(v.value.p)
  {
    var vs := Versions(s, ctx, doc, Column(col), readTime);
    if vs != [] {
      var n := Newest(vs);
      forall v | StrictlyNewest(v, vs) && IsLive(v, readTime) && Survives(v.time, DocBoundary(s, ctx, doc, readTime))
        ensures ColumnValue(s, ctx, doc, col, readTime) == Some(v.value.p)
      {
        assert !Before(n.time, v.time);
      }
    }
  }

  /** A document-level version at time T (a document DEL) hides every column
      version at or before T: such a column reads as null. */
  lemma DocumentTombstoneHides(s: seq<Entry>, ctx: TxnContext, doc: DocKey, col: ColumnId,
                               readTime: HybridTime, tombstone: Entry)
    requires tombstone in s && IsRegularVersion(tombstone, doc, DocRoot, readTime)
    requires forall w :: w in Versions(s, ctx, doc, Column(col), readTime) ==> !Before(tombstone.key.time, w.time)
    ensures ColumnValue(s, ctx, doc, col, readTime) == None
  {
    var t := tombstone.key.time;
    assert RegularVersionOf(tombstone) in Versions(s, ctx, doc, DocRoot, readTime);
    var b := DocBoundary(s, ctx, doc, readTime);
    assert !Before(b.value, t);
  }

  /** A document whose every column version is at or before a document DEL is not returned. */
  lemma DocumentTombstoneSkipsDocument(s: seq<Entry>, ctx: TxnContext, doc: DocKey,
                                       readTime: HybridTime, tombstone: Entry)
    requires tombstone in s && IsRegularVersion(tombstone, doc, DocRoot, readTime)
    requires forall c, w :: w in Versions(s, ctx, doc, Column(c), readTime) ==> !Before(tombstone.key.time, w.time)
    ensures !DocLive(s, ctx, doc, readTime)
  {
    forall c | c in ColumnsOf(s, doc) ensures ColumnValue(s, ctx, doc, c, readTime) == None {
      DocumentTombstoneHides(s, ctx, doc, c, readTime, tombstone);
    }
  }

  /** When the newest version of a column has a TTL that the read time has passed,
      the column reads as null: an expired cell acts as a DEL at its expiry. */
  lemma ExpiredNewestReadsNull(s: seq<Entry>, ctx: TxnContext, doc: DocKey, col: ColumnId,
                               readTime: HybridTime, v: Version)
    requires StrictlyNewest(v, Versions(s, ctx, doc, Column(col), readTime))
    requires HasExpired(v.time.hybridTime, v.ttl, readTime)
    ensures ColumnValue(s, ctx, doc, col, readTime) == None
  {
    var n := Newest(Versions(s, ctx, doc, Column(col), readTime));
    assert !Before(n.time, v.time);
  }

  /** A document is live exactly when some column, named in its cells or not, reads a value. */
  lemma DocLiveIffSomeColumnLive(s: seq<Entry>, ctx: TxnContext, doc: DocKey, readTime: HybridTime)
    ensures DocLive(s, ctx, doc, readTime) <==> exists c :: ColumnValue(s, ctx, doc, c, readTime).Some?
  {
    if c :| ColumnValue(s, ctx, doc, c, readTime).Some? {
      var v :| v in Versions(s, ctx, doc, Column(c), readTime);
      if v in IntentVersions(s, ctx, doc, Column(c), readTime) {
        var e :| e in s && IsIntentVersion(e, ctx, doc, Column(c), readTime) && v == IntentVersionOf(e, ctx, readTime);
        assert c in ColumnsOf(s, doc);
      } else {
        var e :| e in s && IsRegularVersion(e, doc, Column(c), readTime) && v == RegularVersionOf(e);
        assert c in ColumnsOf(s, doc);
      }
    }
  }

  lemma {:induction false} RegularVersionsAppend(s: seq<Entry>, t: seq<Entry>, doc: DocKey, sub: SubKey,
                                                 readTime: HybridTime)
    ensures RegularVersions(s + t, doc, sub, readTime)
            == RegularVersions(s, doc, sub, readTime) + RegularVersions(t, doc, sub, readTime)
  {
    if s == [] {
      assert s + t == t;
    } else {
      assert (s + t)[1..] == s[1..] + t;
      RegularVersionsAppend(s[1..], t, doc, sub, readTime);
    }
  }

  lemma {:induction false} IntentVersionsAppend(s: seq<Entry>, t: seq<Entry>, ctx: TxnContext, doc: DocKey,
                                                sub: SubKey, readTime: HybridTime)
    ensures IntentVersions(s + t, ctx, doc, sub, readTime)
            == IntentVersions(s, ctx, doc, sub, readTime) + IntentVersions(t, ctx, doc, sub, readTime)
  {
    if s == [] {
      assert s + t == t;
    } else {
      assert (s + t)[1..] == s[1..] + t;
      IntentVersionsAppend(s[1..], t, ctx, doc, sub, readTime);
    }
  }

  /** An intent that does not resolve to a version (a weak intent, or a strong intent
      whose transaction is not committed as of the read time) changes nothing a read sees. */
  lemma UnresolvedIntentIsInvisible(s: seq<Entry>, e: Entry, ctx: TxnContext, doc: DocKey, readTime: HybridTime)
    requires e.key.IntentKey? && e.value.IntentValue?
    requires e.key.strength == Weak || CommitTimeAt(ctx, e.value.txn, readTime).None?
    ensures forall sub :: Versions(s + [e], ctx, doc, sub, readTime) == Versions(s, ctx, doc, sub, readTime)
    ensures forall col :: ColumnValue(s + [e], ctx, doc, col, readTime) == ColumnValue(s, ctx, doc, col, readTime)
  {
    forall sub ensures Versions(s + [e], ctx, doc, sub, readTime) == Versions(s, ctx, doc, sub, readTime) {
      RegularVersionsAppend(s, [e], doc, sub, readTime);
      IntentVersionsAppend(s, [e], ctx, doc, sub, readTime);
      assert RegularVersions([e], doc, sub, readTime) == [];
      assert IntentVersions([e], ctx, doc, sub, readTime) == [];
    }
  }

  /** A committed intent competes at its commit time: the hybrid time it was written at
      has no influence on what a read sees. */
  lemma IntentWriteTimeIsIrrelevant(s: seq<Entry>, e: Entry, writeTime: HybridTime, ctx: TxnContext,
                                    doc: DocKey, readTime: HybridTime)
    requires e.key.IntentKey?
    ensures var moved := Entry(IntentKey(e.key.doc, e.key.subKey, e.key.strength, DocHybridTime(writeTime, e.key.time.writeId)), e.value);
            forall col :: ColumnValue(s + [moved], ctx, doc, col, readTime) == ColumnValue(s + [e], ctx, doc, col, readTime)
  {
    var moved := Entry(IntentKey(e.key.doc, e.key.subKey, e.key.strength, DocHybridTime(writeTime, e.key.time.writeId)), e.value);
    forall sub ensures Versions(s + [moved], ctx, doc, sub, readTime) == Versions(s + [e], ctx, doc, sub, readTime) {
      RegularVersionsAppend(s, [e], doc, sub, readTime);
      IntentVersionsAppend(s, [e], ctx, doc, sub, readTime);
      RegularVersionsAppend(s, [moved], doc, sub, readTime);
      IntentVersionsAppend(s, [moved], ctx, doc, sub, readTime);
      assert IntentVersions([moved], ctx, doc, sub, readTime) == IntentVersions([e], ctx, doc, sub, readTime);
    }
    assert forall col :: Versions(s + [moved], ctx, doc, Column(col), readTime) == Versions(s + [e], ctx, doc, Column(col), readTime);
    assert Versions(s + [moved], ctx, doc, DocRoot, readTime) == Versions(s + [e], ctx, doc, DocRoot, readTime);
  }

  /** A non-transactional read sees regular cells only. */
  lemma {:induction false} NonTransactionalIgnoresIntents(s: seq<Entry>, doc: DocKey, sub: SubKey, readTime: HybridTime)
    ensures Versions(s, NonTransactional, doc, sub, readTime) == RegularVersions(s, doc, sub, readTime)
  {
    if s != [] {
      NonTransactionalIgnoresIntents(s[1..], doc, sub, readTime);
    }
  }

  /** A strictly newest version decides the column: its value when it is live and outlives
      the document-level versions, null otherwise. */
  lemma StrictlyNewestDecides(s: seq<Entry>, ctx: TxnContext, doc: DocKey, col: ColumnId, readTime: HybridTime, v: Version)
    requires StrictlyNewest(v, Versions(s, ctx, doc, Column(col), readTime))
    ensures ColumnValue(s, ctx, doc, col, readTime)
            == if IsLive(v, readTime) && Survives(v.time, DocBoundary(s, ctx, doc, readTime)) then Some(v.value.p) else None
  {
    var n := Newest(Versions(s, ctx, doc, Column(col), readTime));
    assert !Before(n.time, v.time);
  }

  /** The document boundary is the time of a strictly newest document-level version. */
  lemma BoundaryOfStrictlyNewest(s: seq<Entry>, ctx: TxnContext, doc: DocKey, readTime: HybridTime, v: Version)
    requires StrictlyNewest(v, Versions(s, ctx, doc, DocRoot, readTime))
    ensures DocBoundary(s, ctx, doc, readTime) == Some(v.time)
  {
    var n := Newest(Versions(s, ctx, doc, DocRoot, readTime));
    assert !Before(n.time, v.time);
  }
}
