/**
  The row iterator: a pull iterator over the documents of a point-in-time
  view of the store, one row per live document, in document-key order.
  `HasNext` resolves the next live document lazily and keeps it pending, so
  asking twice changes nothing; `NextRow` hands the pending row over and
  moves past it. A read that fails (a transaction the status authority does
  not know) stays failed: `HasNext` keeps answering true and `NextRow` keeps
  returning the error.

  The iterator walks two cursors, one over the intent section and one over
  the regular section of the store; the next document is the smaller of
  the two documents under them.
 */
module RowIterator {
  import opened Wrappers
  import opened HybridTimes
  import opened DocKeys
  import opened DocStore
  import opened Visibility
  import opened Rows
  import opened DocWriteBatch

  // ---------------------------------------------------------------------------
  // What a scan finds, stated on the store

  /** Document `d` comes after position `c`; `None` is the position before every document. */
  predicate After(d: DocKey, c: Option<DocKey>) {
    c.None? || CompareDocKeys(c.value, d) == Less
  }

  /** Position `c` is not before position `from`. */
  predicate NotBefore(c: Option<DocKey>, from: Option<DocKey>) {
    from.None? || (c.Some? && CompareDocKeys(from.value, c.value) != Greater)
  }

  /** Every document of `s` after `from` and before `to` yields no row. */
  ghost predicate AbsentBetween(s: seq<Entry>, rs: ReadSpec, from: Option<DocKey>, to: DocKey) {
    forall x :: HasDocument(s, x) && After(x, from) && CompareDocKeys(x, to) == Less ==> ReadDocument(s, rs, x) == Ok(None)
  }

  /** Every document of `s` after `from` yields no row. */
  ghost predicate AbsentAfter(s: seq<Entry>, rs: ReadSpec, from: Option<DocKey>) {
    forall x :: HasDocument(s, x) && After(x, from) ==> ReadDocument(s, rs, x) == Ok(None)
  }

  /** `d` is what a scan resumed after `from` stops at: the first document of `s` after
      `from` whose read yields a row or an error. */
  ghost predicate NextFound(s: seq<Entry>, rs: ReadSpec, from: Option<DocKey>, d: DocKey) {
    HasDocument(s, d) && After(d, from) && ReadDocument(s, rs, d) != Ok(None) && AbsentBetween(s, rs, from, d)
  }

  /** A scan stops at one document at most. */
  lemma NextFoundIsUnique(s: seq<Entry>, rs: ReadSpec, from: Option<DocKey>, d1: DocKey, d2: DocKey)
    requires NextFound(s, rs, from, d1) && NextFound(s, rs, from, d2)
    ensures d1 == d2
  {
    DocKeyOrder();
  }

  /** A scan that stops somewhere has not run out. */
  lemma NextFoundIsNotEnd(s: seq<Entry>, rs: ReadSpec, from: Option<DocKey>, d: DocKey)
    requires NextFound(s, rs, from, d)
    ensures !AbsentAfter(s, rs, from)
  {
  }

  // ---------------------------------------------------------------------------
  // The two section cursors

  /** Every entry of `view` names a document. */
  predicate Keyed(view: seq<Entry>) {
    forall i :: 0 <= i < |view| ==> IsIntent(view[i]) || IsRegular(view[i])
  }

  /** Position `pos` of `view` separates the documents at or before `c` from those after it. */
  ghost predicate Split(view: seq<Entry>, pos: nat, c: Option<DocKey>) {
    && Keyed(view)
    && pos <= |view|
    && (forall i :: 0 <= i < pos ==> !After(DocOf(view[i]), c))
    && (forall i :: pos <= i < |view| ==> After(DocOf(view[i]), c))
  }

  /** The two section views of `s` and cursors into them, both split at `c`. */
  ghost predicate Frontier(s: seq<Entry>, iv: seq<Entry>, rv: seq<Entry>, ip: nat, rp: nat, c: Option<DocKey>) {
    && iv == IntentSection(s) && rv == RegularSection(s)
    && DocsAscend(iv) && DocsAscend(rv)
    && Split(iv, ip, c) && Split(rv, rp, c)
  }

  /** The smaller of the documents under the two cursors. */
  function MinHead(iv: seq<Entry>, rv: seq<Entry>, ip: nat, rp: nat): (d: DocKey)
    requires Keyed(iv) && Keyed(rv)
    requires ip < |iv| || rp < |rv|
    ensures ip < |iv| ==> CompareDocKeys(d, DocOf(iv[ip])) != Greater
    ensures rp < |rv| ==> CompareDocKeys(d, DocOf(rv[rp])) != Greater
    ensures (ip < |iv| && d == DocOf(iv[ip])) || (rp < |rv| && d == DocOf(rv[rp]))
  {
    DocKeyOrder();
    if ip < |iv| && (rp >= |rv| || CompareDocKeys(DocOf(iv[ip]), DocOf(rv[rp])) != Greater) then DocOf(iv[ip])
    else DocOf(rv[rp])
  }

  /** Every entry of a section view is in the store. */
  lemma SectionEntriesInStore(s: seq<Entry>, i: nat)
    ensures i < |IntentSection(s)| ==> IntentSection(s)[i] in s
    ensures i < |RegularSection(s)| ==> RegularSection(s)[i] in s
  {
    if i < |IntentSection(s)| {
      assert IntentSection(s)[i] in IntentSection(s);
    }
    if i < |RegularSection(s)| {
      assert RegularSection(s)[i] in RegularSection(s);
    }
  }

  /** A document named in `s` is named under a cursor of one of the views, or before it. */
  lemma NamedInSections(s: seq<Entry>, x: DocKey) returns (inIntents: bool, i: nat)
    requires HasDocument(s, x)
    ensures inIntents ==> i < |IntentSection(s)| && IsIntent(IntentSection(s)[i]) && DocOf(IntentSection(s)[i]) == x
    ensures !inIntents ==> i < |RegularSection(s)| && IsRegular(RegularSection(s)[i]) && DocOf(RegularSection(s)[i]) == x
  {
    var e :| e in s && (IsIntent(e) || IsRegular(e)) && DocOf(e) == x;
    if IsIntent(e) {
      assert e in IntentSection(s);
      inIntents := true;
      i :| 0 <= i < |IntentSection(s)| && IntentSection(s)[i] == e;
    } else {
      assert e in RegularSection(s);
      inIntents := false;
      i :| 0 <= i < |RegularSection(s)| && RegularSection(s)[i] == e;
    }
  }

  /** An entry after the split position names a document no smaller than the one under the cursor. */
  lemma BeyondSplit(view: seq<Entry>, pos: nat, c: Option<DocKey>, i: nat)
    requires DocsAscend(view) && Split(view, pos, c)
    requires i < |view| && After(DocOf(view[i]), c)
    ensures pos <= i && CompareDocKeys(DocOf(view[pos]), DocOf(view[i])) != Greater
  {
  }

  /** Every document of `s` after `c` is at least the smaller head. */
  lemma FrontierBelow(s: seq<Entry>, iv: seq<Entry>, rv: seq<Entry>, ip: nat, rp: nat, c: Option<DocKey>, x: DocKey)
    requires Frontier(s, iv, rv, ip, rp, c)
    requires HasDocument(s, x) && After(x, c)
    ensures ip < |iv| || rp < |rv|
    ensures CompareDocKeys(MinHead(iv, rv, ip, rp), x) != Greater
  {
    DocKeyOrder();
    var inIntents, i := NamedInSections(s, x);
    if inIntents {
      BeyondSplit(iv, ip, c, i);
    } else {
      BeyondSplit(rv, rp, c, i);
    }
  }

  /** Every document of `s` after `from` and at or before `c` yields no row. */
  ghost predicate AbsentUpTo(s: seq<Entry>, rs: ReadSpec, from: Option<DocKey>, c: Option<DocKey>) {
    forall x :: HasDocument(s, x) && After(x, from) && !After(x, c) ==> ReadDocument(s, rs, x) == Ok(None)
  }

  /** Passing over a document without a row keeps everything up to it absent. */
  lemma ExtendAbsent(s: seq<Entry>, rs: ReadSpec, from: Option<DocKey>,
                     iv: seq<Entry>, rv: seq<Entry>, ip: nat, rp: nat, c: Option<DocKey>)
    requires Frontier(s, iv, rv, ip, rp, c) && AbsentUpTo(s, rs, from, c)
    requires ip < |iv| || rp < |rv|
    requires ReadDocument(s, rs, MinHead(iv, rv, ip, rp)) == Ok(None)
    ensures AbsentUpTo(s, rs, from, Some(MinHead(iv, rv, ip, rp)))
  {
    DocKeyOrder();
    var d := MinHead(iv, rv, ip, rp);
    forall x | HasDocument(s, x) && After(x, from) && !After(x, Some(d))
      ensures ReadDocument(s, rs, x) == Ok(None)
    {
      if After(x, c) {
        FrontierBelow(s, iv, rv, ip, rp, c, x);
        assert x == d;
      }
    }
  }

  /** The smaller head is a document of the store that comes after `c`. */
  lemma HeadIsNamed(s: seq<Entry>, iv: seq<Entry>, rv: seq<Entry>, ip: nat, rp: nat, c: Option<DocKey>)
    requires Frontier(s, iv, rv, ip, rp, c)
    requires ip < |iv| || rp < |rv|
    ensures HasDocument(s, MinHead(iv, rv, ip, rp)) && After(MinHead(iv, rv, ip, rp), c)
  {
    var d := MinHead(iv, rv, ip, rp);
    if ip < |iv| && d == DocOf(iv[ip]) {
      SectionEntriesInStore(s, ip);
      assert iv[ip] in s;
    } else {
      SectionEntriesInStore(s, rp);
      assert rv[rp] in s;
    }
  }

  lemma NotBelow(a: DocKey, b: DocKey)
    requires CompareDocKeys(a, b) != Greater
    ensures CompareDocKeys(b, a) != Less
  {
    DocKeyOrder();
  }

  /** A document after `c` is after every position `c` is not before. */
  lemma AfterIsTransitive(d: DocKey, c: Option<DocKey>, from: Option<DocKey>)
    requires After(d, c) && NotBefore(c, from)
    ensures After(d, from) && NotBefore(Some(d), from)
  {
    DocKeyOrder();
  }

  /** The smaller head, when its read yields something, is where the scan stops. */
  lemma StopAtHead(s: seq<Entry>, rs: ReadSpec, from: Option<DocKey>,
                   iv: seq<Entry>, rv: seq<Entry>, ip: nat, rp: nat, c: Option<DocKey>)
    requires Frontier(s, iv, rv, ip, rp, c) && AbsentUpTo(s, rs, from, c) && NotBefore(c, from)
    requires ip < |iv| || rp < |rv|
    requires ReadDocument(s, rs, MinHead(iv, rv, ip, rp)) != Ok(None)
    ensures NextFound(s, rs, from, MinHead(iv, rv, ip, rp))
  {
    var d := MinHead(iv, rv, ip, rp);
    HeadIsNamed(s, iv, rv, ip, rp, c);
    AfterIsTransitive(d, c, from);
    forall x | HasDocument(s, x) && After(x, from) && CompareDocKeys(x, d) == Less
      ensures ReadDocument(s, rs, x) == Ok(None)
    {
      if After(x, c) {
        FrontierBelow(s, iv, rv, ip, rp, c, x);
        NotBelow(d, x);
      }
    }
  }

  /** With both cursors at the end, nothing after `from` yields a row. */
  lemma NothingLeft(s: seq<Entry>, rs: ReadSpec, from: Option<DocKey>,
                    iv: seq<Entry>, rv: seq<Entry>, ip: nat, rp: nat, c: Option<DocKey>)
    requires Frontier(s, iv, rv, ip, rp, c) && AbsentUpTo(s, rs, from, c)
    requires ip == |iv| && rp == |rv|
    ensures AbsentAfter(s, rs, from)
  {
    forall x | HasDocument(s, x) && After(x, from) ensures ReadDocument(s, rs, x) == Ok(None) {
      if After(x, c) {
        FrontierBelow(s, iv, rv, ip, rp, c, x);
      }
    }
  }

  /** Moving a cursor over the entries of `d`, the document under it or a smaller one. */
  lemma SkippedSplit(view: seq<Entry>, p: nat, q: nat, c: Option<DocKey>, d: DocKey)
    requires DocsAscend(view) && Split(view, p, c) && After(d, c)
    requires p <= q <= |view|
    requires p < |view| ==> CompareDocKeys(d, DocOf(view[p])) != Greater
    requires forall i :: p <= i < q ==> DocOf(view[i]) == d
    requires q < |view| ==> DocOf(view[q]) != d
    ensures Split(view, q, Some(d))
  {
    DocKeyOrder();
    forall i | 0 <= i < q ensures !After(DocOf(view[i]), Some(d)) {
      if i < p {
        assert !After(DocOf(view[i]), c);
      }
    }
    forall i | q <= i < |view| ensures After(DocOf(view[i]), Some(d)) {
      assert CompareDocKeys(DocOf(view[q]), DocOf(view[i])) != Greater;
      if p < q {
        assert DocOf(view[p]) == d;
      }
      assert CompareDocKeys(d, DocOf(view[q])) == Less;
    }
  }

  /** The cursor position just past the entries of `d`. */
  method SkipDocument(view: seq<Entry>, p: nat, d: DocKey, ghost c: Option<DocKey>) returns (q: nat)
    requires DocsAscend(view) && Split(view, p, c) && After(d, c)
    requires p < |view| ==> CompareDocKeys(d, DocOf(view[p])) != Greater
    ensures Split(view, q, Some(d))
    ensures p <= q && (p < |view| && DocOf(view[p]) == d ==> p < q)
  {
    q := p;
    while q < |view| && DocOf(view[q]) == d
      invariant p <= q <= |view|
      invariant forall i :: p <= i < q ==> DocOf(view[i]) == d
    {
      q := q + 1;
    }
    SkippedSplit(view, p, q, c, d);
  }

  /** Resolves, from cursors split at `c`, the first document whose read yields a row or an
      error, or runs both cursors to the end. */
  method ScanFrom(s: seq<Entry>, rs: ReadSpec, iv: seq<Entry>, rv: seq<Entry>, ip: nat, rp: nat,
                  c: Option<DocKey>, ghost from: Option<DocKey>)
    returns (found: Pending, ip': nat, rp': nat, c': Option<DocKey>)
    requires Frontier(s, iv, rv, ip, rp, c) && AbsentUpTo(s, rs, from, c) && NotBefore(c, from)
    ensures Frontier(s, iv, rv, ip', rp', c') && NotBefore(c', from)
    ensures !found.NoRow? ==> && c' == Some(found.doc) && NextFound(s, rs, from, found.doc)
                              && ReadDocument(s, rs, found.doc) == PendingResult(found)
    ensures found.NoRow? ==> ip' == |iv| && rp' == |rv| && AbsentAfter(s, rs, from)
  {
    ip', rp', c' := ip, rp, c;
    while ip' < |iv| || rp' < |rv|
      invariant Frontier(s, iv, rv, ip', rp', c')
      invariant AbsentUpTo(s, rs, from, c')
      invariant NotBefore(c', from)
      decreases |iv| - ip' + |rv| - rp'
    {
      var d := MinHead(iv, rv, ip', rp');
      HeadIsNamed(s, iv, rv, ip', rp', c');
      AfterIsTransitive(d, c', from);
      var result := ReadDocument(s, rs, d);
      if result != Ok(None) {
        StopAtHead(s, rs, from, iv, rv, ip', rp', c');
        found := if result.Err? then Failed(d, result.error) else RowReady(d, result.value.value);
        ip' := SkipDocument(iv, ip', d, c');
        rp' := SkipDocument(rv, rp', d, c');
        c' := Some(d);
        return;
      }
      ExtendAbsent(s, rs, from, iv, rv, ip', rp', c');
      var nextIp := SkipDocument(iv, ip', d, c');
      var nextRp := SkipDocument(rv, rp', d, c');
      ip', rp', c' := nextIp, nextRp, Some(d);
    }
    NothingLeft(s, rs, from, iv, rv, ip', rp', c');
    found := NoRow;
  }

  // ---------------------------------------------------------------------------
  // The iterator

  datatype IteratorState = Uninitialized | Positioned | Exhausted

  /** What `HasNext` resolved and `NextRow` has not handed over yet. */
  datatype Pending =
    | NoRow
    | RowReady(doc: DocKey, row: Row)
    | Failed(doc: DocKey, error: ReadError)

  /** What handing over a pending row or error gives the caller. */
  function PendingRow(p: Pending): Result<Row, ReadError>
    requires !p.NoRow?
  {
    match p
    case RowReady(_, row) => Ok(row)
    case Failed(_, e) => Err(e)
  }

  function PendingResult(p: Pending): Result<Option<Row>, ReadError>
    requires !p.NoRow?
  {
    match p
    case RowReady(_, row) => Ok(Some(row))
    case Failed(_, e) => Err(e)
  }

  /** The first id of `ids` that is not a column of `schema`. */
  function MissingColumn(ids: seq<ColumnId>, schema: Schema): (r: Option<ColumnId>)
    ensures r.None? <==> forall id :: id in ids ==> id in schema.columnIds
    ensures r.Some? ==> r.value in ids && r.value !in schema.columnIds
  {
    if ids == [] then None
    else if ids[0] !in schema.columnIds then Some(ids[0])
    else
      assert forall id :: id in ids <==> id == ids[0] || id in ids[1..];
      MissingColumn(ids[1..], schema)
  }

  /** The invariant of an iterator past Init, on the values of its fields: the cursors are
      split at `c`, and a pending row (or the end) is what a scan resumed after `returned` finds. */
  ghost predicate Consistent(s: seq<Entry>, iv: seq<Entry>, rv: seq<Entry>, ip: nat, rp: nat, c: Option<DocKey>,
                             returned: Option<DocKey>, pending: Pending, state: IteratorState, rs: ReadSpec) {
    && Sorted(s)
    && Frontier(s, iv, rv, ip, rp, c)
    && NotBefore(c, returned)
    && (state == Positioned && pending.NoRow? ==> c == returned)
    && (!pending.NoRow? ==>
          && state == Positioned && c == Some(pending.doc)
          && NextFound(s, rs, returned, pending.doc)
          && ReadDocument(s, rs, pending.doc) == PendingResult(pending))
    && (state == Exhausted ==>
          && pending.NoRow? && ip == |iv| && rp == |rv|
          && AbsentAfter(s, rs, returned))
  }

  /** Init leaves both cursors before the first document. */
  lemma StartIsConsistent(s: seq<Entry>, rs: ReadSpec)
    requires Sorted(s)
    ensures Consistent(s, IntentSection(s), RegularSection(s), 0, 0, None, None, NoRow, Positioned, rs)
  {
    SectionDocsAscend(s);
  }

  /** A scan resumed where the last row was handed over leaves a pending row, or the end. */
  lemma ResolvedIsConsistent(s: seq<Entry>, iv: seq<Entry>, rv: seq<Entry>, ip: nat, rp: nat, c: Option<DocKey>,
                             returned: Option<DocKey>, rs: ReadSpec,
                             found: Pending, ip': nat, rp': nat, c': Option<DocKey>, state': IteratorState)
    requires Consistent(s, iv, rv, ip, rp, c, returned, NoRow, Positioned, rs)
    requires state' == if found.NoRow? then Exhausted else Positioned
    requires Frontier(s, iv, rv, ip', rp', c') && NotBefore(c', returned)
    requires !found.NoRow? ==> && c' == Some(found.doc) && NextFound(s, rs, returned, found.doc)
                               && ReadDocument(s, rs, found.doc) == PendingResult(found)
    requires found.NoRow? ==> ip' == |iv| && rp' == |rv| && AbsentAfter(s, rs, returned)
    ensures Consistent(s, iv, rv, ip', rp', c', returned, found, state', rs)
  {
  }

  /** Handing over the pending row moves the last returned document up to the cursor; the row
      handed over is the read of the next document with a row. */
  lemma HandOverIsConsistent(s: seq<Entry>, iv: seq<Entry>, rv: seq<Entry>, ip: nat, rp: nat, c: Option<DocKey>,
                             returned: Option<DocKey>, d: DocKey, row: Row, rs: ReadSpec)
    requires Consistent(s, iv, rv, ip, rp, c, returned, RowReady(d, row), Positioned, rs)
    ensures NextFound(s, rs, returned, d) && ReadDocument(s, rs, d) == Ok(Some(row))
    ensures Consistent(s, iv, rv, ip, rp, c, Some(d), NoRow, Positioned, rs)
  {
    DocKeyOrder();
  }

  class DocRowwiseIterator {
    const projection: Schema
    const schema: Schema
    const ctx: TxnContext
    const db: DocDb
    const readTime: HybridTime

    var state: IteratorState
    var snapshot: seq<Entry>
    var intentView: seq<Entry>
    var regularView: seq<Entry>
    var intentPos: nat
    var regularPos: nat
    var cursor: Option<DocKey>
    var pending: Pending
    /** The document of the last row handed over. */
    ghost var returned: Option<DocKey>

    function Spec(): ReadSpec {
      ReadSpec(schema, projection, ctx, readTime)
    }

    ghost predicate Valid()
      reads this
    {
      state != Uninitialized ==>
        Consistent(snapshot, intentView, regularView, intentPos, regularPos, cursor, returned, pending, state, Spec())
    }

    constructor(projection: Schema, schema: Schema, ctx: TxnContext, db: DocDb, readTime: HybridTime)
      ensures Valid() && state == Uninitialized
      ensures this.projection == projection && this.schema == schema && this.ctx == ctx
      ensures this.db == db && this.readTime == readTime
    {
      this.projection := projection;
      this.schema := schema;
      this.ctx := ctx;
      this.db := db;
      this.readTime := readTime;
      state := Uninitialized;
      snapshot := [];
      intentView := [];
      regularView := [];
      intentPos := 0;
      regularPos := 0;
      cursor := None;
      pending := NoRow;
      returned := None;
    }

    /** Checks the projection against the schema and takes the view of the store to scan. */
    method Init() returns (r: Result<(), ReadError>)
      requires Valid() && state == Uninitialized && db.Valid()
      modifies this
      ensures Valid()
      ensures r.Err? <==> MissingColumn(projection.columnIds, schema).Some?
      ensures r.Err? ==> r.error == UnknownColumn(MissingColumn(projection.columnIds, schema).value)
                         && state == Uninitialized
      ensures r.Ok? ==> && state == Positioned && snapshot == db.entries
                        && cursor.None? && returned.None? && pending.NoRow?
    {
      var missing := MissingColumn(projection.columnIds, schema);
      if missing.Some? {
        return Err(UnknownColumn(missing.value));
      }
      var s := db.entries;
      StartIsConsistent(s, Spec());
      snapshot, intentView, regularView := s, IntentSection(s), RegularSection(s);
      intentPos, regularPos, cursor := 0, 0, None;
      returned, pending, state := None, NoRow, Positioned;
      return Ok(());
    }

    /** Whether a row (or an error) is pending; resolves the next live document if none is. */
    method HasNext() returns (r: bool)
      requires Valid() && state != Uninitialized
      modifies this
      ensures Valid() && state != Uninitialized
      ensures r <==> !pending.NoRow?
      ensures snapshot == old(snapshot) && returned == old(returned)
      ensures !old(pending).NoRow? || old(state) == Exhausted ==> unchanged(this)
      ensures r ==> NextFound(snapshot, Spec(), returned, pending.doc)
                    && ReadDocument(snapshot, Spec(), pending.doc) == PendingResult(pending)
      ensures !r ==> state == Exhausted && AbsentAfter(snapshot, Spec(), returned)
    {
      if !pending.NoRow? {
        return true;
      }
      if state == Exhausted {
        return false;
      }
      ghost var ip0, rp0, c0 := intentPos, regularPos, cursor;
      assert Consistent(snapshot, intentView, regularView, ip0, rp0, c0, returned, NoRow, Positioned, Spec());
      var found, ip, rp, c := ScanFrom(snapshot, Spec(), intentView, regularView, intentPos, regularPos, cursor, returned);
      intentPos, regularPos, cursor, pending := ip, rp, c, found;
      if found.NoRow? {
        state := Exhausted;
        ResolvedIsConsistent(snapshot, intentView, regularView, ip0, rp0, c0, returned, Spec(),
                             pending, intentPos, regularPos, cursor, state);
        return false;
      }
      ResolvedIsConsistent(snapshot, intentView, regularView, ip0, rp0, c0, returned, Spec(),
                           pending, intentPos, regularPos, cursor, state);
      return true;
    }

    /** Hands over the pending row, resolving one first if none is pending. */
    method NextRow() returns (r: Result<Row, ReadError>)
      requires Valid() && state != Uninitialized
      modifies this
      ensures Valid() && state != Uninitialized
      ensures snapshot == old(snapshot)
      ensures r.Ok? ==> && returned.Some? && pending.NoRow?
                        && NextFound(snapshot, Spec(), old(returned), returned.value)
                        && ReadDocument(snapshot, Spec(), returned.value) == Ok(Some(r.value))
      ensures r.Err? && r.error != EndOfIteration ==>
                && pending.Failed? && pending.error == r.error
                && NextFound(snapshot, Spec(), old(returned), pending.doc)
                && ReadDocument(snapshot, Spec(), pending.doc) == Err(r.error)
      ensures r == Err(EndOfIteration) ==> state == Exhausted && AbsentAfter(snapshot, Spec(), old(returned))
      ensures r.Err? ==> returned == old(returned)
    {
      var has := HasNext();
      if !has {
        return Err(EndOfIteration);
      }
      r := HandOver();
    }

    /** Hands over the pending row: a row moves the last returned document up to it, an
        error stays pending. */
    method HandOver() returns (r: Result<Row, ReadError>)
      requires Valid() && state != Uninitialized && !pending.NoRow?
      modifies this
      ensures Valid() && state != Uninitialized
      ensures snapshot == old(snapshot)
      ensures r == PendingRow(old(pending))
      ensures r.Ok? ==> && returned == Some(old(pending).doc) && pending.NoRow?
                        && NextFound(snapshot, Spec(), old(returned), returned.value)
                        && ReadDocument(snapshot, Spec(), returned.value) == Ok(Some(r.value))
      ensures r.Err? ==> && pending == old(pending) && returned == old(returned)
                         && NextFound(snapshot, Spec(), old(returned), pending.doc)
                         && ReadDocument(snapshot, Spec(), pending.doc) == Err(r.error)
    {
      match pending
      case RowReady(d, row) =>
        HandOverIsConsistent(snapshot, intentView, regularView, intentPos, regularPos, cursor, returned, d, row, Spec());
        r := Ok(row);
        pending := NoRow;
        returned := Some(d);
      case Failed(d, e) =>
        r := Err(e);
    }
  }

  /** Asking twice before taking the row gives the same answer and leaves the iterator as the
      first answer left it: the next live document's read pending, or the end reached. */
  method HasNextTwice(it: DocRowwiseIterator) returns (first: bool, second: bool)
    requires it.Valid() && it.state != Uninitialized
    modifies it
    ensures it.Valid() && first == second
    ensures it.snapshot == old(it.snapshot) && it.returned == old(it.returned)
    ensures first <==> !it.pending.NoRow?
    ensures first ==> NextFound(it.snapshot, it.Spec(), it.returned, it.pending.doc)
                      && ReadDocument(it.snapshot, it.Spec(), it.pending.doc) == PendingResult(it.pending)
    ensures !first ==> it.state == Exhausted && AbsentAfter(it.snapshot, it.Spec(), it.returned)
  {
    first := it.HasNext();
    ghost var pendingAfterFirst := it.pending;
    second := it.HasNext();
    assert it.pending == pendingAfterFirst;
  }
}
