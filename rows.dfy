/**
  Schemas, projections and row assembly. A row is the set of columns the
  read fills in: every key column, decoded from the document key, and every
  projected non-key column that has a live value. A column the row does not
  hold reads as null.
 */
module Rows {
  import opened Wrappers
  import opened HybridTimes
  import opened DocKeys
  import opened DocStore
  import opened Visibility

  datatype DataType = STRING | INT64

  datatype ColumnSchema = ColumnSchema(name: string, dataType: DataType, isNullable: bool)

  /** The columns in order, their ids, and how many leading columns form the key. */
  datatype Schema = Schema(columns: seq<ColumnSchema>, columnIds: seq<ColumnId>, numKeyColumns: nat)

  predicate Distinct(ids: seq<ColumnId>) {
    forall i, j :: 0 <= i < j < |ids| ==> ids[i] != ids[j]
  }

  ghost predicate WellFormed(schema: Schema) {
    && |schema.columns| == |schema.columnIds|
    && schema.numKeyColumns <= |schema.columns|
    && Distinct(schema.columnIds)
  }

  function Min(a: nat, b: nat): nat {
    if a <= b then a else b
  }

  /** The ids of the key columns, in key order. */
  function KeyColumnIds(schema: Schema): seq<ColumnId> {
    schema.columnIds[..Min(schema.numKeyColumns, |schema.columnIds|)]
  }

  /** The ids of the columns a projection reads from cells. */
  function ValueColumnIds(projection: Schema): seq<ColumnId> {
    projection.columnIds[Min(projection.numKeyColumns, |projection.columnIds|)..]
  }

  function FindColumnFrom(columns: seq<ColumnSchema>, name: string, from: nat): (r: Option<nat>)
    requires from <= |columns|
    ensures r.Some? ==> from <= r.value < |columns| && columns[r.value].name == name
                        && forall j :: from <= j < r.value ==> columns[j].name != name
    ensures r.None? ==> forall j :: from <= j < |columns| ==> columns[j].name != name
    decreases |columns| - from
  {
    if from == |columns| then None
    else if columns[from].name == name then Some(from)
    else FindColumnFrom(columns, name, from + 1)
  }

  /** The index of the first column named `name`. */
  function FindColumn(columns: seq<ColumnSchema>, name: string): (r: Option<nat>)
    ensures r.Some? ==> r.value < |columns| && columns[r.value].name == name
    ensures r.None? <==> forall j :: 0 <= j < |columns| ==> columns[j].name != name
  {
    FindColumnFrom(columns, name, 0)
  }

  datatype SchemaError = NotFound(name: string) | InvalidArgument

  /** `columns` and `ids` are those of the named columns of `schema`, position by position. */
  ghost predicate Selects(schema: Schema, names: seq<string>, columns: seq<ColumnSchema>, ids: seq<ColumnId>)
    requires |schema.columns| == |schema.columnIds|
  {
    && |columns| == |names| && |ids| == |names|
    && forall i :: 0 <= i < |names| ==>
         var k := FindColumn(schema.columns, names[i]);
         k.Some? && columns[i] == schema.columns[k.value] && ids[i] == schema.columnIds[k.value]
  }

  /** The columns and ids of `names`, in the order given; the first missing name is reported. */
  function ProjectColumns(schema: Schema, names: seq<string>): (r: Result<(seq<ColumnSchema>, seq<ColumnId>), SchemaError>)
    requires |schema.columns| == |schema.columnIds|
    ensures r.Ok? <==> forall n :: n in names ==> FindColumn(schema.columns, n).Some?
    ensures r.Ok? ==> Selects(schema, names, r.value.0, r.value.1)
    ensures r.Err? ==> r.error.NotFound? && r.error.name in names && FindColumn(schema.columns, r.error.name).None?
  {
    if names == [] then Ok(([], []))
    else
      var k := FindColumn(schema.columns, names[0]);
      if k.None? then Err(NotFound(names[0]))
      else
        var rest := ProjectColumns(schema, names[1..]);
        assert forall n :: n in names ==> n == names[0] || n in names[1..];
        if rest.Err? then rest
        else
          SelectsOneMore(schema, names, rest.value.0, rest.value.1);
          Ok(([schema.columns[k.value]] + rest.value.0, [schema.columnIds[k.value]] + rest.value.1))
  }

  /** Selecting the first name in front of a selection of the others selects all of them. */
  lemma SelectsOneMore(schema: Schema, names: seq<string>, columns: seq<ColumnSchema>, ids: seq<ColumnId>)
    requires |schema.columns| == |schema.columnIds|
    requires names != [] && FindColumn(schema.columns, names[0]).Some?
    requires Selects(schema, names[1..], columns, ids)
    ensures var k := FindColumn(schema.columns, names[0]).value;
            Selects(schema, names, [schema.columns[k]] + columns, [schema.columnIds[k]] + ids)
  {
    var k := FindColumn(schema.columns, names[0]).value;
    var columns', ids' := [schema.columns[k]] + columns, [schema.columnIds[k]] + ids;
    forall i | 1 <= i < |names|
      ensures var k := FindColumn(schema.columns, names[i]);
              k.Some? && columns'[i] == schema.columns[k.value] && ids'[i] == schema.columnIds[k.value]
    {
      assert names[i] == names[1..][i - 1];
    }
  }

  /** A projection of `schema` onto the named columns, of which the first `numKeyColumns` are key columns. */
  function CreateProjectionByNames(schema: Schema, names: seq<string>, numKeyColumns: nat): (r: Result<Schema, SchemaError>)
    requires |schema.columns| == |schema.columnIds|
    ensures r.Ok? <==> (forall n :: n in names ==> FindColumn(schema.columns, n).Some?) && numKeyColumns <= |names|
    ensures r.Ok? ==> && |r.value.columns| == |names| && |r.value.columnIds| == |names|
                      && r.value.numKeyColumns == numKeyColumns
                      && Selects(schema, names, r.value.columns, r.value.columnIds)
    ensures r.Err? && r.error.NotFound? ==> r.error.name in names && FindColumn(schema.columns, r.error.name).None?
  {
    match ProjectColumns(schema, names)
    case Err(e) => Err(e)
    case Ok((columns, ids)) =>
      if numKeyColumns <= |names| then Ok(Schema(columns, ids, numKeyColumns)) else Err(InvalidArgument)
  }

  /** What a row answers for one column. */
  datatype QLValue = Null | Val(v: PrimitiveValue)

  /** The columns a read filled in; a column the row does not hold reads as null. */
  type Row = map<ColumnId, PrimitiveValue>

  function GetValue(row: Row, id: ColumnId): QLValue {
    if id in row then Val(row[id]) else Null
  }

  /** Pairs the key column ids with the document key's components, position by position. */
  function KeyValues(ids: seq<ColumnId>, doc: DocKey): (r: Row)
    ensures forall id :: id in r <==> exists i :: 0 <= i < |ids| && i < |doc| && ids[i] == id
    ensures Distinct(ids) ==> forall i :: 0 <= i < |ids| && i < |doc| ==> r[ids[i]] == doc[i]
  {
    if ids == [] || doc == [] then map[]
    else
      var rest := KeyValues(ids[1..], doc[1..]);
      assert forall id :: id in rest <==> exists i :: 1 <= i < |ids| && i < |doc| && ids[i] == id by {
        forall id | id in rest ensures exists i :: 1 <= i < |ids| && i < |doc| && ids[i] == id {
          var i :| 0 <= i < |ids[1..]| && i < |doc[1..]| && ids[1..][i] == id;
          assert ids[i + 1] == id;
        }
        forall id | exists i :: 1 <= i < |ids| && i < |doc| && ids[i] == id ensures id in rest {
          var i :| 1 <= i < |ids| && i < |doc| && ids[i] == id;
          assert ids[1..][i - 1] == id;
        }
      }
      var r := rest[ids[0] := doc[0]];
      assert Distinct(ids) ==> forall i :: 0 <= i < |ids| && i < |doc| ==> r[ids[i]] == doc[i] by {
        if Distinct(ids) {
          assert Distinct(ids[1..]) by {
            forall i, j | 0 <= i < j < |ids[1..]| ensures ids[1..][i] != ids[1..][j] {
              assert ids[1..][i] == ids[i + 1] && ids[1..][j] == ids[j + 1];
            }
          }
          forall i | 0 <= i < |ids| && i < |doc| ensures r[ids[i]] == doc[i] {
            if i > 0 {
              assert ids[i] != ids[0];
              assert ids[1..][i - 1] == ids[i] && doc[1..][i - 1] == doc[i];
            }
          }
        }
      }
      r
  }

  /** The live values of the columns `ids` of `doc`; a column without one is left out. */
  function ColumnValues(s: seq<Entry>, ctx: TxnContext, doc: DocKey, ids: seq<ColumnId>, readTime: HybridTime)
    : (r: Row)
    ensures forall id :: id in r <==> id in ids && ColumnValue(s, ctx, doc, id, readTime).Some?
    ensures forall id :: id in r ==> r[id] == ColumnValue(s, ctx, doc, id, readTime).value
  {
    if ids == [] then map[]
    else
      var rest := ColumnValues(s, ctx, doc, ids[1..], readTime);
      assert forall id :: id in ids <==> id == ids[0] || id in ids[1..];
      match ColumnValue(s, ctx, doc, ids[0], readTime)
      case None => rest
      case Some(v) => rest[ids[0] := v]
  }

  /** The row of `doc`: the key columns from the document key, overlaid by the projected
      non-key columns that have a live value. */
  function AssembleRow(s: seq<Entry>, ctx: TxnContext, schema: Schema, projection: Schema, doc: DocKey,
                       readTime: HybridTime): (r: Row)
    ensures forall id :: id in ValueColumnIds(projection) && ColumnValue(s, ctx, doc, id, readTime).Some?
                         ==> id in r && r[id] == ColumnValue(s, ctx, doc, id, readTime).value
    ensures Distinct(KeyColumnIds(schema)) ==>
              forall i :: 0 <= i < |KeyColumnIds(schema)| && i < |doc| && KeyColumnIds(schema)[i] !in ValueColumnIds(projection)
                          ==> KeyColumnIds(schema)[i] in r && r[KeyColumnIds(schema)[i]] == doc[i]
    ensures forall id :: id in r ==> id in KeyColumnIds(schema) || id in ValueColumnIds(projection)
  {
    var keys := KeyValues(KeyColumnIds(schema), doc);
    assert forall id :: id in keys ==> id in KeyColumnIds(schema);
    keys + ColumnValues(s, ctx, doc, ValueColumnIds(projection), readTime)
  }

  /** Why a read cannot produce the next row. */
  datatype ReadError =
    | TryAgain(txn: TransactionId)      // the status authority does not know a transaction
    | EndOfIteration                    // no row is left
    | UnknownColumn(id: ColumnId)       // the projection names a column the schema lacks

  /** Everything a read fixes before it starts: the schemas, how intents resolve, and the read time. */
  datatype ReadSpec = ReadSpec(schema: Schema, projection: Schema, ctx: TxnContext, readTime: HybridTime)

  /** The read of one document: an error when an intent's transaction is unknown, no row when the
      document is not live, otherwise its assembled row. */
  function ReadDocument(s: seq<Entry>, rs: ReadSpec, doc: DocKey): (r: Result<Option<Row>, ReadError>)
    ensures r.Err? <==> UnknownTransaction(s, rs.ctx, doc).Some?
    ensures r.Err? ==> r.error == TryAgain(UnknownTransaction(s, rs.ctx, doc).value)
    ensures r == Ok(None) <==> UnknownTransaction(s, rs.ctx, doc).None? && !DocLive(s, rs.ctx, doc, rs.readTime)
    ensures r.Ok? && r.value.Some? ==> r.value.value == AssembleRow(s, rs.ctx, rs.schema, rs.projection, doc, rs.readTime)
  {
    match UnknownTransaction(s, rs.ctx, doc)
    case Some(txn) => Err(TryAgain(txn))
    case None =>
      if DocLive(s, rs.ctx, doc, rs.readTime) then Ok(Some(AssembleRow(s, rs.ctx, rs.schema, rs.projection, doc, rs.readTime)))
      else Ok(None)
  }

  // ---------------------------------------------------------------------------
  // Properties of row assembly

  /** Whether a document yields a row does not depend on the projection: a column outside the
      projection keeps its document alive. */
  lemma LivenessIgnoresProjection(s: seq<Entry>, rs: ReadSpec, projection: Schema, doc: DocKey)
    ensures ReadDocument(s, rs, doc).Ok? == ReadDocument(s, rs.(projection := projection), doc).Ok?
    ensures ReadDocument(s, rs, doc) == Ok(None) <==> ReadDocument(s, rs.(projection := projection), doc) == Ok(None)
  {
  }

  /** A document with a live value in a column the projection leaves out still yields a row. */
  lemma UnprojectedLiveColumnKeepsRow(s: seq<Entry>, rs: ReadSpec, doc: DocKey, col: ColumnId)
    requires UnknownTransaction(s, rs.ctx, doc).None?
    requires ColumnValue(s, rs.ctx, doc, col, rs.readTime).Some?
    ensures ReadDocument(s, rs, doc).Ok? && ReadDocument(s, rs, doc).value.Some?
  {
    DocLiveIffSomeColumnLive(s, rs.ctx, doc, rs.readTime);
  }

  /** Every key column of a returned row holds the document key's component at its key position. */
  lemma KeyColumnsComeFromDocKey(s: seq<Entry>, rs: ReadSpec, doc: DocKey, i: nat)
    requires WellFormed(rs.schema)
    requires ReadDocument(s, rs, doc).Ok? && ReadDocument(s, rs, doc).value.Some?
    requires i < rs.schema.numKeyColumns && i < |doc|
    requires rs.schema.columnIds[i] !in ValueColumnIds(rs.projection)
    ensures GetValue(ReadDocument(s, rs, doc).value.value, rs.schema.columnIds[i]) == Val(doc[i])
  {
    var keys := KeyColumnIds(rs.schema);
    assert Distinct(keys) by {
      forall a, b | 0 <= a < b < |keys| ensures keys[a] != keys[b] {
        assert keys[a] == rs.schema.columnIds[a] && keys[b] == rs.schema.columnIds[b];
      }
    }
    assert keys[i] == rs.schema.columnIds[i];
  }

  /** A projected non-key column of a returned row reads its column's value, null when it has none;
      a column that is neither a key column nor projected reads as null. */
  lemma ProjectedColumnsReadTheirValue(s: seq<Entry>, rs: ReadSpec, doc: DocKey, id: ColumnId)
    requires ReadDocument(s, rs, doc).Ok? && ReadDocument(s, rs, doc).value.Some?
    requires id !in KeyColumnIds(rs.schema)
    ensures id in ValueColumnIds(rs.projection) ==>
              GetValue(ReadDocument(s, rs, doc).value.value, id)
              == (match ColumnValue(s, rs.ctx, doc, id, rs.readTime) case None => Null case Some(v) => Val(v))
    ensures id !in ValueColumnIds(rs.projection) ==> GetValue(ReadDocument(s, rs, doc).value.value, id) == Null
  {
    var keys := KeyValues(KeyColumnIds(rs.schema), doc);
    assert forall k :: k in keys ==> k in KeyColumnIds(rs.schema);
  }
}
