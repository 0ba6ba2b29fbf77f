/**
  Document keys, column ids and the comparator the ordered store relies on.
  The byte encoding is not modelled: each comparator below states the order
  that the encoding produces (type tag first, integers numerically, strings
  byte-wise with a proper prefix first, key components lexicographically).
 */
module DocKeys {

  newtype int64 = x: int | -0x8000_0000_0000_0000 <= x < 0x8000_0000_0000_0000

  /** A primitive key or column value of the two types the schema uses. */
  datatype PrimitiveValue = Int64(i: int64) | String(s: string)

  /** The range components of a document key (no hashed components). */
  type DocKey = seq<PrimitiveValue>

  type ColumnId = nat

  /** What a cell key names inside its document: the document itself or one column. */
  datatype SubKey = DocRoot | Column(id: ColumnId)

  datatype Ordering = Less | Equal | Greater {
    function Flip(): Ordering {
      match this
      case Less => Greater
      case Equal => Equal
      case Greater => Less
    }
  }

  /** Lexicographic combination: the second comparison only decides a tie of the first. */
  function Then(first: Ordering, second: Ordering): Ordering {
    if first == Equal then second else first
  }

  /** A comparator that is antisymmetric, decides equality and is transitive. */
  ghost predicate IsOrder<T(!new)>(cmp: (T, T) -> Ordering) {
    && (forall a, b :: cmp(b, a) == cmp(a, b).Flip())
    && (forall a, b :: cmp(a, b) == Equal <==> a == b)
    && (forall a, b, c :: cmp(a, b) == Less && cmp(b, c) == Less ==> cmp(a, c) == Less)
  }

  function CompareInt(a: int, b: int): Ordering {
    if a < b then Less else if a == b then Equal else Greater
  }

  function CompareChar(a: char, b: char): Ordering {
    CompareInt(a as int, b as int)
  }

  /** Lexicographic order on sequences; a proper prefix sorts first. */
  function CompareLex<T>(a: seq<T>, b: seq<T>, cmp: (T, T) -> Ordering): Ordering
    decreases |a|
  {
    if a == [] && b == [] then Equal
    else if a == [] then Less
    else if b == [] then Greater
    else Then(cmp(a[0], b[0]), CompareLex(a[1..], b[1..], cmp))
  }

  function CompareString(a: string, b: string): Ordering {
    CompareLex(a, b, CompareChar)
  }

  /** 64-bit integers sort before strings (their type tag is smaller). */
  function ComparePrimitive(a: PrimitiveValue, b: PrimitiveValue): Ordering {
    match (a, b)
    case (Int64(x), Int64(y)) => CompareInt(x as int, y as int)
    case (Int64(_), String(_)) => Less
    case (String(_), Int64(_)) => Greater
    case (String(x), String(y)) => CompareString(x, y)
  }

  function CompareDocKeys(a: DocKey, b: DocKey): Ordering {
    CompareLex(a, b, ComparePrimitive)
  }

  /** The document-level key comes before every column key; columns ascend by id. */
  function CompareSubKeys(a: SubKey, b: SubKey): Ordering {
    match (a, b)
    case (DocRoot, DocRoot) => Equal
    case (DocRoot, Column(_)) => Less
    case (Column(_), DocRoot) => Greater
    case (Column(x), Column(y)) => CompareInt(x, y)
  }

  lemma IntOrder()
    ensures IsOrder(CompareInt)
  {
  }

  lemma CharOrder()
    ensures IsOrder(CompareChar)
  {
  }

  lemma {:induction false} LexFlip<T(!new)>(a: seq<T>, b: seq<T>, cmp: (T, T) -> Ordering)
    requires IsOrder(cmp)
    ensures CompareLex(b, a, cmp) == CompareLex(a, b, cmp).Flip()
    decreases |a|
  {
    if a != [] && b != [] {
      LexFlip(a[1..], b[1..], cmp);
    }
  }

  lemma {:induction false} LexEqual<T(!new)>(a: seq<T>, b: seq<T>, cmp: (T, T) -> Ordering)
    requires IsOrder(cmp)
    ensures CompareLex(a, b, cmp) == Equal <==> a == b
    decreases |a|
  {
    if a != [] && b != [] {
      LexEqual(a[1..], b[1..], cmp);
      if a[0] == b[0] && a[1..] == b[1..] {
        assert a == [a[0]] + a[1..] && b == [b[0]] + b[1..];
      }
    }
  }

  lemma {:induction false} LexTrans<T(!new)>(a: seq<T>, b: seq<T>, c: seq<T>, cmp: (T, T) -> Ordering)
    requires IsOrder(cmp)
    requires CompareLex(a, b, cmp) == Less && CompareLex(b, c, cmp) == Less
    ensures CompareLex(a, c, cmp) == Less
    decreases |a|
  {
    if a != [] && b != [] && c != [] && a[0] == b[0] && b[0] == c[0] {
      LexTrans(a[1..], b[1..], c[1..], cmp);
    }
  }

  lemma StringOrder()
    ensures IsOrder(CompareString)
  {
    CharOrder();
    forall a, b ensures CompareString(b, a) == CompareString(a, b).Flip() {
      LexFlip(a, b, CompareChar);
    }
    forall a, b ensures CompareString(a, b) == Equal <==> a == b {
      LexEqual(a, b, CompareChar);
    }
    forall a, b, c | CompareString(a, b) == Less && CompareString(b, c) == Less
      ensures CompareString(a, c) == Less
    {
      LexTrans(a, b, c, CompareChar);
    }
  }

  lemma PrimitiveOrder()
    ensures IsOrder(ComparePrimitive)
  {
    StringOrder();
    forall a, b ensures ComparePrimitive(a, b) == Equal <==> a == b {
      if a.String? && b.String? {
        assert ComparePrimitive(a, b) == CompareString(a.s, b.s);
      }
    }
    forall a, b, c | ComparePrimitive(a, b) == Less && ComparePrimitive(b, c) == Less
      ensures ComparePrimitive(a, c) == Less
    {
      if a.String? && b.String? && c.String? {
        assert CompareString(a.s, b.s) == Less && CompareString(b.s, c.s) == Less;
      }
    }
  }

  /** The document-key comparator is a total order. */
  lemma DocKeyOrder()
    ensures IsOrder(CompareDocKeys)
  {
    PrimitiveOrder();
    forall a, b ensures CompareDocKeys(b, a) == CompareDocKeys(a, b).Flip() {
      LexFlip(a, b, ComparePrimitive);
    }
    forall a, b ensures CompareDocKeys(a, b) == Equal <==> a == b {
      LexEqual(a, b, ComparePrimitive);
    }
    forall a, b, c | CompareDocKeys(a, b) == Less && CompareDocKeys(b, c) == Less
      ensures CompareDocKeys(a, c) == Less
    {
      LexTrans(a, b, c, ComparePrimitive);
    }
  }

  lemma SubKeyOrder()
    ensures IsOrder(CompareSubKeys)
  {
  }
}
