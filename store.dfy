/**
  The ordered store the read path scans. Its contents are a strictly sorted
  sequence of entries (an ordered map from key to value). The key space has
  three sections, in this order: transaction intents, the reverse index from
  transaction id to intent, and the regular versioned cells.
 */
module DocStore {
  import opened Wrappers
  import opened HybridTimes
  import opened DocKeys

  type TransactionId = nat

  /** A weak intent marks an ancestor of a written path; a strong intent carries the write. */
  datatype IntentStrength = Weak | Strong

  datatype StoreKey =
    | IntentKey(doc: DocKey, subKey: SubKey, strength: IntentStrength, time: DocHybridTime)
    | ReverseIndexKey(txn: TransactionId, time: DocHybridTime)
    | RegularKey(doc: DocKey, subKey: SubKey, time: DocHybridTime)

  /** A cell value: a primitive or the DEL marker. */
  datatype Value = Primitive(p: PrimitiveValue) | Tombstone

  datatype StoreValue =
    | IntentValue(txn: TransactionId, body: Option<Value>)   // `None` for a weak intent
    | ReverseIndexValue(intent: StoreKey)
    | RegularValue(value: Value, ttl: Option<nat>)           // TTL in microseconds

  datatype Entry = Entry(key: StoreKey, value: StoreValue)

  function CompareStrength(a: IntentStrength, b: IntentStrength): Ordering {
    if a == b then Equal else if a == Weak then Less else Greater
  }

  /** Versions of one key sort newest first. */
  function CompareTimes(a: DocHybridTime, b: DocHybridTime): Ordering {
    if Before(b, a) then Less else if a == b then Equal else Greater
  }

  function Section(k: StoreKey): nat {
    match k
    case IntentKey(_, _, _, _) => 0
    case ReverseIndexKey(_, _) => 1
    case RegularKey(_, _, _) => 2
  }

  /** The comparator of the whole store. */
  function CompareKeys(a: StoreKey, b: StoreKey): Ordering {
    match (a, b)
    case (IntentKey(d1, s1, st1, t1), IntentKey(d2, s2, st2, t2)) =>
      Then(CompareDocKeys(d1, d2), Then(CompareSubKeys(s1, s2),
        Then(CompareStrength(st1, st2), CompareTimes(t1, t2))))
    case (ReverseIndexKey(x1, t1), ReverseIndexKey(x2, t2)) =>
      Then(CompareInt(x1, x2), CompareTimes(t1, t2))
    case (RegularKey(d1, s1, t1), RegularKey(d2, s2, t2)) =>
      Then(CompareDocKeys(d1, d2), Then(CompareSubKeys(s1, s2), CompareTimes(t1, t2)))
    case _ => CompareInt(Section(a), Section(b))
  }

  lemma TimesOrder()
    ensures IsOrder(CompareTimes)
  {
  }

  lemma StrengthOrder()
    ensures IsOrder(CompareStrength)
  {
  }

  /** Equal components can be exchanged on either side of a comparison. */
  lemma EqualIsSubstitutive<T(!new)>(cmp: (T, T) -> Ordering, a: T, b: T, c: T)
    requires IsOrder(cmp) && cmp(a, b) == Equal
    ensures cmp(a, c) == cmp(b, c) && cmp(c, a) == cmp(c, b)
  {
  }

  lemma KeyFlip(a: StoreKey, b: StoreKey)
    ensures CompareKeys(b, a) == CompareKeys(a, b).Flip()
  {
    DocKeyOrder();
    SubKeyOrder();
    IntOrder();
    TimesOrder();
    StrengthOrder();
  }

  lemma KeyEqual(a: StoreKey, b: StoreKey)
    ensures CompareKeys(a, b) == Equal <==> a == b
  {
    DocKeyOrder();
    SubKeyOrder();
    IntOrder();
    TimesOrder();
    StrengthOrder();
  }

  lemma KeyTrans(a: StoreKey, b: StoreKey, c: StoreKey)
    requires CompareKeys(a, b) == Less && CompareKeys(b, c) == Less
    ensures CompareKeys(a, c) == Less
  {
    DocKeyOrder();
    SubKeyOrder();
    IntOrder();
    TimesOrder();
    StrengthOrder();
    if a.IntentKey? && b.IntentKey? && c.IntentKey? {
      if CompareDocKeys(a.doc, b.doc) == Equal { EqualIsSubstitutive(CompareDocKeys, a.doc, b.doc, c.doc); }
      if CompareDocKeys(b.doc, c.doc) == Equal { EqualIsSubstitutive(CompareDocKeys, b.doc, c.doc, a.doc); }
    } else if a.RegularKey? && b.RegularKey? && c.RegularKey? {
      if CompareDocKeys(a.doc, b.doc) == Equal { EqualIsSubstitutive(CompareDocKeys, a.doc, b.doc, c.doc); }
      if CompareDocKeys(b.doc, c.doc) == Equal { EqualIsSubstitutive(CompareDocKeys, b.doc, c.doc, a.doc); }
    }
  }

  /** The store comparator is a total order. */
  lemma KeyOrder()
    ensures IsOrder(CompareKeys)
  {
    forall a, b ensures CompareKeys(b, a) == CompareKeys(a, b).Flip() { KeyFlip(a, b); }
    forall a, b ensures CompareKeys(a, b) == Equal <==> a == b { KeyEqual(a, b); }
    forall a, b, c | CompareKeys(a, b) == Less && CompareKeys(b, c) == Less
      ensures CompareKeys(a, c) == Less
    {
      KeyTrans(a, b, c);
    }
  }

  ghost predicate Sorted(s: seq<Entry>) {
    forall i, j :: 0 <= i < j < |s| ==> CompareKeys(s[i].key, s[j].key) == Less
  }

  lemma HeadBelowTail(s: seq<Entry>)
    requires Sorted(s) && s != []
    ensures forall x :: x in s[1..] ==> CompareKeys(s[0].key, x.key) == Less
  {
    forall x | x in s[1..] ensures CompareKeys(s[0].key, x.key) == Less {
      var j :| 0 <= j < |s[1..]| && s[1..][j] == x;
      assert s[j + 1] == x;
    }
  }

  lemma PrependSorted(h: Entry, t: seq<Entry>)
    requires Sorted(t)
    requires forall x :: x in t ==> CompareKeys(h.key, x.key) == Less
    ensures Sorted([h] + t)
  {
    var r := [h] + t;
    forall i, j | 0 <= i < j < |r| ensures CompareKeys(r[i].key, r[j].key) == Less {
      if i == 0 {
        assert r[j] == t[j - 1] && r[j] in t;
      } else {
        assert r[i] == t[i - 1] && r[j] == t[j - 1];
      }
    }
  }

  /** Insert an entry, replacing the entry with the same key if there is one. */
  function Upsert(s: seq<Entry>, e: Entry): (r: seq<Entry>)
    requires Sorted(s)
    ensures Sorted(r)
    ensures forall x :: x in r <==> x == e || (x in s && x.key != e.key)
  {
    KeyOrder();
    if s == [] then [e]
    else
      HeadBelowTail(s);
      var c := CompareKeys(e.key, s[0].key);
      if c == Less then
        PrependSorted(e, s);
        [e] + s
      else if c == Equal then
        PrependSorted(e, s[1..]);
        [e] + s[1..]
      else
        var t := Upsert(s[1..], e);
        PrependSorted(s[0], t);
        [s[0]] + t
  }

  lemma SortedTail(s: seq<Entry>)
    requires Sorted(s) && s != []
    ensures Sorted(s[1..])
  {
    forall a, b | 0 <= a < b < |s| - 1 ensures CompareKeys(s[1..][a].key, s[1..][b].key) == Less {
      assert s[1..][a] == s[a + 1] && s[1..][b] == s[b + 1];
    }
  }

  /** Upserting a key above the first key keeps the first entry in front. */
  lemma UpsertPastHead(s: seq<Entry>, e: Entry)
    requires Sorted(s) && s != [] && CompareKeys(s[0].key, e.key) == Less
    ensures Sorted(s[1..]) && Upsert(s, e) == [s[0]] + Upsert(s[1..], e)
  {
    KeyFlip(s[0].key, e.key);
    SortedTail(s);
  }

  /** Putting `e` at position `i - 1` of the tail and the head in front puts `e` at position `i`. */
  lemma SpliceBehindHead<T>(s: seq<T>, i: nat, e: T, k: nat)
    requires 0 < i <= |s| && i <= k <= |s|
    ensures [s[0]] + (s[1..][..i - 1] + [e] + s[1..][k - 1..]) == s[..i] + [e] + s[k..]
  {
    assert s[..i] == [s[0]] + s[1..][..i - 1];
    assert s[k..] == s[1..][k - 1..];
  }

  /** A key that sorts between positions `i - 1` and `i` is inserted at position `i`. */
  lemma {:induction false} UpsertAt(s: seq<Entry>, i: nat, e: Entry)
    requires Sorted(s) && i <= |s|
    requires 0 < i ==> CompareKeys(s[i - 1].key, e.key) == Less
    requires i < |s| ==> CompareKeys(e.key, s[i].key) == Less
    ensures Upsert(s, e) == s[..i] + [e] + s[i..]
  {
    if i > 0 {
      if i > 1 {
        KeyTrans(s[0].key, s[i - 1].key, e.key);
      }
      UpsertPastHead(s, e);
      var t := s[1..];
      assert 0 < i - 1 ==> t[i - 2] == s[i - 1];
      assert i - 1 < |t| ==> t[i - 1] == s[i];
      UpsertAt(t, i - 1, e);
      SpliceBehindHead(s, i, e, i);
    }
  }

  /** An entry whose key is already at position `i` replaces the entry there. */
  lemma {:induction false} UpsertReplaces(s: seq<Entry>, i: nat, e: Entry)
    requires Sorted(s) && i < |s| && s[i].key == e.key
    ensures Upsert(s, e) == s[..i] + [e] + s[i + 1..]
  {
    if i > 0 {
      UpsertPastHead(s, e);
      var t := s[1..];
      assert t[i - 1] == s[i];
      UpsertReplaces(t, i - 1, e);
      SpliceBehindHead(s, i, e, i + 1);
    } else {
      KeyEqual(e.key, s[0].key);
    }
  }

  /** A key that sorts between the entries `p` and the entries `q` goes in between. */
  lemma UpsertBetween(p: seq<Entry>, q: seq<Entry>, e: Entry)
    requires Sorted(p + q)
    requires p != [] ==> CompareKeys(p[|p| - 1].key, e.key) == Less
    requires q != [] ==> CompareKeys(e.key, q[0].key) == Less
    ensures Upsert(p + q, e) == p + [e] + q
  {
    var s := p + q;
    assert 0 < |p| ==> s[|p| - 1] == p[|p| - 1];
    assert |p| < |s| ==> s[|p|] == q[0];
    UpsertAt(s, |p|, e);
    assert s[..|p|] == p && s[|p|..] == q;
  }

  /** An entry replaces the entry `x` with its key. */
  lemma UpsertOver(p: seq<Entry>, x: Entry, q: seq<Entry>, e: Entry)
    requires Sorted(p + [x] + q) && x.key == e.key
    ensures Upsert(p + [x] + q, e) == p + [e] + q
  {
    var s := p + [x] + q;
    assert s[|p|] == x;
    UpsertReplaces(s, |p|, e);
    assert s[..|p|] == p && s[|p| + 1..] == q;
  }

  /** A key above every key of `s` goes at the end. */
  lemma UpsertAppend(s: seq<Entry>, e: Entry)
    requires Sorted(s) && (s != [] ==> CompareKeys(s[|s| - 1].key, e.key) == Less)
    ensures Upsert(s, e) == s + [e]
  {
    UpsertAt(s, |s|, e);
    assert s[..|s|] == s;
  }

  /** Two keys above every key of `s`, upserted in ascending order, go at the end in that order. */
  lemma UpsertAppendTwo(s: seq<Entry>, a: Entry, b: Entry)
    requires Sorted(s) && (s != [] ==> CompareKeys(s[|s| - 1].key, a.key) == Less)
    requires CompareKeys(a.key, b.key) == Less
    ensures Upsert(Upsert(s, a), b) == s + [a, b]
  {
    UpsertAppend(s, a);
    var t := s + [a];
    assert t[|t| - 1] == a;
    UpsertAppend(t, b);
    assert t + [b] == s + [a, b];
  }

  /** A key below every key of `s` goes in front. */
  lemma UpsertPrepend(s: seq<Entry>, e: Entry)
    requires Sorted(s) && s != [] && CompareKeys(e.key, s[0].key) == Less
    ensures Upsert(s, e) == [e] + s
  {
  }

  /** An entry already in the store changes nothing when it is written again. */
  lemma UpsertSame(s: seq<Entry>, x: Entry)
    requires Sorted(s) && x in s
    ensures Upsert(s, x) == s
  {
    var i :| 0 <= i < |s| && s[i] == x;
    UpsertReplaces(s, i, x);
    SpliceSame(s, i);
  }

  lemma SpliceSame<T>(s: seq<T>, i: nat)
    requires i < |s|
    ensures s[..i] + [s[i]] + s[i + 1..] == s
  {
  }

  /** Every entry of `p` lies in a section before section `n`. */
  ghost predicate SectionsBelow(p: seq<Entry>, n: nat) {
    forall x :: x in p ==> Section(x.key) < n
  }

  /** Every entry of `g` lies in a section after section `n`. */
  ghost predicate SectionsAbove(g: seq<Entry>, n: nat) {
    forall x :: x in g ==> n < Section(x.key)
  }

  lemma SortedSplit(p: seq<Entry>, g: seq<Entry>)
    requires Sorted(p + g)
    ensures Sorted(p) && Sorted(g)
  {
    var s := p + g;
    forall i, j | 0 <= i < j < |p| ensures CompareKeys(p[i].key, p[j].key) == Less {
      assert s[i] == p[i] && s[j] == p[j];
    }
    forall i, j | 0 <= i < j < |g| ensures CompareKeys(g[i].key, g[j].key) == Less {
      assert s[|p| + i] == g[i] && s[|p| + j] == g[j];
    }
  }

  /** How a concatenation starts when its first part is not empty. */
  lemma ConcatHead<T>(p: seq<T>, g: seq<T>)
    requires p != []
    ensures (p + g)[0] == p[0] && (p + g)[1..] == p[1..] + g
  {
  }

  lemma ConsConcat<T>(x: T, p: seq<T>, g: seq<T>)
    ensures [x] + (p + g) == [x] + p + g
  {
  }

  /** An entry with the key of the first entry replaces it. */
  lemma UpsertHead(s: seq<Entry>, e: Entry)
    requires Sorted(s) && s != [] && s[0].key == e.key
    ensures Upsert(s, e) == [e] + s[1..]
  {
    KeyEqual(e.key, s[0].key);
  }

  /** Writing into a section before every entry of `g` leaves `g` as it was, behind the write. */
  lemma {:induction false} UpsertInFront(p: seq<Entry>, g: seq<Entry>, e: Entry)
    requires Sorted(p + g) && SectionsAbove(g, Section(e.key))
    ensures Sorted(p) && Upsert(p + g, e) == Upsert(p, e) + g
  {
    SortedSplit(p, g);
    if p == [] {
      assert p + g == g;
      if g != [] {
        assert g[0] in g;
        UpsertPrepend(g, e);
      }
    } else {
      var s := p + g;
      ConcatHead(p, g);
      var c := CompareKeys(e.key, p[0].key);
      KeyEqual(e.key, p[0].key);
      if c == Less {
        UpsertPrepend(s, e);
        UpsertPrepend(p, e);
        ConsConcat(e, p, g);
      } else if c == Equal {
        UpsertHead(s, e);
        UpsertHead(p, e);
        ConsConcat(e, p[1..], g);
      } else {
        KeyFlip(e.key, p[0].key);
        UpsertPastHead(s, e);
        UpsertPastHead(p, e);
        UpsertInFront(p[1..], g, e);
        ConsConcat(p[0], Upsert(p[1..], e), g);
      }
    }
  }

  /** Writing into a section after every entry of `p` leaves `p` as it was, in front of the write. */
  lemma {:induction false} UpsertBehind(p: seq<Entry>, g: seq<Entry>, e: Entry)
    requires Sorted(p + g) && SectionsBelow(p, Section(e.key))
    ensures Sorted(g) && Upsert(p + g, e) == p + Upsert(g, e)
  {
    SortedSplit(p, g);
    if p == [] {
      assert p + g == g;
    } else {
      var s := p + g;
      ConcatHead(p, g);
      assert p[0] in p;
      UpsertPastHead(s, e);
      assert SectionsBelow(p[1..], Section(e.key)) by {
        forall x | x in p[1..] ensures x in p { }
      }
      UpsertBehind(p[1..], g, e);
      ConsConcat(p[0], p[1..], Upsert(g, e));
      assert [p[0]] + p[1..] == p;
    }
  }

  /** The entries of `s` that satisfy `p`, in order. */
  function Select(s: seq<Entry>, p: Entry -> bool): (r: seq<Entry>)
    ensures forall x :: x in r <==> x in s && p(x)
  {
    if s == [] then [] else (if p(s[0]) then [s[0]] else []) + Select(s[1..], p)
  }

  lemma {:induction false} SelectSorted(s: seq<Entry>, p: Entry -> bool)
    requires Sorted(s)
    ensures Sorted(Select(s, p))
  {
    if s != [] {
      SelectSorted(s[1..], p);
      HeadBelowTail(s);
      if p(s[0]) {
        PrependSorted(s[0], Select(s[1..], p));
      }
    }
  }

  predicate IsIntent(e: Entry) { e.key.IntentKey? }
  predicate IsRegular(e: Entry) { e.key.RegularKey? }

  /** The intent section and the regular section, each the range of one prefix iterator. */
  function IntentSection(s: seq<Entry>): seq<Entry> { Select(s, IsIntent) }
  function RegularSection(s: seq<Entry>): seq<Entry> { Select(s, IsRegular) }

  function DocOf(e: Entry): DocKey
    requires IsIntent(e) || IsRegular(e)
  {
    e.key.doc
  }

  /** `s` names document `d` in an intent or in a regular cell. */
  ghost predicate HasDocument(s: seq<Entry>, d: DocKey) {
    exists e :: e in s && (IsIntent(e) || IsRegular(e)) && DocOf(e) == d
  }

  /** Inside one section the document keys never decrease. */
  ghost predicate DocsAscend(view: seq<Entry>) {
    && (forall e :: e in view ==> IsIntent(e) || IsRegular(e))
    && (forall i, j :: 0 <= i <= j < |view| ==> CompareDocKeys(DocOf(view[i]), DocOf(view[j])) != Greater)
  }

  lemma SortedDocsAscend(view: seq<Entry>)
    requires Sorted(view)
    requires (forall e :: e in view ==> IsIntent(e)) || (forall e :: e in view ==> IsRegular(e))
    ensures DocsAscend(view)
  {
    DocKeyOrder();
    forall i, j | 0 <= i <= j < |view|
      ensures CompareDocKeys(DocOf(view[i]), DocOf(view[j])) != Greater
    {
      if i < j {
        assert CompareKeys(view[i].key, view[j].key) == Less;
        assert view[i] in view && view[j] in view;
      }
    }
  }

  lemma SectionDocsAscend(s: seq<Entry>)
    requires Sorted(s)
    ensures DocsAscend(IntentSection(s)) && DocsAscend(RegularSection(s))
  {
    SelectSorted(s, IsIntent);
    SelectSorted(s, IsRegular);
    forall e | e in IntentSection(s) ensures IsIntent(e) { }
    forall e | e in RegularSection(s) ensures IsRegular(e) { }
    SortedDocsAscend(IntentSection(s));
    SortedDocsAscend(RegularSection(s));
  }
}
