/** The document store with its field indexes, and the query path that uses an
    index when there is one and scans all documents otherwise. */
module QueryOptimizers {
  import opened Sequences
  import opened FieldIndexes

  datatype Range = Range(gte: Option<int>, lte: Option<int>)

  datatype SortSpec = SortSpec(field: string, descending: bool)

  /** `term` is the full-text test that a non-empty search term stands for. */
  datatype QuerySpec = QuerySpec(
    field: string, value: Value, range: Option<Range>, term: Option<Value -> bool>,
    sort: Option<SortSpec>, limit: Option<nat>, offset: Option<nat>)

  const DEFAULT_LIMIT := 100

  /** The scan's bounds test: a missing value is outside every bound. */
  predicate ScanInRange(v: Value, gte: Option<int>, lte: Option<int>) {
    && !(gte.Some? && (v.Null? || v.n < gte.value))
    && !(lte.Some? && (v.Null? || v.n > lte.value))
  }

  predicate ScanKeeps(q: QuerySpec, v: Value) {
    if q.range.Some? then ScanInRange(v, q.range.value.gte, q.range.value.lte)
    else if q.term.Some? then q.term.value(v)
    else v == q.value
  }

  predicate IndexKeeps(q: QuerySpec, v: Value) {
    && (if q.range.Some? then IndexInRange(v, q.range.value.gte, q.range.value.lte) else v == q.value)
    && (q.term.Some? ==> q.term.value(v))
  }

  function ByScan(q: QuerySpec): Doc -> bool {
    (d: Doc) => ScanKeeps(q, FieldOf(d, q.field))
  }

  function ByIndex(q: QuerySpec): Doc -> bool {
    (d: Doc) => IndexKeeps(q, FieldOf(d, q.field))
  }

  /** The comparator of the requested sort, as an order on documents. */
  function DocLe(s: SortSpec): (Doc, Doc) -> bool {
    (a: Doc, b: Doc) =>
      if s.descending then ValueLe(FieldOf(b, s.field), FieldOf(a, s.field))
      else ValueLe(FieldOf(a, s.field), FieldOf(b, s.field))
  }

  /** Sorting and paging, the tail of `search`. */
  function Arrange(found: seq<Doc>, q: QuerySpec): seq<Doc> {
    var sorted := if q.sort.Some? then SortBy(found, DocLe(q.sort.value)) else found;
    Page(sorted, if q.offset.Some? then q.offset.value else 0,
         if q.limit.Some? then q.limit.value else DEFAULT_LIMIT)
  }

  /** One entry of a JavaScript Map; the Map is the sequence of its entries in
      insertion order. */
  datatype Slot = Slot(id: string, doc: Doc)

  function SlotDoc(slot: Slot): Doc { slot.doc }

  function ValuesOf(docs: seq<Slot>): seq<Doc> { Map(docs, SlotDoc) }

  ghost function Stored(docs: seq<Slot>): multiset<Doc> { multiset(ValuesOf(docs)) }

  function SlotId(slot: Slot): string { slot.id }

  ghost predicate DistinctIds(docs: seq<Slot>) {
    NoRepeat(multiset(Map(docs, SlotId)))
  }

  /** Where the Map keeps `id`, or -1. */
  function Find(docs: seq<Slot>, id: string): (at: int)
    ensures -1 <= at < |docs|
    ensures at >= 0 ==> docs[at].id == id
    ensures at < 0 ==> forall i :: 0 <= i < |docs| ==> docs[i].id != id
  {
    if docs == [] then -1
    else if docs[0].id == id then 0
    else
      var at := Find(docs[1..], id);
      if at < 0 then -1 else at + 1
  }

  /** `Map.set`. */
  function Put(docs: seq<Slot>, id: string, doc: Doc): seq<Slot> {
    var at := Find(docs, id);
    if at < 0 then docs + [Slot(id, doc)] else docs[at := Slot(id, doc)]
  }

  /** The entries other than that of `id`. */
  function Without(docs: seq<Slot>, id: string): seq<Slot> {
    var at := Find(docs, id);
    if at < 0 then docs else docs[..at] + docs[at + 1..]
  }

  class QueryOptimizer {
    var docs: seq<Slot>
    var indexes: map<string, FieldIndex>

    /** What holds whatever documents are stored. */
    ghost predicate Shape()
      reads this, indexes.Values
    {
      && DistinctIds(docs)
      && forall f :: f in indexes ==> indexes[f].field == f && indexes[f].Valid()
    }

    /** Every index holds exactly the documents `values`. */
    ghost predicate InSyncWith(values: multiset<Doc>)
      reads this, indexes.Values
    {
      forall f :: f in indexes ==> indexes[f].Docs() == values
    }

    /** The invariant: indexes in step with the store, each document under one id. */
    ghost predicate Valid()
      reads this, indexes.Values
    {
      Shape() && InSyncWith(Stored(docs)) && NoRepeat(Stored(docs))
    }

    /** Puts `doc` in every index; an index lists a document at most once. */
    method IndexDoc(doc: Doc, ghost listed: multiset<Doc>)
      requires Shape() && InSyncWith(listed)
      modifies indexes.Values
      ensures Shape() && InSyncWith(if doc in listed then listed else listed + multiset{doc})
    {
      hide FieldIndex.Valid, FieldIndex.Docs, DistinctIds;
      ghost var after := if doc in listed then listed else listed + multiset{doc};
      var todo := indexes.Keys;
      while todo != {}
        invariant todo <= indexes.Keys
        invariant Shape()
        invariant forall f :: f in todo ==> indexes[f].Docs() == listed
        invariant forall f :: f in indexes && f !in todo ==> indexes[f].Docs() == after
      {
        var f :| f in todo;
        indexes[f].Upsert(doc);
        todo := todo - {f};
      }
    }

    /** Takes `doc` out of every index. */
    method RemoveDoc(doc: Doc, ghost listed: multiset<Doc>)
      requires Shape() && InSyncWith(listed)
      modifies indexes.Values
      ensures Shape() && InSyncWith(listed - multiset{doc})
    {
      hide FieldIndex.Valid, FieldIndex.Docs, DistinctIds;
      ghost var after := listed - multiset{doc};
      var todo := indexes.Keys;
      while todo != {}
        invariant todo <= indexes.Keys
        invariant Shape()
        invariant forall f :: f in todo ==> indexes[f].Docs() == listed
        invariant forall f :: f in indexes && f !in todo ==> indexes[f].Docs() == after
      {
        var f :| f in todo;
        indexes[f].Remove(doc);
        todo := todo - {f};
      }
    }

    /** A new optimizer over `initialDocs`. The code indexes those documents but
        never stores them. */
    constructor (initialDocs: seq<Slot>, autoIndexFields: seq<string>)
      ensures Shape() && fresh(indexes.Values)
      ensures docs == [] && indexes.Keys == set f | f in autoIndexFields
      ensures InSyncWith(Stored(docs)) <==> initialDocs == [] || autoIndexFields == []
    {
      docs, indexes := [], map[];
      new;
      hide FieldIndex.Valid, FieldIndex.Docs;
      for i := 0 to |autoIndexFields|
        invariant docs == [] && Shape() && InSyncWith(multiset{})
        invariant forall f :: f in indexes ==> fresh(indexes[f])
        invariant indexes.Keys == set f | f in autoIndexFields[..i]
      {
        var idx := new FieldIndex(autoIndexFields[i]);
        indexes := indexes[autoIndexFields[i] := idx];
      }
      ghost var listed: multiset<Doc> := multiset{};
      for i := 0 to |initialDocs|
        invariant docs == [] && Shape() && InSyncWith(listed) && (listed == multiset{} <==> i == 0)
        invariant forall f :: f in indexes ==> fresh(indexes[f])
        invariant indexes.Keys == set f | f in autoIndexFields
      {
        var doc := initialDocs[i].doc;
        IndexDoc(doc, listed);
        listed := if doc in listed then listed else listed + multiset{doc};
      }
      assert autoIndexFields != [] ==> autoIndexFields[0] in indexes;
    }

    /** Stores or replaces a document. The invariant survives exactly when the
        object is not already stored under another id; otherwise the indexes,
        which list an object once, fall out of step with the store. */
    method Index(id: string, doc: Doc)
      requires Valid()
      modifies this, indexes.Values
      ensures Shape() && indexes == old(indexes)
      ensures docs == Put(old(docs), id, doc)
      ensures Valid() <==> doc !in Stored(Without(old(docs), id))
      ensures indexes != map[] && !Valid() ==> !InSyncWith(Stored(docs))
    {
      hide FieldIndex.Valid, FieldIndex.Docs, DistinctIds, Stored, Put, Without, Find, NoRepeat;
      ghost var rest := Stored(Without(docs, id));
      PutAndWithout(docs, id, doc);
      var at := Find(docs, id);
      if at >= 0 {
        RemoveDoc(docs[at].doc, Stored(docs));
      }
      docs := Put(docs, id, doc);
      IndexDoc(doc, rest);
      assert doc in rest ==> rest != Stored(docs);
    }

    /** Removes a document, if it is there, from the store and from every index. */
    method Delete(id: string) returns (existed: bool)
      requires Valid()
      modifies this, indexes.Values
      ensures Valid() && indexes == old(indexes)
      ensures existed == (Find(old(docs), id) >= 0) && docs == Without(old(docs), id)
    {
      hide FieldIndex.Valid, FieldIndex.Docs, DistinctIds, Stored, Put, Find, NoRepeat;
      var at := Find(docs, id);
      if at < 0 { return false; }
      var doc := docs[at].doc;
      PutAndWithout(docs, id, doc);
      RemoveDoc(doc, Stored(docs));
      docs := docs[..at] + docs[at + 1..];
      return true;
    }

    /** Builds an index from all stored documents; keeps an existing one. */
    method CreateIndex(field: string)
      requires Valid()
      modifies this
      ensures Valid() && docs == old(docs)
      ensures indexes.Keys == old(indexes).Keys + {field}
      ensures forall f :: f in old(indexes) ==> indexes[f] == old(indexes)[f]
    {
      hide FieldIndex.Valid, FieldIndex.Docs, DistinctIds, Map, NoRepeat;
      if field in indexes { return; }
      var idx := NewIndex(field, ValuesOf(docs));
      indexes := indexes[field := idx];
    }

    method DropIndex(field: string) returns (existed: bool)
      requires Valid()
      modifies this
      ensures Valid() && docs == old(docs)
      ensures existed == (field in old(indexes)) && indexes == old(indexes) - {field}
    {
      existed := field in indexes;
      indexes := indexes - {field};
    }

    /** Runs a query. `found` are the stored documents that the scan's test accepts,
        or those that the index path finds, each once; `results` is, of their requested
        order, the part at the offset within the limit. Another search for the same
        finds the same, in the same order: an index in order is left as it is. */
    method Search(q: QuerySpec) returns (results: seq<Doc>, usedIndex: bool, found: seq<Doc>)
      requires Valid()
      modifies indexes.Values
      ensures Valid()
      ensures usedIndex == (q.field in indexes)
      ensures results == Arrange(found, q)
      ensures var sorted := if q.sort.Some? then SortBy(found, DocLe(q.sort.value)) else found;
              var offset := if q.offset.Some? then q.offset.value else 0;
              var limit := if q.limit.Some? then q.limit.value else 100;
              && |results| == (if offset >= |sorted| then 0
                               else if |sorted| - offset < limit then |sorted| - offset else limit)
              && forall i :: 0 <= i < |results| ==> results[i] == sorted[offset + i]
      ensures !usedIndex ==> found == Filter(ValuesOf(docs), ByScan(q))
      ensures usedIndex ==> multiset(found) == IndexFinds(q, ValuesOf(docs))
      ensures usedIndex ==> found == Looked(indexes[q.field].entries, q) && !indexes[q.field].dirty
      ensures forall f :: f in indexes && !old(indexes[f].dirty) ==> indexes[f].entries == old(indexes[f].entries)
    {
      hide FieldIndex.Valid, FieldIndex.Docs, DistinctIds, NoRepeat, Filter, Map, IndexFinds, ByScan, Arrange, SortBy;
      hide Looked;
      usedIndex := q.field in indexes;
      if usedIndex {
        found := SearchIndex(indexes[q.field], q, ValuesOf(docs));
      } else {
        found := Scan(ValuesOf(docs), q);
      }
      results := Arrange(found, q);
      Arranged(found, q);
    }
  }

  lemma {:induction false} Arranged(found: seq<Doc>, q: QuerySpec)
    ensures var sorted := if q.sort.Some? then SortBy(found, DocLe(q.sort.value)) else found;
            var offset := if q.offset.Some? then q.offset.value else 0;
            var limit := if q.limit.Some? then q.limit.value else 100;
            IsPage(sorted, Arrange(found, q), offset, limit)
  {
    hide SortBy, Page, IsPage;
    var sorted := if q.sort.Some? then SortBy(found, DocLe(q.sort.value)) else found;
    PageIs(sorted, if q.offset.Some? then q.offset.value else 0,
           if q.limit.Some? then q.limit.value else DEFAULT_LIMIT);
  }

  /** What the index path answers with from the entries of a sorted index. */
  ghost function Looked(entries: seq<Entry>, q: QuerySpec): seq<Doc> {
    Filter(if q.range.Some? then DocsOf(Filter(entries, KeyInRange(q.range.value.gte, q.range.value.lte)))
           else if Probe(entries, q.value, 0, |entries| - 1) < 0 then []
           else DocsOf(Filter(entries, HasKey(q.value))), ByTerm(q))
  }

  function AtPage(q: QuerySpec, k: nat, n: nat): QuerySpec {
    q.(offset := Some(k * n), limit := Some(n))
  }

  /** The answers at the offsets 0, n, 2n and so on, joined together, are what was found in
      the requested order, in full once there are enough of them. */
  lemma PagesCover(found: seq<Doc>, q: QuerySpec, n: nat, answers: seq<seq<Doc>>)
    requires n >= 1 && forall k :: 0 <= k < |answers| ==> answers[k] == Arrange(found, AtPage(q, k, n))
    ensures var sorted := if q.sort.Some? then SortBy(found, DocLe(q.sort.value)) else found;
            && Joined(answers) == sorted[..Lesser(|answers| * n, |sorted|)]
            && (|answers| * n >= |sorted| ==> Joined(answers) == sorted)
  {
    hide SortBy, Arrange, IsPage, Joined;
    var sorted := if q.sort.Some? then SortBy(found, DocLe(q.sort.value)) else found;
    forall k | 0 <= k < |answers| ensures IsPage(sorted, answers[k], k * n, n) {
      Arranged(found, AtPage(q, k, n));
    }
    PagesJoin(sorted, answers, n);
  }

  /** Neither page nor order asked for makes a difference to what is found. */
  lemma {:induction false} SameFound(entries: seq<Entry>, docs: seq<Doc>, q: QuerySpec, r: QuerySpec)
    requires q.field == r.field && q.value == r.value && q.range == r.range && q.term == r.term
    ensures Looked(entries, q) == Looked(entries, r) && Filter(docs, ByScan(q)) == Filter(docs, ByScan(r))
  {
    FilterAlike(docs, ByScan(q), ByScan(r));
    FilterAlike(if q.range.Some? then DocsOf(Filter(entries, KeyInRange(q.range.value.gte, q.range.value.lte)))
                else if Probe(entries, q.value, 0, |entries| - 1) < 0 then []
                else DocsOf(Filter(entries, HasKey(q.value))), ByTerm(q), ByTerm(r));
  }

  /** Which stored documents each path finds, in the fields' own terms. A bound admits a
      number on its side or at it; the scan drops a document without the field wherever
      there is a bound, the index drops none. */
  lemma {:induction false} FindsExactly(q: QuerySpec, docs: seq<Doc>, d: Doc)
    requires d in docs
    ensures var v := if q.field in d.fields then d.fields[q.field] else Null;
            d in Filter(docs, ByScan(q)) <==>
              match q.range
              case Some(Range(gte, lte)) =>
                && (gte.Some? ==> v.Num? && gte.value <= v.n) && (lte.Some? ==> v.Num? && v.n <= lte.value)
              case None => if q.term.Some? then q.term.value(v) else v == q.value
    ensures var v := if q.field in d.fields then d.fields[q.field] else Null;
            d in IndexFinds(q, docs) <==>
              && LookupHits(q, docs)
              && (q.term.Some? ==> q.term.value(v))
              && match q.range
                 case Some(Range(gte, lte)) =>
                   v.Num? ==> (gte.Some? ==> gte.value <= v.n) && (lte.Some? ==> v.n <= lte.value)
                 case None => v == q.value
  {
    hide LookupHits;
    FilterCount(docs, ByScan(q), d);
    FilterCount(docs, ByIndex(q), d);
    assert d in multiset(docs);
    assert d in Filter(docs, ByScan(q)) <==> d in multiset(Filter(docs, ByScan(q)));
  }

  method NewIndex(field: string, values: seq<Doc>) returns (idx: FieldIndex)
    requires NoRepeat(multiset(values))
    ensures fresh(idx) && idx.field == field && idx.Valid() && idx.Docs() == multiset(values)
  {
    hide FieldIndex.Valid, FieldIndex.Docs;
    idx := new FieldIndex(field);
    for i := 0 to |values|
      invariant idx.field == field && idx.Valid() && idx.Docs() == multiset(values[..i])
    {
      NoRepeatPrefix(values, i);
      assert values[..i + 1] == values[..i] + [values[i]];
      idx.Upsert(values[i]);
    }
    assert values[..|values|] == values;
  }

  /** The full-scan path. */
  method Scan(values: seq<Doc>, q: QuerySpec) returns (found: seq<Doc>)
    ensures found == Filter(values, ByScan(q))
  {
    found := [];
    for i := 0 to |values|
      invariant found == Filter(values[..i], ByScan(q))
    {
      FilterStep(values, i, ByScan(q));
      var val := FieldOf(values[i], q.field);
      if q.range.Some? {
        var Range(gte, lte) := q.range.value;
        if gte.Some? && (val.Null? || val.n < gte.value) { continue; }
        if lte.Some? && (val.Null? || val.n > lte.value) { continue; }
        found := found + [values[i]];
      } else if q.term.Some? {
        if q.term.value(val) { found := found + [values[i]]; }
      } else {
        if val == q.value { found := found + [values[i]]; }
      }
    }
    assert values[..|values|] == values;
  }

  /** The index path: look up, then apply the full-text test on top. */
  method SearchIndex(idx: FieldIndex, q: QuerySpec, ghost values: seq<Doc>) returns (found: seq<Doc>)
    requires idx.field == q.field && idx.Valid() && idx.Docs() == multiset(values)
    modifies idx
    ensures idx.Valid() && idx.Docs() == multiset(values)
    ensures multiset(found) == IndexFinds(q, values)
    ensures found == Looked(idx.entries, q) && !idx.dirty && (!old(idx.dirty) ==> idx.entries == old(idx.entries))
  {
    hide NoRepeat, Filter, Map, Probe, HasKey, KeyInRange, ByTerm, IndexFinds;
    if q.range.Some? {
      found := idx.Range(q.range.value.gte, q.range.value.lte);
    } else {
      found := idx.Get(q.value);
    }
    IndexAnswer(idx.entries, found, values, q);
    found := Filter(found, ByTerm(q));
  }

  function Lacks(field: string): Doc -> bool {
    (d: Doc) => FieldOf(d, field).Null?
  }

  function LacksOrNegative(field: string): Doc -> bool {
    (d: Doc) => FieldOf(d, field).Null? || FieldOf(d, field).n < 0
  }

  /** Whether the index lookup of a query can be relied on: always, but for the null
      value, when it depends on where the binary search lands. */
  predicate LookupHits(q: QuerySpec, docs: seq<Doc>) {
    || q.range.Some?
    || q.value.Num?
    || 0 <= Landing(|docs| - 1, |Filter(docs, LacksOrNegative(q.field))|) < |Filter(docs, Lacks(q.field))|
  }

  /** The documents that the index path finds, out of those stored. */
  ghost function IndexFinds(q: QuerySpec, docs: seq<Doc>): multiset<Doc> {
    if LookupHits(q, docs) then multiset(Filter(docs, ByIndex(q))) else multiset{}
  }

  /** The lookup part of the index path. */
  function ByLookup(q: QuerySpec): Doc -> bool {
    (d: Doc) => IndexKeeps(q.(term := None), FieldOf(d, q.field))
  }

  /** The full-text part of the index path. */
  function ByTerm(q: QuerySpec): Doc -> bool {
    (d: Doc) => q.term.Some? ==> q.term.value(FieldOf(d, q.field))
  }

  /** The sizes that a lookup of null depends on are those of the stored documents. */
  lemma {:induction false} SameSizes(entries: seq<Entry>, values: seq<Doc>, field: string)
    requires KeysRight(entries, field) && multiset(DocsOf(entries)) == multiset(values)
    ensures |entries| == |values|
    ensures |Filter(entries, BelowZero)| == |Filter(values, LacksOrNegative(field))|
    ensures |Filter(entries, NullKey)| == |Filter(values, Lacks(field))|
  {
    var docs := DocsOf(entries);
    SelectedDocs(entries, field, BelowZero, LacksOrNegative(field));
    SelectedDocs(entries, field, NullKey, Lacks(field));
    FilterSameContents(docs, values, LacksOrNegative(field));
    FilterSameContents(docs, values, Lacks(field));
    assert |multiset(docs)| == |multiset(values)|;
    assert |multiset(Filter(docs, LacksOrNegative(field)))| == |multiset(Filter(values, LacksOrNegative(field)))|;
    assert |multiset(Filter(docs, Lacks(field)))| == |multiset(Filter(values, Lacks(field)))|;
  }

  /** An equality lookup answers with the documents whose field has the value, if it
      hits; only a lookup of null can miss any. */
  lemma {:induction false} LookedUp(entries: seq<Entry>, values: seq<Doc>, q: QuerySpec)
    requires KeysRight(entries, q.field) && Sorted(entries, EntryLe) && multiset(DocsOf(entries)) == multiset(values)
    requires q.range.None?
    ensures (if Probe(entries, q.value, 0, |entries| - 1) < 0 then [] else DocsOf(Filter(entries, HasKey(q.value))))
            == if LookupHits(q, values) then Filter(DocsOf(entries), ByLookup(q)) else []
  {
    LookupExactly(entries, q.value);
    SelectedDocs(entries, q.field, HasKey(q.value), ByLookup(q));
    SameSizes(entries, values, q.field);
    if q.value.Num? { LookupComplete(entries, q.value); }
  }

  /** What the index path looked up, filtered by the term, is what it finds. */
  lemma {:induction false} IndexAnswer(entries: seq<Entry>, looked: seq<Doc>, values: seq<Doc>, q: QuerySpec)
    requires KeysRight(entries, q.field) && Sorted(entries, EntryLe) && multiset(DocsOf(entries)) == multiset(values)
    requires looked == if q.range.Some? then DocsOf(Filter(entries, KeyInRange(q.range.value.gte, q.range.value.lte)))
                       else if Probe(entries, q.value, 0, |entries| - 1) < 0 then []
                       else DocsOf(Filter(entries, HasKey(q.value)))
    ensures multiset(Filter(looked, ByTerm(q))) == IndexFinds(q, values)
  {
    if q.range.Some? {
      SelectedDocs(entries, q.field, KeyInRange(q.range.value.gte, q.range.value.lte), ByLookup(q));
    } else {
      LookedUp(entries, values, q);
    }
    FilterTwice(DocsOf(entries), ByIndex(q), ByLookup(q), ByTerm(q));
    FilterSameContents(DocsOf(entries), values, ByIndex(q));
  }

  /** The document stored under an id. */
  function StoredAt(docs: seq<Slot>, id: string): Option<Doc> {
    var at := Find(docs, id);
    if at < 0 then None else Some(docs[at].doc)
  }

  /** Storing and deleting change what is stored under that id, and nothing else. */
  lemma {:induction false} StoresAndDeletes(docs: seq<Slot>, id: string, doc: Doc, k: string)
    requires DistinctIds(docs)
    ensures StoredAt(Put(docs, id, doc), k) == if k == id then Some(doc) else StoredAt(docs, k)
    ensures StoredAt(Without(docs, id), k) == if k == id then None else StoredAt(docs, k)
  {
    hide Find, DistinctIds;
    var at := Find(docs, id);
    IdsDiffer(docs);
    FoundAt(docs, k);
    PutIds(docs, id, doc);
    IdsDiffer(Put(docs, id, doc));
    IdsDiffer(Without(docs, id));
    var p, w := Put(docs, id, doc), Without(docs, id);
    assert at < 0 ==> p[|docs|] == Slot(id, doc) && forall i :: 0 <= i < |docs| ==> p[i] == docs[i];
    assert at >= 0 ==> p[at] == Slot(id, doc) && forall i :: 0 <= i < |docs| && i != at ==> p[i] == docs[i];
    assert at >= 0 ==> forall i :: 0 <= i < |w| ==> w[i] == if i < at then docs[i] else docs[i + 1];
    var was := Find(docs, k);
    if was >= 0 && k != id {
      assert p[was] == docs[was];
      assert w[if at < 0 || was < at then was else was - 1] == docs[was];
    }
  }

  lemma IdsDiffer(docs: seq<Slot>)
    requires DistinctIds(docs)
    ensures forall i, j :: 0 <= i < j < |docs| ==> docs[i].id != docs[j].id
  {
    var ids := Map(docs, SlotId);
    forall i, j | 0 <= i < j < |docs| ensures docs[i].id != docs[j].id {
      SpliceContents(ids, j);
      assert (ids[..j] + ids[j + 1..])[i] == ids[i];
      assert ids[i] in multiset(ids);
    }
  }

  lemma {:induction false} FoundAt(docs: seq<Slot>, id: string)
    ensures Find(docs, id) >= 0 <==> exists i :: 0 <= i < |docs| && docs[i].id == id
  {
  }

  /** What `Put` and `Without` mean for the contents and the ids. */
  lemma {:induction false} PutAndWithout(docs: seq<Slot>, id: string, doc: Doc)
    requires DistinctIds(docs) && NoRepeat(Stored(docs))
    ensures DistinctIds(Put(docs, id, doc)) && DistinctIds(Without(docs, id))
    ensures Stored(Put(docs, id, doc)) == Stored(Without(docs, id)) + multiset{doc}
    ensures Stored(Without(docs, id)) ==
            if Find(docs, id) < 0 then Stored(docs) else Stored(docs) - multiset{docs[Find(docs, id)].doc}
    ensures NoRepeat(Stored(Without(docs, id)))
    ensures NoRepeat(Stored(Put(docs, id, doc))) <==> doc !in Stored(Without(docs, id))
  {
    hide Find, Map, NoRepeat, Stored;
    var at := Find(docs, id);
    if at >= 0 {
      SpliceValues(docs, at, Slot(id, doc));
    } else {
      AppendValue(docs, Slot(id, doc));
    }
    PutIds(docs, id, doc);
    NoRepeatParts(Stored(docs), Stored(Without(docs, id)), doc);
  }

  lemma PutIds(docs: seq<Slot>, id: string, doc: Doc)
    requires DistinctIds(docs)
    ensures DistinctIds(Put(docs, id, doc)) && DistinctIds(Without(docs, id))
  {
    hide NoRepeat, Find;
    var at, ids := Find(docs, id), Map(docs, SlotId);
    if at >= 0 {
      assert Map(docs[at := Slot(id, doc)], SlotId) == ids;
      assert Map(docs[..at] + docs[at + 1..], SlotId) == ids[..at] + ids[at + 1..];
      SpliceContents(ids, at);
      NoRepeatParts(multiset(ids), multiset(ids[..at] + ids[at + 1..]), id);
    } else {
      assert Map(docs + [Slot(id, doc)], SlotId) == ids + [id];
      NoRepeatParts(multiset(ids), multiset(ids), id);
    }
  }

  lemma NoRepeatParts<T>(whole: multiset<T>, rest: multiset<T>, x: T)
    requires NoRepeat(whole) && rest <= whole
    ensures NoRepeat(rest) && (NoRepeat(rest + multiset{x}) <==> x !in rest)
  {
    assert x in rest ==> (rest + multiset{x})[x] == 2;
  }

  lemma SpliceValues(docs: seq<Slot>, at: nat, slot: Slot)
    requires at < |docs|
    ensures Stored(docs[..at] + docs[at + 1..]) == Stored(docs) - multiset{docs[at].doc}
    ensures Stored(docs[at := slot]) == Stored(docs) - multiset{docs[at].doc} + multiset{slot.doc}
  {
    var values := ValuesOf(docs);
    assert ValuesOf(docs[..at] + docs[at + 1..]) == values[..at] + values[at + 1..];
    assert ValuesOf(docs[at := slot]) == values[at := slot.doc];
    SpliceContents(values, at);
  }

  lemma AppendValue(docs: seq<Slot>, slot: Slot)
    ensures Stored(docs + [slot]) == Stored(docs) + multiset{slot.doc}
  {
    assert ValuesOf(docs + [slot]) == ValuesOf(docs) + [slot.doc];
  }

  lemma NoRepeatPrefix<T>(s: seq<T>, i: nat)
    requires NoRepeat(multiset(s)) && i < |s|
    ensures s[i] !in multiset(s[..i])
  {
    assert s == s[..i] + [s[i]] + s[i + 1..];
    assert s[i] in multiset(s);
  }

  lemma {:induction false} SameFiltered(docs: seq<Doc>, a: Doc -> bool, b: Doc -> bool)
    ensures multiset(Filter(docs, a)) == multiset(Filter(docs, b)) <==> forall d :: d in docs ==> a(d) == b(d)
  {
    var left, right := multiset(Filter(docs, a)), multiset(Filter(docs, b));
    forall d ensures left[d] == (if a(d) then multiset(docs)[d] else 0) && right[d] == if b(d) then multiset(docs)[d]
        else 0 {
      FilterCount(docs, a, d);
      FilterCount(docs, b, d);
    }
    forall d | d in docs ensures left[d] == right[d] <==> a(d) == b(d) {
      assert d in multiset(docs);
    }
    if forall d :: d in docs ==> a(d) == b(d) {
      forall d ensures left[d] == right[d] {
        assert d in docs <==> d in multiset(docs);
      }
    }
  }

  /** The index path finds the documents that the scan finds exactly when, on every
      stored value, its test agrees with the scan's; where its lookup misses, when
      the scan's test accepts none. */
  lemma {:induction false} PathsAgreeExactly(q: QuerySpec, docs: seq<Doc>)
    ensures IndexFinds(q, docs) == multiset(Filter(docs, ByScan(q)))
            <==> forall d :: d in docs ==>
                   (LookupHits(q, docs) && IndexKeeps(q, FieldOf(d, q.field))) == ScanKeeps(q, FieldOf(d, q.field))
  {
    hide LookupHits;
    var none := (d: Doc) => false;
    FilterNone(docs, none);
    SameFiltered(docs, if LookupHits(q, docs) then ByIndex(q) else none, ByScan(q));
  }

  /** Without a search term, an index finds what the scan finds exactly when the query
      is a lookup that hits, or of a null that no document has, or an unbounded range,
      or a range and no stored document lacks the field: a range through the index
      keeps documents whose field is missing. */
  lemma {:induction false} IndexRefinesScan(q: QuerySpec, docs: seq<Doc>)
    requires q.term.None?
    ensures IndexFinds(q, docs) == multiset(Filter(docs, ByScan(q)))
            <==> if q.range.None? then LookupHits(q, docs) || forall d :: d in docs ==> FieldOf(d, q.field).Num?
                 else || (q.range.value.gte.None? && q.range.value.lte.None?)
                      || forall d :: d in docs ==> FieldOf(d, q.field).Num?
  {
    hide Landing;
    PathsAgreeExactly(q, docs);
  }

  /** With a search term and no range, the scan ignores the value asked for, so the
      paths agree exactly when every match of the term has that value, or, where the
      lookup misses, when there is none; with a range the scan ignores the term. */
  lemma {:induction false} TermPathsAgree(q: QuerySpec, docs: seq<Doc>)
    requires q.term.Some?
    ensures IndexFinds(q, docs) == multiset(Filter(docs, ByScan(q)))
            <==> forall d :: d in docs ==>
                   var v := FieldOf(d, q.field);
                   if q.range.None? then q.term.value(v) ==> LookupHits(q, docs) && v == q.value
                   else if ScanInRange(v, q.range.value.gte, q.range.value.lte) then q.term.value(v)
                   else v.Null? ==> !q.term.value(v)
  {
    hide Landing;
    PathsAgreeExactly(q, docs);
  }

  function SortKey(field: string): Doc -> Value {
    (d: Doc) => FieldOf(d, field)
  }

  predicate ValueGe(a: Value, b: Value) {
    ValueLe(b, a)
  }

  function KeyOrder(s: SortSpec): (Value, Value) -> bool {
    if s.descending then ValueGe else ValueLe
  }

  lemma KeyOrderIsTotal(s: SortSpec)
    ensures TotalPreorder(KeyOrder(s)) && TotalPreorder(DocLe(s))
    ensures forall x, y :: KeyOrder(s)(x, y) && KeyOrder(s)(y, x) ==> x == y
  {
    assert forall x, y :: KeyOrder(s)(x, y) || KeyOrder(s)(y, x);
    assert forall x, y :: DocLe(s)(x, y) || DocLe(s)(y, x);
  }

  /** The requested order in the fields' own terms: ascending, a document without the field
      comes before all that have it; descending, behind them. */
  lemma {:induction false} SortedExactly(docs: seq<Doc>, s: SortSpec, i: nat, j: nat)
    requires i < j < |docs|
    ensures var sorted := SortBy(docs, DocLe(s));
            |sorted| == |docs| &&
            var a := if s.field in sorted[i].fields then sorted[i].fields[s.field] else Null;
            var b := if s.field in sorted[j].fields then sorted[j].fields[s.field] else Null;
            if s.descending then b.Null? || (a.Num? && a.n >= b.n) else a.Null? || (b.Num? && a.n <= b.n)
  {
    KeyOrderIsTotal(s);
    SortBySorted(docs, DocLe(s));
    SortByContents(docs, DocLe(s));
    var sorted := SortBy(docs, DocLe(s));
    assert DocLe(s)(sorted[i], sorted[j]);
  }

  lemma {:induction false} SortedKeys(docs: seq<Doc>, s: SortSpec)
    ensures var keys := Map(SortBy(docs, DocLe(s)), SortKey(s.field));
            Sorted(keys, KeyOrder(s)) && multiset(keys) == multiset(Map(docs, SortKey(s.field)))
  {
    KeyOrderIsTotal(s);
    SortBySorted(docs, DocLe(s));
    SortByContents(docs, DocLe(s));
    MapSameContents(SortBy(docs, DocLe(s)), docs, SortKey(s.field));
    var sorted := SortBy(docs, DocLe(s));
    var keys := Map(sorted, SortKey(s.field));
    forall i, j | 0 <= i < j < |keys| ensures KeyOrder(s)(keys[i], keys[j]) {
      assert DocLe(s)(sorted[i], sorted[j]);
    }
  }

  /** When both paths find the same documents, sorting and paging show the same
      sequence of sort keys on every page, although documents with equal keys may
      trade places. */
  lemma PagesAgree(found: seq<Doc>, scanned: seq<Doc>, q: QuerySpec)
    requires q.sort.Some? && multiset(found) == multiset(scanned)
    ensures Map(Arrange(found, q), SortKey(q.sort.value.field)) == Map(Arrange(scanned, q), SortKey(q.sort.value.field))
  {
    hide SortBy, DocLe, TotalPreorder, Sorted, KeyOrder;
    var s := q.sort.value;
    var key := SortKey(s.field);
    var a, b := SortBy(found, DocLe(s)), SortBy(scanned, DocLe(s));
    SortedKeys(found, s);
    SortedKeys(scanned, s);
    MapSameContents(found, scanned, key);
    KeyOrderIsTotal(s);
    SortedUnique(Map(a, key), Map(b, key), KeyOrder(s));
    MapPage(a, b, key, if q.offset.Some? then q.offset.value else 0, if q.limit.Some?
            then q.limit.value else DEFAULT_LIMIT);
  }

  lemma MapPage<T, U>(a: seq<T>, b: seq<T>, f: T -> U, offset: nat, limit: nat)
    requires Map(a, f) == Map(b, f)
    ensures Map(Page(a, offset, limit), f) == Map(Page(b, offset, limit), f)
  {
    assert |a| == |Map(a, f)| == |b|;
    forall i | 0 <= i < |Page(a, offset, limit)| ensures f(Page(a, offset, limit)[i]) == f(Page(b, offset, limit)[i]) {
      assert f(a[offset + i]) == Map(a, f)[offset + i] == Map(b, f)[offset + i];
    }
  }
}
