/** The sorted-array index of one document field. */
module FieldIndexes {
  import opened Sequences

  /** A field value: missing, or one of a totally ordered kind. */
  datatype Value = Null | Num(n: int)

  /** A document object. `ref` is its identity: documents are compared with
      `===`, and no document is changed while it is indexed. */
  datatype Doc = Doc(ref: nat, fields: map<string, Value>)

  datatype Entry = Entry(key: Value, doc: Doc)

  function FieldOf(d: Doc, field: string): Value {
    if field in d.fields then d.fields[field] else Null
  }

  /** The order of the sort comparator: missing values first. */
  predicate ValueLe(a: Value, b: Value) {
    a.Null? || (b.Num? && a.n <= b.n)
  }

  predicate EntryLe(a: Entry, b: Entry) {
    ValueLe(a.key, b.key)
  }

  /** JavaScript's `k < value` for a present `k`: a null operand counts as zero. */
  predicate JsLess(k: Value, value: Value)
    requires k.Num?
  {
    if value.Null? then k.n < 0 else k.n < value.n
  }

  /** The bounds test of the index: it never drops a missing value. */
  predicate IndexInRange(key: Value, gte: Option<int>, lte: Option<int>) {
    && !(gte.Some? && key.Num? && key.n < gte.value)
    && !(lte.Some? && key.Num? && key.n > lte.value)
  }

  function EntryDoc(e: Entry): Doc { e.doc }

  function DocsOf(entries: seq<Entry>): seq<Doc> { Map(entries, EntryDoc) }

  function HasKey(value: Value): Entry -> bool {
    (e: Entry) => e.key == value
  }

  function KeyInRange(gte: Option<int>, lte: Option<int>): Entry -> bool {
    (e: Entry) => IndexInRange(e.key, gte, lte)
  }

  /** Position of the first entry that holds `doc`, or -1. */
  function FindDoc(entries: seq<Entry>, doc: Doc): (pos: int)
    ensures -1 <= pos < |entries|
    ensures pos >= 0 ==> entries[pos].doc == doc && forall i :: 0 <= i < pos ==> entries[i].doc != doc
    ensures pos < 0 <==> doc !in DocsOf(entries)
  {
    if entries == [] then -1
    else if entries[0].doc == doc then
      assert DocsOf(entries)[0] == doc;
      0
    else
      assert DocsOf(entries) == [entries[0].doc] + DocsOf(entries[1..]);
      var p := FindDoc(entries[1..], doc);
      if p < 0 then -1 else p + 1
  }

  ghost predicate NoRepeat<T>(m: multiset<T>) {
    forall x :: x in m ==> m[x] == 1
  }

  ghost predicate KeysRight(entries: seq<Entry>, field: string) {
    forall i :: 0 <= i < |entries| ==> entries[i].key == FieldOf(entries[i].doc, field)
  }

  /** Where the binary search of `get` stops between `lo` and `hi`, or -1. */
  function Probe(entries: seq<Entry>, value: Value, lo: nat, hi: int): (at: int)
    requires hi < |entries|
    ensures -1 <= at < |entries| && (at >= 0 ==> lo <= at <= hi && entries[at].key == value)
    decreases hi + 1 - lo
  {
    if lo > hi then -1
    else
      var mid := (lo + hi) / 2;
      var k := entries[mid].key;
      if k == value then mid
      else if k.Null? || JsLess(k, value) then Probe(entries, value, mid + 1, hi)
      else Probe(entries, value, lo, mid - 1)
  }

  /** The binary search of `get`. */
  method BinarySearch(entries: seq<Entry>, value: Value) returns (at: int)
    ensures at == Probe(entries, value, 0, |entries| - 1)
  {
    var lo, hi := 0, |entries| - 1;
    var mid := -1;
    while lo <= hi
      invariant 0 <= lo <= hi + 1 <= |entries|
      invariant -1 <= mid < |entries| && (mid >= 0 ==> entries[mid].key != value)
      invariant Probe(entries, value, 0, |entries| - 1) == Probe(entries, value, lo, hi)
    {
      mid := (lo + hi) / 2;
      var k := entries[mid].key;
      if k == value { break; }
      if k.Null? || JsLess(k, value) {
        lo := mid + 1;
      } else {
        hi := mid - 1;
      }
    }
    if mid < 0 || entries[mid].key != value {
      return -1;
    }
    return mid;
  }

  /** The two-way expansion of `get`: the run of equal keys around a hit. */
  method Expand(entries: seq<Entry>, mid: nat, value: Value) returns (results: seq<Doc>)
    requires Sorted(entries, EntryLe) && mid < |entries| && entries[mid].key == value
    ensures results == DocsOf(Filter(entries, HasKey(value)))
  {
    var i: int := mid;
    while i >= 0 && entries[i].key == value
      invariant -1 <= i <= mid
      invariant forall j :: i < j <= mid ==> entries[j].key == value
    {
      i := i - 1;
    }
    i := i + 1;
    ghost var from := i;
    results := [];
    while i < |entries| && entries[i].key == value
      invariant from <= i <= |entries|
      invariant i <= mid ==> forall j :: i <= j <= mid ==> entries[j].key == value
      invariant forall j :: from <= j < i ==> entries[j].key == value
      invariant |results| == i - from && forall j :: 0 <= j < i - from ==> results[j] == entries[from + j].doc
    {
      results := results + [entries[i].doc];
      i := i + 1;
    }
    RunEnds(entries, from, i, value);
    FilterRun(entries, from, i, HasKey(value));
  }

  /** The loop of `range`. */
  method SelectRange(entries: seq<Entry>, gte: Option<int>, lte: Option<int>) returns (results: seq<Doc>)
    ensures results == DocsOf(Filter(entries, KeyInRange(gte, lte)))
  {
    results := [];
    for i := 0 to |entries|
      invariant results == DocsOf(Filter(entries[..i], KeyInRange(gte, lte)))
    {
      var Entry(key, doc) := entries[i];
      FilterStep(entries, i, KeyInRange(gte, lte));
      if gte.Some? && key.Num? && key.n < gte.value { continue; }
      if lte.Some? && key.Num? && key.n > lte.value { continue; }
      results := results + [doc];
    }
    assert entries[..|entries|] == entries;
  }

  /** One field index. */
  class FieldIndex {
    const field: string
    var entries: seq<Entry>
    var dirty: bool

    /** The invariant: keys are right, no document is listed twice, and entries
        are in order unless marked dirty. */
    ghost predicate Valid()
      reads this
    {
      && KeysRight(entries, field)
      && NoRepeat(Docs())
      && (!dirty ==> Sorted(entries, EntryLe))
    }

    /** The documents in the index. */
    ghost function Docs(): multiset<Doc>
      reads this
    {
      multiset(DocsOf(entries))
    }

    constructor (field: string)
      ensures this.field == field && Docs() == multiset{} && Valid()
    {
      this.field := field;
      entries := [];
      dirty := false;
    }

    /** Adds a document, or refreshes its entry. */
    method Upsert(doc: Doc)
      requires Valid()
      modifies this
      ensures Valid()
      ensures Docs() == if doc in old(Docs()) then old(Docs()) else old(Docs()) + multiset{doc}
    {
      var key := FieldOf(doc, field);
      var pos := FindDoc(entries, doc);
      if pos >= 0 {
        assert entries[pos := Entry(key, doc)] == entries;
        entries := entries[pos := Entry(key, doc)];
      } else {
        assert DocsOf(entries + [Entry(key, doc)]) == DocsOf(entries) + [doc];
        entries := entries + [Entry(key, doc)];
      }
      dirty := true;
    }

    method Remove(doc: Doc)
      requires Valid()
      modifies this
      ensures Valid()
      ensures Docs() == old(Docs()) - multiset{doc}
    {
      var pos := FindDoc(entries, doc);
      if pos >= 0 {
        SpliceEntries(entries, pos, field);
        entries := entries[..pos] + entries[pos + 1..];
      }
    }

    method EnsureSorted()
      requires Valid()
      modifies this
      ensures Valid() && !dirty && Sorted(entries, EntryLe) && Docs() == old(Docs())
      ensures !old(dirty) ==> entries == old(entries)
    {
      if !dirty { return; }
      SortEntries(entries, field);
      entries := SortBy(entries, EntryLe);
      dirty := false;
    }

    /** Equality lookup: binary search for any hit, then expansion both ways. */
    method Get(value: Value) returns (results: seq<Doc>)
      requires Valid()
      modifies this
      ensures Valid() && !dirty && Sorted(entries, EntryLe) && Docs() == old(Docs())
      ensures !old(dirty) ==> entries == old(entries)
      ensures results == if Probe(entries, value, 0, |entries| - 1) < 0 then []
                         else DocsOf(Filter(entries, HasKey(value)))
    {
      hide *;
      EnsureSorted();
      var mid := BinarySearch(entries, value);
      if mid < 0 {
        return [];
      }
      results := Expand(entries, mid, value);
    }

    /** Range lookup with inclusive bounds. */
    method Range(gte: Option<int>, lte: Option<int>) returns (results: seq<Doc>)
      requires Valid()
      modifies this
      ensures Valid() && !dirty && Sorted(entries, EntryLe) && Docs() == old(Docs())
      ensures !old(dirty) ==> entries == old(entries)
      ensures results == DocsOf(Filter(entries, KeyInRange(gte, lte)))
    {
      hide *;
      EnsureSorted();
      results := SelectRange(entries, gte, lte);
    }
  }

  lemma SpliceEntries(entries: seq<Entry>, pos: nat, field: string)
    requires pos < |entries| && KeysRight(entries, field)
    ensures var rest := entries[..pos] + entries[pos + 1..];
            && KeysRight(rest, field)
            && (Sorted(entries, EntryLe) ==> Sorted(rest, EntryLe))
            && multiset(DocsOf(rest)) == multiset(DocsOf(entries)) - multiset{entries[pos].doc}
  {
    var docs := DocsOf(entries);
    assert DocsOf(entries[..pos] + entries[pos + 1..]) == docs[..pos] + docs[pos + 1..];
    SpliceContents(docs, pos);
  }

  lemma {:induction false} SortEntries(entries: seq<Entry>, field: string)
    requires KeysRight(entries, field)
    ensures var sorted := SortBy(entries, EntryLe);
            && KeysRight(sorted, field) && Sorted(sorted, EntryLe)
            && multiset(DocsOf(sorted)) == multiset(DocsOf(entries))
  {
    var sorted := SortBy(entries, EntryLe);
    SortByContents(entries, EntryLe);
    assert forall x, y :: EntryLe(x, y) || EntryLe(y, x);
    SortBySorted(entries, EntryLe);
    MapSameContents(sorted, entries, EntryDoc);
    forall i | 0 <= i < |sorted| ensures sorted[i].key == FieldOf(sorted[i].doc, field) {
      assert sorted[i] in multiset(entries);
    }
  }

  /** The binary search for a number reports a hit if it is present. */
  lemma {:induction false} ProbeFinds(entries: seq<Entry>, value: Value, lo: nat, hi: int, at: nat)
    requires Sorted(entries, EntryLe) && value.Num?
    requires lo <= at <= hi < |entries| && entries[at].key == value
    ensures Probe(entries, value, lo, hi) >= 0
    decreases hi + 1 - lo
  {
    var mid := (lo + hi) / 2;
    if entries[mid].key != value {
      assert at < mid ==> EntryLe(entries[at], entries[mid]);
      assert mid < at ==> EntryLe(entries[mid], entries[at]);
      if entries[mid].key.Null? || JsLess(entries[mid].key, value) {
        ProbeFinds(entries, value, mid + 1, hi, at);
      } else {
        ProbeFinds(entries, value, lo, mid - 1, at);
      }
    }
  }

  /** Where a search that halves `0..hi` until it is below `bound` lands, or -1. */
  function Landing(hi: int, bound: nat): int
    requires hi >= -1
  {
    if hi < 0 then -1 else if hi / 2 < bound then hi / 2 else Landing(hi / 2 - 1, bound)
  }

  /** Comparing with a null value treats it as zero, so a search for it goes left from
      the keys that are not negative, and from a negative key goes right for good: it
      hits exactly when it lands among the nulls. */
  lemma {:induction false} NullProbeExactly(entries: seq<Entry>, nulls: nat, below: nat, hi: int)
    requires nulls <= below <= |entries| && -1 <= hi < |entries|
    requires forall i :: 0 <= i < |entries| ==> (entries[i].key.Null? <==> i < nulls)
    requires forall i :: nulls <= i < |entries| ==> (entries[i].key.n < 0 <==> i < below)
    ensures Probe(entries, Null, 0, hi) >= 0 <==> 0 <= Landing(hi, below) < nulls
  {
    if hi >= 0 && hi / 2 >= below {
      NullProbeExactly(entries, nulls, below, hi / 2 - 1);
    }
  }

  function NullKey(e: Entry): bool {
    e.key.Null?
  }

  function BelowZero(e: Entry): bool {
    e.key.Null? || e.key.n < 0
  }

  /** In a sorted array a lookup hits exactly when the value is present, and a lookup
      of null when the search lands below the number of nulls. */
  lemma {:induction false} LookupExactly(entries: seq<Entry>, value: Value)
    requires Sorted(entries, EntryLe)
    ensures Probe(entries, value, 0, |entries| - 1) >= 0 <==>
            if value.Num? then exists at :: 0 <= at < |entries| && entries[at].key == value
            else 0 <= Landing(|entries| - 1, |Filter(entries, BelowZero)|) < |Filter(entries, NullKey)|
  {
    hide Probe, Landing, Filter;
    if value.Num? {
      if at :| 0 <= at < |entries| && entries[at].key == value {
        ProbeFinds(entries, value, 0, |entries| - 1, at);
      }
    } else {
      NullLookupExactly(entries);
    }
  }

  lemma {:induction false} NullLookupExactly(entries: seq<Entry>)
    requires Sorted(entries, EntryLe)
    ensures Probe(entries, Null, 0, |entries| - 1) >= 0
            <==> 0 <= Landing(|entries| - 1, |Filter(entries, BelowZero)|) < |Filter(entries, NullKey)|
  {
    hide Probe, Landing, Filter, Sorted;
    var nulls, below := FirstIndex(entries, (e: Entry) => !NullKey(e)),
      FirstIndex(entries, (e: Entry) => !BelowZero(e));
    PrefixCounts(entries, nulls, NullKey);
    PrefixCounts(entries, below, BelowZero);
    NullProbeExactly(entries, nulls, below, |entries| - 1);
  }

  /** In a sorted array the entries below a bound come first. */
  lemma {:induction false} PrefixCounts(entries: seq<Entry>, n: nat, low: Entry -> bool)
    requires Sorted(entries, EntryLe) && n <= |entries|
    requires forall x, y :: low(y) && EntryLe(x, y) ==> low(x)
    requires (forall i :: 0 <= i < n ==> low(entries[i])) && (n < |entries| ==> !low(entries[n]))
    ensures |Filter(entries, low)| == n && forall i :: 0 <= i < |entries| ==> (low(entries[i]) <==> i < n)
  {
    forall i | 0 <= i < |entries| ensures low(entries[i]) <==> i < n {
      if n < i { assert EntryLe(entries[n], entries[i]); }
    }
    FilterRun(entries, 0, n, low);
  }

  /** A lookup of the null value beside negative keys misses the document it asks for. */
  lemma NullLookupMisses(d: Doc, e: Doc, f: Doc)
    ensures var entries := [Entry(Null, d), Entry(Num(-5), e), Entry(Num(-3), f)];
            Sorted(entries, EntryLe) && entries[0].key == Null && Probe(entries, Null, 0, 2) < 0
  {
    NullProbeExactly([Entry(Null, d), Entry(Num(-5), e), Entry(Num(-3), f)], 1, 3, 2);
  }

  /** A lookup that misses has nothing to find, unless it is one of null. */
  lemma {:induction false} LookupComplete(entries: seq<Entry>, value: Value)
    requires Sorted(entries, EntryLe)
    ensures Probe(entries, value, 0, |entries| - 1) < 0 && Filter(entries, HasKey(value)) != [] ==>
              value.Null? && !(0 <= Landing(|entries| - 1, |Filter(entries, BelowZero)|) < |Filter(entries, NullKey)|)
  {
    LookupExactly(entries, value);
    if forall at :: 0 <= at < |entries| ==> entries[at].key != value {
      FilterNone(entries, HasKey(value));
    }
  }

  /** Equal keys sit together in a sorted array. */
  lemma RunEnds(entries: seq<Entry>, from: nat, to: nat, value: Value)
    requires Sorted(entries, EntryLe) && from < to <= |entries|
    requires forall j :: from <= j < to ==> entries[j].key == value
    requires from > 0 ==> entries[from - 1].key != value
    requires to < |entries| ==> entries[to].key != value
    ensures forall i :: 0 <= i < |entries| ==> (HasKey(value)(entries[i]) <==> from <= i < to)
  {
    forall i | 0 <= i < |entries| ensures entries[i].key == value <==> from <= i < to {
      if i < from {
        assert i < from - 1 ==> EntryLe(entries[i], entries[from - 1]);
        assert EntryLe(entries[from - 1], entries[from]);
      } else if i >= to {
        assert to < i ==> EntryLe(entries[to], entries[i]);
        assert EntryLe(entries[to - 1], entries[to]);
      }
    }
  }

  /** Selecting entries by key is selecting documents by field. */
  lemma {:induction false} SelectedDocs(entries: seq<Entry>, field: string, keepEntry: Entry -> bool,
                                        keepDoc: Doc -> bool)
    requires KeysRight(entries, field)
    requires forall d :: keepDoc(d) == keepEntry(Entry(FieldOf(d, field), d))
    ensures DocsOf(Filter(entries, keepEntry)) == Filter(DocsOf(entries), keepDoc)
  {
    if entries != [] {
      var last := |entries| - 1;
      SelectedDocs(entries[..last], field, keepEntry, keepDoc);
      assert DocsOf(entries)[..last] == DocsOf(entries[..last]);
      assert entries[last] == Entry(FieldOf(entries[last].doc, field), entries[last].doc);
    }
  }
}
