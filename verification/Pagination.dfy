/** Keyset pagination: what the resolvers' queries return, and what a client that
    follows the cursors gets to see. */
module Pagination {
  import opened Sequences

  /** The two columns a listing is ordered by. Ids compare as the database collates
      them; a plan, which is ordered by its id alone, has 0 for the other. */
  datatype Row = Row(created: int, id: int)

  /** Newest first, then by id. */
  predicate Before(a: Row, b: Row) {
    a.created > b.created || (a.created == b.created && a.id < b.id)
  }

  predicate NotAfter(a: Row, b: Row) {
    !Before(b, a)
  }

  ghost predicate InOrder(s: seq<Row>) {
    forall i, j :: 0 <= i < j < |s| ==> Before(s[i], s[j])
  }

  /** The primary key: no row is in a table twice. */
  ghost predicate NoRepeats(s: seq<Row>) {
    forall r :: r in s ==> multiset(s)[r] == 1
  }

  function Wanted(mine: Row -> bool, after: Option<Row>): Row -> bool {
    (r: Row) => mine(r) && (after.Some? ==> Before(after.value, r))
  }

  /** The query without its limit. */
  function Listing(table: seq<Row>, mine: Row -> bool, after: Option<Row>): seq<Row> {
    SortBy(Filter(table, Wanted(mine, after)), NotAfter)
  }

  /** The query with its limit, which the database refuses when negative. */
  function Select(table: seq<Row>, mine: Row -> bool, after: Option<Row>, limit: int): Option<seq<Row>> {
    if limit < 0 then None else Some(Page(Listing(table, mine, after), 0, limit))
  }

  /** The opaque cursors. */
  datatype Codec = Codec(encode: Row -> string, decode: string -> Option<Row>)

  ghost predicate Faithful(c: Codec) {
    forall r :: c.encode(r) != "" && c.decode(c.encode(r)) == Some(r)
  }

  /** A missing, an empty and an unreadable cursor all mean the first page. */
  function Decoded(c: Codec, cursor: Option<string>): Option<Row> {
    if cursor.Some? && cursor.value != "" then c.decode(cursor.value) else None
  }

  function Limit(first: Option<int>, byDefault: int): int {
    var asked := if first.Some? then first.value else byDefault;
    if asked < 100 then asked else 100
  }

  datatype Edge = Edge(cursor: string, node: Row)

  datatype PageInfo = PageInfo(hasNextPage: bool, hasPreviousPage: bool,
                               startCursor: Option<string>, endCursor: Option<string>)

  datatype Connection = Connection(edges: seq<Edge>, pageInfo: PageInfo)

  function BuildPageInfo(edges: seq<Edge>, hasNextPage: bool, hasPreviousPage: bool): PageInfo {
    PageInfo(hasNextPage, hasPreviousPage,
             if edges == [] then None else Some(edges[0].cursor),
             if edges == [] then None else Some(edges[|edges| - 1].cursor))
  }

  function Connect(c: Codec, rows: seq<Row>, hasNextPage: bool, hasPreviousPage: bool): Connection {
    var edges := Map(rows, (r: Row) => Edge(c.encode(r), r));
    Connection(edges, BuildPageInfo(edges, hasNextPage, hasPreviousPage))
  }

  function Nodes(page: Connection): seq<Row> {
    Map(page.edges, (e: Edge) => e.node)
  }

  /** JavaScript's `slice(0, end)`, which counts a negative end from the back. */
  function SliceTo(rows: seq<Row>, end: int): seq<Row> {
    if end >= |rows| then rows
    else if end >= 0 then rows[..end]
    else if |rows| + end > 0 then rows[..|rows| + end] else []
  }

  /** What a request is owed: the first so many of the rows that come after the
      cursor, and whether any are left. */
  function Answer(c: Codec, rest: seq<Row>, first: int, resumed: bool): Option<Connection> {
    if first < -1 then None
    else Some(Connect(c, SliceTo(rest, if first < 0 then 0 else first), |rest| > first, resumed))
  }

  method Resolve(table: seq<Row>, mine: Row -> bool, c: Codec, first: Option<int>, cursor: Option<string>)
    returns (page: Option<Connection>, totalCount: nat)
    ensures var after := Decoded(c, cursor);
            page == Answer(c, Listing(table, mine, after), Limit(first, 20), after.Some?)
    ensures page.Some? ==> totalCount == |Filter(table, mine)|
    ensures var asked, rest := if first.Some? then first.value else 20, |Listing(table, mine, Decoded(c, cursor))|;
            && (page.None? <==> asked < -1)
            && (page.Some? ==> |page.value.edges| <= 100)
            && (asked >= 0 && asked <= 100 ==> |page.value.edges| == if rest < asked then rest else asked)
            && (asked > 100 ==> |page.value.edges| == if rest < 100 then rest else 100)
  {
    totalCount := 0;
    var limit := Limit(first, 20);
    var after := Decoded(c, cursor);
    var result := Select(table, mine, after, limit + 1);
    if result == None { return None, totalCount; }
    var rows := result.value;
    assert rows == SliceTo(Listing(table, mine, after), limit + 1);
    var hasNextPage := |rows| > limit;
    if hasNextPage { rows := SliceTo(rows, limit); }
    assert rows == SliceTo(Listing(table, mine, after), if limit < 0 then 0 else limit);
    totalCount := |Filter(table, mine)|;
    page := Some(Connect(c, rows, hasNextPage, after.Some?));
  }

  lemma ListingContents(table: seq<Row>, mine: Row -> bool, after: Option<Row>, r: Row)
    ensures multiset(Listing(table, mine, after))[r] == if Wanted(mine, after)(r) then multiset(table)[r] else 0
  {
    SortByContents(Filter(table, Wanted(mine, after)), NotAfter);
    FilterCount(table, Wanted(mine, after), r);
  }

  lemma NoneTwice(s: seq<Row>, i: nat, j: nat)
    requires i < j < |s| && NoRepeats(s)
    ensures s[i] != s[j]
  {
    SpliceContents(s, j);
    assert (s[..j] + s[j + 1..])[i] == s[i];
    assert s[i] in s;
  }

  lemma SortedInOrder(s: seq<Row>)
    requires Sorted(s, NotAfter) && NoRepeats(s)
    ensures InOrder(s)
  {
    hide NoRepeats;
    forall i, j | 0 <= i < j < |s| ensures Before(s[i], s[j]) {
      NoneTwice(s, i, j);
    }
  }

  /** In the columns' own terms: the user's rows behind the cursor, newest first and, of those
      of one time, by their ids. */
  lemma ListingTells(table: seq<Row>, mine: Row -> bool, after: Option<Row>)
    requires NoRepeats(table)
    ensures var listing := Listing(table, mine, after);
            && (forall i, j :: 0 <= i < j < |listing| ==>
                  listing[i].created > listing[j].created
                  || (listing[i].created == listing[j].created && listing[i].id < listing[j].id))
            && (forall r :: r in listing <==>
                  && r in table && mine(r)
                  && (after.Some? ==>
                        r.created < after.value.created
                        || (r.created == after.value.created && r.id > after.value.id)))
  {
    ListingExactly(table, mine, after);
    hide Listing, NoRepeats;
  }

  /** A listing is exactly the wanted rows, each once and in order. */
  lemma ListingExactly(table: seq<Row>, mine: Row -> bool, after: Option<Row>)
    requires NoRepeats(table)
    ensures InOrder(Listing(table, mine, after))
    ensures forall r :: r in Listing(table, mine, after) <==> r in table && Wanted(mine, after)(r)
  {
    var s := Listing(table, mine, after);
    assert Sorted(s, NotAfter) by { SortBySorted(Filter(table, Wanted(mine, after)), NotAfter); }
    hide Listing, Wanted, InOrder, Sorted;
    forall r ensures r in s <==> r in table && Wanted(mine, after)(r)
             ensures r in s ==> multiset(s)[r] == 1
    {
      ListingContents(table, mine, after, r);
      assert r in s <==> multiset(s)[r] > 0;
      assert r in table <==> multiset(table)[r] > 0;
    }
    SortedInOrder(s);
  }

  lemma {:induction false} InOrderUnique(s: seq<Row>, t: seq<Row>)
    requires InOrder(s) && InOrder(t) && forall r :: r in s <==> r in t
    ensures s == t
  {
    assert s != [] ==> s[0] in t;
    assert t != [] ==> t[0] in s;
    if s != [] {
      assert s[0] in t && t[0] in s;
      assert s[0] == t[0];
      forall r ensures r in s[1..] <==> r in t[1..] {
        assert r in s[1..] <==> r in s && r != s[0];
        assert r in t[1..] <==> r in t && r != t[0];
      }
      InOrderUnique(s[1..], t[1..]);
    }
  }

  /** Asking from a row of the listing gives the rest of it. */
  lemma ListingResumes(table: seq<Row>, mine: Row -> bool, after: Option<Row>, k: nat)
    requires NoRepeats(table) && 0 < k <= |Listing(table, mine, after)|
    ensures Listing(table, mine, Some(Listing(table, mine, after)[k - 1])) == Listing(table, mine, after)[k..]
  {
    hide Listing, NoRepeats;
    var s := Listing(table, mine, after);
    var rest := Listing(table, mine, Some(s[k - 1]));
    ListingExactly(table, mine, after);
    ListingExactly(table, mine, Some(s[k - 1]));
    forall r ensures r in rest <==> r in s[k..] {
      if r in s {
        var i :| 0 <= i < |s| && s[i] == r;
        assert Before(s[k - 1], r) <==> i >= k;
        if i >= k { assert s[k..][i - k] == r; }
      } else {
        assert r in s[k..] ==> r in s;
        assert s[k - 1] in s;
      }
    }
    InOrderUnique(rest, s[k..]);
  }

  /** Where a client goes on: the end of the page, while there is a next one. */
  function Next(page: Connection): Option<string> {
    if page.pageInfo.hasNextPage then page.pageInfo.endCursor else None
  }

  /** What a page hands over. A page that announces another has a cursor to reach it
      exactly when at least one row was asked for. */
  lemma AnswerPage(c: Codec, rest: seq<Row>, first: int, resumed: bool)
    requires first >= -1
    ensures var page := Answer(c, rest, first, resumed).value;
            && Nodes(page) == SliceTo(rest, if first < 0 then 0 else first)
            && (page.pageInfo.hasNextPage <==> |rest| > first)
            && (page.pageInfo.hasNextPage ==> (page.pageInfo.endCursor.Some? <==> first >= 1))
            && (first >= 1 && |rest| > first ==> Next(page) == Some(c.encode(rest[first - 1])))
  {
  }

  /** All rows of a table that does not change, gathered by following the cursors:
      everything when at least one row is asked for at a time, nothing otherwise. */
  method CollectAllPages(table: seq<Row>, mine: Row -> bool, c: Codec, first: Option<int>)
      returns (all: Option<seq<Row>>)
    requires Faithful(c) && NoRepeats(table)
    ensures all.None? <==> Limit(first, 20) < -1
    ensures all.Some? ==> all.value == if Limit(first, 20) >= 1 then Listing(table, mine, None) else []
  {
    hide Listing, NoRepeats, Nodes, Connect;
    ghost var listing, limit, done := Listing(table, mine, None), Limit(first, 20), 0;
    var gathered: seq<Row> := [];
    var cursor: Option<string> := None;
    while true
      invariant 0 <= done <= |listing| && gathered == listing[..done]
      invariant Listing(table, mine, Decoded(c, cursor)) == listing[done..]
      invariant limit < 1 ==> done == 0
      decreases |listing| - done
    {
      var page, _ := Resolve(table, mine, c, first, cursor);
      if page == None { return None; }
      AnswerPage(c, listing[done..], limit, Decoded(c, cursor).Some?);
      gathered := gathered + Nodes(page.value);
      cursor := Next(page.value);
      if cursor == None { return Some(gathered); }
      done := done + limit;
      ListingResumes(table, mine, None, done);
    }
  }

  /** Requests made one after another by a client that follows the cursors, each
      answered from the table as it is by then; whether the walk came to its end. */
  function Walk(tables: seq<seq<Row>>, mine: Row -> bool, c: Codec, first: nat, after: Option<Row>): (seq<Row>, bool) {
    if tables == [] then ([], false)
    else
      var page := Answer(c, Listing(tables[0], mine, after), first, after.Some?).value;
      var next := Next(page);
      if next == None then (Nodes(page), true)
      else
        var (seen, finished) := Walk(tables[1..], mine, c, first, Decoded(c, next));
        (Nodes(page) + seen, finished)
  }

  /** No row is shown twice or out of order, and none that was not there. */
  ghost predicate Orderly(tables: seq<seq<Row>>, mine: Row -> bool, after: Option<Row>, seen: seq<Row>) {
    && InOrder(seen)
    && (forall r :: r in seen ==> Wanted(mine, after)(r) && exists t :: t in tables && r in t)
  }

  /** A row that is there throughout is shown, or still to come. */
  ghost predicate Complete(tables: seq<seq<Row>>, mine: Row -> bool, after: Option<Row>, seen: seq<Row>,
                           finished: bool) {
    forall r :: Wanted(mine, after)(r) && (forall t :: t in tables ==> r in t) ==>
      r in seen || (!finished && forall x :: x in seen ==> Before(x, r))
  }

  /** What a walk has to show for itself so far. */
  ghost predicate Faultless(tables: seq<seq<Row>>, mine: Row -> bool, after: Option<Row>, seen: seq<Row>,
                            finished: bool) {
    Orderly(tables, mine, after, seen) && Complete(tables, mine, after, seen, finished)
  }

  /** Cursors that keep the id, and of the time no more than its beginning, as when the
      database counts in microseconds and a cursor in milliseconds. */
  ghost predicate Coarse(c: Codec, cut: Row -> Row) {
    && (forall r :: c.encode(r) != "" && c.decode(c.encode(r)) == Some(cut(r)))
    && (forall r :: cut(r).id == r.id && cut(r).created <= r.created)
  }

  /** A row that follows `last` and that the cursor of `last` does not lead to. */
  predicate Hidden(cut: Row -> Row, last: Row, r: Row) {
    Before(last, r) && !Before(cut(last), r)
  }

  ghost predicate NoneHidden(tables: seq<seq<Row>>, mine: Row -> bool, cut: Row -> Row) {
    forall t, u, x, y :: t in tables && u in tables && x in t && y in u && mine(x) && mine(y) ==> !Hidden(cut, x, y)
  }

  lemma CutBefore(c: Codec, cut: Row -> Row, last: Row, r: Row)
    requires Coarse(c, cut)
    ensures Before(cut(last), r) ==> Before(last, r)
  {
  }

  /** However coarse the cursors, and while rows come and go between the requests, no row
      is seen twice or out of order; and one that is there throughout is seen where no
      row is hidden behind another. */
  lemma {:induction false} CoarseWalk(tables: seq<seq<Row>>, mine: Row -> bool, c: Codec, cut: Row -> Row, first: nat,
                                      after: Option<Row>)
    requires Coarse(c, cut) && first >= 1 && forall t :: t in tables ==> NoRepeats(t)
    ensures var (seen, finished) := Walk(tables, mine, c, first, after);
            && Orderly(tables, mine, after, seen)
            && (NoneHidden(tables, mine, cut) ==> Complete(tables, mine, after, seen, finished))
  {
    hide Orderly, Complete, NoneHidden, Coarse, Listing, InOrder, NoRepeats, Answer, Wanted;
    if tables == [] {
      NothingSeen(mine, after);
    } else {
      var rest := Listing(tables[0], mine, after);
      ListingExactly(tables[0], mine, after);
      AnswerPage(c, rest, first, after.Some?);
      if |rest| > first {
        var last := rest[first - 1];
        NextCursor(c, cut, last);
        CoarseWalk(tables[1..], mine, c, cut, first, Some(cut(last)));
        var (seen, finished) := Walk(tables[1..], mine, c, first, Some(cut(last)));
        OrderlyStep(tables, mine, c, cut, after, rest, first, seen);
        if NoneHidden(tables, mine, cut) {
          FewerHidden(tables, mine, cut);
          CompleteStep(tables, mine, cut, after, rest, first, seen, finished);
        }
      } else {
        WalkEnd(tables, mine, after, rest);
      }
    }
  }

  lemma NothingSeen(mine: Row -> bool, after: Option<Row>)
    ensures Orderly([], mine, after, []) && Complete([], mine, after, [], false)
  {
  }

  lemma NextCursor(c: Codec, cut: Row -> Row, last: Row)
    requires Coarse(c, cut)
    ensures Decoded(c, Some(c.encode(last))) == Some(cut(last))
  {
  }

  lemma FewerHidden(tables: seq<seq<Row>>, mine: Row -> bool, cut: Row -> Row)
    requires tables != [] && NoneHidden(tables, mine, cut)
    ensures NoneHidden(tables[1..], mine, cut)
  {
  }

  /** While rows come and go between the requests, no row is seen twice or out of
      order, and one that is there throughout is seen. */
  lemma {:induction false} WalkIsFaultless(tables: seq<seq<Row>>, mine: Row -> bool, c: Codec, first: nat,
                                           after: Option<Row>)
    requires Faithful(c) && first >= 1 && forall t :: t in tables ==> NoRepeats(t)
    ensures var (seen, finished) := Walk(tables, mine, c, first, after);
            Faultless(tables, mine, after, seen, finished)
  {
    hide Orderly, Complete, NoRepeats, Walk;
    CoarseWalk(tables, mine, c, (r: Row) => r, first, after);
  }

  lemma WalkEnd(tables: seq<seq<Row>>, mine: Row -> bool, after: Option<Row>, rest: seq<Row>)
    requires tables != [] && InOrder(rest)
    requires forall r :: r in rest <==> r in tables[0] && Wanted(mine, after)(r)
    ensures Orderly(tables, mine, after, rest) && Complete(tables, mine, after, rest, true)
  {
    assert tables[0] in tables;
  }

  lemma OrderlyStep(tables: seq<seq<Row>>, mine: Row -> bool, c: Codec, cut: Row -> Row, after: Option<Row>,
                    rest: seq<Row>,
                    first: nat, seen: seq<Row>)
    requires Coarse(c, cut) && tables != [] && InOrder(rest) && 1 <= first < |rest|
    requires forall r :: r in rest <==> r in tables[0] && Wanted(mine, after)(r)
    requires Orderly(tables[1..], mine, Some(cut(rest[first - 1])), seen)
    ensures Orderly(tables, mine, after, rest[..first] + seen)
  {
    hide Coarse;
    var last := rest[first - 1];
    assert tables[0] in tables && last in rest;
    var all := rest[..first] + seen;
    forall r | r in seen ensures Before(last, r) {
      CutBefore(c, cut, last, r);
    }
    forall i, j | 0 <= i < j < |all| ensures Before(all[i], all[j]) {
      if i < first <= j {
        assert all[j] == seen[j - first] && seen[j - first] in seen;
        assert i < first - 1 ==> Before(rest[i], last);
      }
    }
    forall r | r in all ensures Wanted(mine, after)(r) && exists t :: t in tables && r in t {
      if r in seen {
        var t :| t in tables[1..] && r in t;
        assert t in tables;
      } else {
        assert r in rest;
      }
    }
  }

  lemma CompleteStep(tables: seq<seq<Row>>, mine: Row -> bool, cut: Row -> Row, after: Option<Row>, rest: seq<Row>,
                     first: nat, seen: seq<Row>, finished: bool)
    requires tables != [] && InOrder(rest) && 1 <= first < |rest| && NoneHidden(tables, mine, cut)
    requires forall r :: r in rest <==> r in tables[0] && Wanted(mine, after)(r)
    requires Complete(tables[1..], mine, Some(cut(rest[first - 1])), seen, finished)
    ensures Complete(tables, mine, after, rest[..first] + seen, finished)
  {
    var last := rest[first - 1];
    assert tables[0] in tables && last in rest;
    forall r | Wanted(mine, after)(r) && (forall t :: t in tables ==> r in t)
      ensures r in rest[..first] + seen || (!finished && forall x :: x in rest[..first] + seen ==> Before(x, r))
    {
      var i :| 0 <= i < |rest| && rest[i] == r;
      if i < first {
        assert rest[..first][i] == r;
      } else {
        assert Before(last, r) && !Hidden(cut, last, r);
      }
    }
  }

  lemma {:induction false} WalkNowhere(mine: Row -> bool, c: Codec, after: Option<Row>)
    ensures Walk([], mine, c, 1, after) == ([], false)
  {
  }

  lemma {:induction false} WalkOnce(tables: seq<seq<Row>>, mine: Row -> bool, c: Codec, cut: Row -> Row,
                                    after: Option<Row>)
    requires tables != [] && Coarse(c, cut)
    ensures var rest, seen := Listing(tables[0], mine, after), Walk(tables, mine, c, 1, after).0;
            seen == if |rest| > 1 then [rest[0]] + Walk(tables[1..], mine, c, 1, Some(cut(rest[0]))).0 else rest
  {
    hide Listing, Answer, Nodes, Coarse;
    var rest := Listing(tables[0], mine, after);
    AnswerPage(c, rest, 1, after.Some?);
    if |rest| > 1 { NextCursor(c, cut, rest[0]); }
  }

  /** What the cursor of a listing's first row leads to: the rows behind it that are not
      hidden. */
  lemma ListingPast(table: seq<Row>, mine: Row -> bool, c: Codec, cut: Row -> Row, after: Option<Row>)
    requires Coarse(c, cut) && NoRepeats(table) && |Listing(table, mine, after)| > 0
    ensures var rest := Listing(table, mine, after);
            var more := Listing(table, mine, Some(cut(rest[0])));
            && (forall j :: 0 < j < |rest| ==> (rest[j] in more <==> !Hidden(cut, rest[0], rest[j])))
            && (more == rest[1..] <==> forall j :: 0 < j < |rest| ==> rest[j] in more)
  {
    ListingExactly(table, mine, after);
    var rest := Listing(table, mine, after);
    ListingExactly(table, mine, Some(cut(rest[0])));
    hide Listing, NoRepeats, Coarse;
    var more := Listing(table, mine, Some(cut(rest[0])));
    assert forall j :: 0 < j < |rest| ==> rest[j] in rest && Before(rest[0], rest[j]);
    assert forall j :: 0 < j < |rest| ==> rest[1..][j - 1] == rest[j];
    if forall j :: 0 < j < |rest| ==> rest[j] in more {
      assert rest[0] in rest;
      forall r ensures r in more <==> r in rest[1..] {
        CutBefore(c, cut, rest[0], r);
        if r in more { assert r in rest && r != rest[0]; }
      }
      InOrderUnique(more, rest[1..]);
    }
  }

  lemma {:induction false} SeenIsListed(table: seq<Row>, n: nat, mine: Row -> bool, c: Codec, cut: Row -> Row, at: Row,
                                        r: Row)
    requires Coarse(c, cut) && NoRepeats(table)
    ensures r in Walk(seq(n, _ => table), mine, c, 1, Some(at)).0 ==> r in Listing(table, mine, Some(at))
  {
    var tables := seq(n, _ => table);
    CoarseWalk(tables, mine, c, cut, 1, Some(at));
    ListingExactly(table, mine, Some(at));
    hide Coarse, NoRepeats, Listing, Wanted, Walk;
    assert forall t :: t in tables ==> t == table;
  }

  ghost predicate NoneHiddenIn(rest: seq<Row>, cut: Row -> Row) {
    forall i, j :: 0 <= i < j < |rest| ==> !Hidden(cut, rest[i], rest[j])
  }

  lemma NoneHiddenCons(rest: seq<Row>, cut: Row -> Row)
    requires rest != []
    ensures NoneHiddenIn(rest, cut) <==>
              NoneHiddenIn(rest[1..], cut) && forall j :: 0 < j < |rest| ==> !Hidden(cut, rest[0], rest[j])
  {
    hide Hidden;
    assert forall i :: 0 < i < |rest| ==> rest[i] == rest[1..][i - 1];
  }

  /** One row at a time, a table that does not change is shown in full exactly when no row
      of it is hidden behind another: of two rows made in one instant of the cursor's, the
      second may be lost. */
  lemma {:induction false} CoarseWalkExactly(table: seq<Row>, n: nat, mine: Row -> bool, c: Codec, cut: Row -> Row,
                                             after: Option<Row>)
    requires Coarse(c, cut) && NoRepeats(table) && n >= |Listing(table, mine, after)|
    ensures var rest := Listing(table, mine, after);
            Walk(seq(n, _ => table), mine, c, 1, after).0 == rest <==> NoneHiddenIn(rest, cut)
  {
    hide Listing, NoRepeats, Coarse, Hidden, Walk, NoneHiddenIn;
    var rest := Listing(table, mine, after);
    if n == 0 {
      WalkNowhere(mine, c, after);
      OneHidesNone(rest, cut);
      assert seq(n, _ => table) == [];
    } else {
      var tables := seq(n, _ => table);
      assert tables[1..] == seq(n - 1, _ => table);
      WalkOnce(tables, mine, c, cut, after);
      if |rest| > 1 {
        var at := cut(rest[0]);
        var seen := Walk(tables[1..], mine, c, 1, Some(at)).0;
        ListingPast(table, mine, c, cut, after);
        NoneHiddenCons(rest, cut);
        assert rest == [rest[0]] + rest[1..];
        assert [rest[0]] + seen == rest <==> seen == rest[1..] by { assert ([rest[0]] + seen)[1..] == seen; }
        if Listing(table, mine, Some(at)) == rest[1..] {
          CoarseWalkExactly(table, n - 1, mine, c, cut, Some(at));
        } else {
          var j :| 0 < j < |rest| && rest[j] !in Listing(table, mine, Some(at));
          SeenIsListed(table, n - 1, mine, c, cut, at, rest[j]);
          assert rest[1..][j - 1] == rest[j];
        }
      } else {
        OneHidesNone(rest, cut);
      }
    }
  }

  lemma OneHidesNone(rest: seq<Row>, cut: Row -> Row)
    requires |rest| <= 1
    ensures NoneHiddenIn(rest, cut)
  {
  }

  lemma WholeSlice(rest: seq<Row>, end: nat)
    ensures end >= |rest| ==> SliceTo(rest, end) == rest
    ensures end == 0 ==> SliceTo(rest, end) == []
  {
  }

  lemma SliceInTwo(rest: seq<Row>, first: nat, more: nat)
    requires first <= |rest|
    ensures SliceTo(rest, first + more) == SliceTo(rest, first) + SliceTo(rest[first..], more)
  {
  }

  /** Over a table that stays as it is, so many requests bring the first so many
      pages, and the walk ends exactly when they cover the listing. */
  lemma {:induction false} WalkCovers(table: seq<Row>, n: nat, mine: Row -> bool, c: Codec, first: nat,
                                      after: Option<Row>)
    requires Faithful(c) && first >= 1 && NoRepeats(table)
    ensures var (seen, finished) := Walk(seq(n, _ => table), mine, c, first, after);
            var rest := Listing(table, mine, after);
            && seen == SliceTo(rest, n * first)
            && (finished <==> n >= 1 && n * first >= |rest|)
  {
    hide Listing, NoRepeats, Answer, Nodes, SliceTo;
    var tables := seq(n, _ => table);
    var rest := Listing(table, mine, after);
    WholeSlice(rest, 0);
    if n > 0 {
      AnswerPage(c, rest, first, after.Some?);
      assert tables[1..] == seq(n - 1, _ => table);
      assert n * first == (n - 1) * first + first;
      assert (n - 1) * first >= 0;
      if |rest| > first {
        ListingResumes(table, mine, after, first);
        WalkCovers(table, n - 1, mine, c, first, Some(rest[first - 1]));
        SliceInTwo(rest, first, (n - 1) * first);
      } else {
        WholeSlice(rest, first);
        WholeSlice(rest, n * first);
      }
    }
  }

  /** A listing resumes past a cursor whose own row is gone: nothing is skipped. */
  lemma ResumesAfterDeletion(before: seq<Row>, table: seq<Row>, mine: Row -> bool, at: Row)
    requires NoRepeats(before) && NoRepeats(table) && multiset(before) == multiset(table) + multiset{at}
    ensures Listing(table, mine, Some(at)) == Listing(before, mine, Some(at))
  {
    ListingExactly(table, mine, Some(at));
    ListingExactly(before, mine, Some(at));
    hide Listing, NoRepeats;
    forall r ensures r in Listing(table, mine, Some(at)) <==> r in Listing(before, mine, Some(at)) {
      assert r in before <==> r in multiset(before);
      assert r in table <==> r in multiset(table);
    }
    InOrderUnique(Listing(table, mine, Some(at)), Listing(before, mine, Some(at)));
  }

  predicate Anything(r: Row) {
    true
  }

  function FindIndexAfter(rows: seq<Row>, after: Row): (at: int)
    ensures -1 <= at < |rows|
    ensures at >= 0 ==> rows[at].id > after.id && forall i :: 0 <= i < at ==> rows[i].id <= after.id
    ensures at < 0 ==> forall i :: 0 <= i < |rows| ==> rows[i].id <= after.id
  {
    if rows == [] then -1
    else if rows[0].id > after.id then 0
    else
      var at := FindIndexAfter(rows[1..], after);
      if at < 0 then -1 else at + 1
  }

  /** The cached plans past a cursor: from the first with a larger id on. */
  function CachedRest(rows: seq<Row>, after: Option<Row>): seq<Row> {
    if after.None? then rows
    else
      var at := FindIndexAfter(rows, after.value);
      if at >= 0 then rows[at..] else []
  }

  function CachedAnswer(c: Codec, rest: seq<Row>, first: int, resumed: bool): Connection {
    Connect(c, if |rest| > first then SliceTo(rest, first) else rest, |rest| > first, resumed)
  }

  function PlanCursor(c: Codec, cursor: Option<string>): Option<Row> {
    var decoded := Decoded(c, cursor);
    if decoded.Some? then Some(Row(0, decoded.value.id)) else None
  }

  /** The plans resolver: from the cache when there is one, else from the table. */
  method ResolvePlans(cache: Option<seq<Row>>, table: seq<Row>, c: Codec, first: Option<int>, cursor: Option<string>)
    returns (page: Option<Connection>)
    ensures var after, limit := PlanCursor(c, cursor), Limit(first, 50);
            page == if cache.Some? then Some(CachedAnswer(c, CachedRest(cache.value, after), limit, after.Some?))
                    else Answer(c, Listing(table, Anything, after), limit, after.Some?)
  {
    var limit := Limit(first, 50);
    var after := PlanCursor(c, cursor);
    if cache.Some? {
      var rows := cache.value;
      if after.Some? {
        var at := FindIndexAfter(rows, after.value);
        rows := if at >= 0 then rows[at..] else [];
      }
      var hasNextPage := |rows| > limit;
      var shown := if hasNextPage then SliceTo(rows, limit) else rows;
      return Some(Connect(c, shown, hasNextPage, after.Some?));
    }
    var result := Select(table, Anything, after, limit + 1);
    if result == None { return None; }
    var rows := result.value;
    assert rows == SliceTo(Listing(table, Anything, after), limit + 1);
    var hasNextPage := |rows| > limit;
    if hasNextPage { rows := SliceTo(rows, limit); }
    assert rows == SliceTo(Listing(table, Anything, after), if limit < 0 then 0 else limit);
    page := Some(Connect(c, rows, hasNextPage, after.Some?));
  }

  ghost predicate Plans(rows: seq<Row>) {
    NoRepeats(rows) && forall r :: r in rows ==> r.created == 0
  }

  /** Both ways of answering a request for plans come to the same. */
  ghost predicate SameAnswer(cached: seq<Row>, table: seq<Row>, c: Codec, first: int, after: Option<Row>) {
    Answer(c, Listing(table, Anything, after), first, after.Some?)
      == Some(CachedAnswer(c, CachedRest(cached, after), first, after.Some?))
  }

  ghost predicate PlanKey(after: Option<Row>) {
    after.Some? ==> after.value.created == 0
  }

  lemma {:induction false} CachedRestExactly(cached: seq<Row>, after: Row)
    requires InOrder(cached) && forall i :: 0 <= i < |cached| ==> cached[i].created == 0
    ensures InOrder(CachedRest(cached, Some(after)))
    ensures forall r :: r in CachedRest(cached, Some(after)) <==> r in cached && r.id > after.id
  {
    if cached == [] {
    } else if cached[0].id > after.id {
      assert CachedRest(cached, Some(after)) == cached;
    } else {
      CachedRestExactly(cached[1..], after);
      assert CachedRest(cached, Some(after)) == CachedRest(cached[1..], Some(after));
      assert cached == [cached[0]] + cached[1..];
    }
  }

  lemma WantsAll(after: Option<Row>, r: Row)
    ensures Wanted(Anything, after)(r) <==> (after.Some? ==> Before(after.value, r))
  {
    assert Anything(r);
  }

  /** In a list in id order, the search for the cursor finds the listing's rest. */
  lemma CachedRestListing(cached: seq<Row>, table: seq<Row>, after: Option<Row>)
    requires Plans(table) && PlanKey(after) && cached == Listing(table, Anything, None)
    ensures CachedRest(cached, after) == Listing(table, Anything, after)
  {
    hide Listing, NoRepeats, CachedRest, InOrder;
    ListingExactly(table, Anything, None);
    if after.Some? {
      ListingExactly(table, Anything, after);
      assert forall i :: 0 <= i < |cached| ==> cached[i] in cached && cached[i] in table;
      CachedRestExactly(cached, after.value);
      forall r ensures r in CachedRest(cached, after) <==> r in Listing(table, Anything, after) {
        WantsAll(None, r);
        WantsAll(after, r);
      }
      InOrderUnique(CachedRest(cached, after), Listing(table, Anything, after));
    } else {
      assert CachedRest(cached, after) == cached by { AllCached(cached); }
    }
  }

  lemma AllCached(cached: seq<Row>)
    ensures CachedRest(cached, None) == cached
  {
  }

  /** Rows tell apart the pages that show them. */
  lemma ConnectShows(c: Codec, a: seq<Row>, b: seq<Row>, n: bool, m: bool, resumed: bool)
    ensures Connect(c, a, n, resumed) == Connect(c, b, m, resumed) <==> a == b && n == m
  {
    var x, y := Connect(c, a, n, resumed), Connect(c, b, m, resumed);
    if x == y {
      assert |a| == |x.edges| && |b| == |y.edges|;
      forall i | 0 <= i < |a| ensures a[i] == b[i] {
        assert x.edges[i].node == a[i] && y.edges[i].node == b[i];
      }
    }
  }

  /** For one request, over a cache that lists the table's plans in id order: the
      answers differ exactly when fewer than none are asked for. */
  lemma SameAnswerExactly(cached: seq<Row>, table: seq<Row>, c: Codec, first: int, after: Option<Row>)
    requires Plans(table) && PlanKey(after) && cached == Listing(table, Anything, None)
    ensures SameAnswer(cached, table, c, first, after)
            <==> first >= 0 || (first == -1 && |Listing(table, Anything, after)| <= 1)
  {
    hide Listing, Connect;
    CachedRestListing(cached, table, after);
    var rest := Listing(table, Anything, after);
    if first >= -1 {
      ConnectShows(c, SliceTo(rest, if first < 0 then 0 else first), if |rest| > first
                   then SliceTo(rest, first) else rest,
                   |rest| > first, |rest| > first, after.Some?);
    }
  }

  ghost predicate AlwaysSame(cached: seq<Row>, table: seq<Row>, c: Codec) {
    forall first, after | 0 <= first <= 100 && PlanKey(after) :: SameAnswer(cached, table, c, first, after)
  }

  /** Two rows asked for past the one before `start`: the first puts the search in its
      place, the second shows what the cache has next. */
  lemma SameTwo(cached: seq<Row>, table: seq<Row>, c: Codec, start: nat)
    requires Plans(table) && AlwaysSame(cached, table, c)
    requires var all := Listing(table, Anything, None);
             start <= |all| && start <= |cached| && cached[..start] == all[..start]
             && (start == 0 || (start < |all| && start < |cached| && cached[start] == all[start]))
    ensures SliceTo(Listing(table, Anything, None)[start..], 2) == SliceTo(cached[start..], 2)
    ensures |Listing(table, Anything, None)| - start > 2 <==> |cached| - start > 2
  {
    hide Listing, Connect, NoRepeats;
    var all := Listing(table, Anything, None);
    ListingExactly(table, Anything, None);
    var after := if start == 0 then None else Some(all[start - 1]);
    if start > 0 {
      assert all[start - 1] in table && all[start] in table;
      ListingResumes(table, Anything, None, start);
      assert forall i :: 0 <= i < start ==> cached[i] == all[..start][i] && all[i] in table;
      assert Before(all[start - 1], all[start]);
    }
    assert CachedRest(cached, after) == cached[start..];
    assert Listing(table, Anything, after) == all[start..];
    assert SameAnswer(cached, table, c, 2, after);
    ConnectShows(c, SliceTo(all[start..], 2), if |cached[start..]| > 2
                 then SliceTo(cached[start..], 2) else cached[start..],
                 |all[start..]| > 2, |cached[start..]| > 2, after.Some?);
  }

  lemma {:induction false} SameRows(cached: seq<Row>, table: seq<Row>, c: Codec, k: nat)
    requires Plans(table) && AlwaysSame(cached, table, c) && k <= |Listing(table, Anything, None)|
    ensures k <= |cached| && cached[..k] == Listing(table, Anything, None)[..k]
  {
    hide Listing, AlwaysSame, Plans;
    if k > 0 {
      var all := Listing(table, Anything, None);
      SameRows(cached, table, c, k - 1);
      var start := if k >= 2 then k - 2 else 0;
      assert cached[..start] == cached[..k - 1][..start];
      assert all[..start] == all[..k - 1][..start];
      assert start > 0 ==> cached[start] == cached[..k - 1][start] && all[start] == all[..k - 1][start];
      SameTwo(cached, table, c, start);
      assert all[k - 1] == SliceTo(all[start..], 2)[k - 1 - start];
      assert cached[..k] == cached[..k - 1] + [cached[k - 1]];
      assert all[..k] == all[..k - 1] + [all[k - 1]];
    }
  }

  /** Over all requests: the cache may stand in for the table exactly when it lists
      the table's plans, all of them, in id order. */
  lemma CacheStandsIn(cached: seq<Row>, table: seq<Row>, c: Codec)
    requires Plans(table)
    ensures (forall first, after | 0 <= first <= 100 && PlanKey(after) :: SameAnswer(cached, table, c, first, after))
            <==> cached == Listing(table, Anything, None)
  {
    hide Listing, Plans, SameAnswer, PlanKey;
    var all := Listing(table, Anything, None);
    if AlwaysSame(cached, table, c) {
      SameRows(cached, table, c, |all|);
      var start := if |all| >= 1 then |all| - 1 else 0;
      assert cached[..start] == cached[..|all|][..start] && all[..start] == all[..|all|][..start];
      assert all != [] ==> cached[start] == cached[..|all|][start] && all[start] == all[..|all|][start];
      SameTwo(cached, table, c, start);
      assert |cached| == |all|;
      assert cached == cached[..|all|];
    }
    if cached == all {
      forall first, after | 0 <= first <= 100 && PlanKey(after) ensures SameAnswer(cached, table, c, first, after) {
        SameAnswerExactly(cached, table, c, first, after);
      }
    }
  }
}
