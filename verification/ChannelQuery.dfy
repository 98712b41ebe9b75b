/**
  The recursive query behind the channel list, and the tree building it feeds.
 */
module ChannelQuery {
  import opened Options
  import opened ChannelRows
  import opened ChannelForest
  import opened ChannelFlattening

  /** The non-recursive term: the live parentless rows of the account. */
  predicate IsBase(accountId: int, c: Channel) {
    c.accountId == accountId && c.parentId == None && c.live
  }

  function Base(table: seq<Channel>, accountId: int): seq<Channel> {
    if table == [] then []
    else
      var last := table[|table| - 1];
      Base(table[..|table| - 1], accountId) + if IsBase(accountId, last) then [last] else []
  }

  /** One copy of `c` for every row of the working table that is its parent. */
  function Copies(c: Channel, working: seq<Channel>): seq<Channel> {
    if working == [] then []
    else
      Copies(c, working[..|working| - 1])
      + if c.live && c.parentId == Some(working[|working| - 1].id) then [c] else []
  }

  /** The recursive term: the live rows of the table joined with the working table on their parent. */
  function Join(table: seq<Channel>, working: seq<Channel>): seq<Channel> {
    if table == [] then [] else Join(table[..|table| - 1], working) + Copies(table[|table| - 1], working)
  }

  /** The working table of iteration `k`. */
  function WorkingTable(table: seq<Channel>, accountId: int, k: nat): seq<Channel> {
    if k == 0 then Base(table, accountId) else Join(table, WorkingTable(table, accountId, k - 1))
  }

  /** All rows of the first `k` iterations; `UNION ALL` keeps every copy. */
  function Collected(table: seq<Channel>, accountId: int, k: nat): seq<Channel> {
    if k == 0 then [] else Collected(table, accountId, k - 1) + WorkingTable(table, accountId, k - 1)
  }

  // ----- Reachable rows -----

  /** The chain of `c` in the table is live, and ends after `k` steps at a parentless row of the account. */
  predicate ReachedAt(table: seq<Channel>, accountId: int, c: Channel, k: nat)
    decreases k
  {
    && c.live
    && if k == 0 then c.parentId == None && c.accountId == accountId
       else c.parentId.Some? && c.parentId.value in Ids(table)
            && ReachedAt(table, accountId, RowOf(table, c.parentId.value), k - 1)
  }

  ghost predicate Reached(table: seq<Channel>, accountId: int, c: Channel) {
    exists k :: ReachedAt(table, accountId, c, k)
  }

  lemma {:induction false} ReachedOnce(table: seq<Channel>, accountId: int, c: Channel, j: nat, k: nat)
    requires ReachedAt(table, accountId, c, j) && ReachedAt(table, accountId, c, k)
    ensures j == k
    decreases j
  {
    if j > 0 && k > 0 {
      ReachedOnce(table, accountId, RowOf(table, c.parentId.value), j - 1, k - 1);
    }
  }

  /** A chain that reaches a root of the account is a chain that ends in the table. */
  lemma {:induction false} ReachedIsAtDepth(table: seq<Channel>, accountId: int, c: Channel, k: nat)
    requires ReachedAt(table, accountId, c, k)
    ensures AtDepth(table, c, k)
    decreases k
  {
    if k > 0 {
      ReachedIsAtDepth(table, accountId, RowOf(table, c.parentId.value), k - 1);
    }
  }

  // ----- Each working table holds the rows of one depth, once each -----

  lemma {:induction false} BaseCount(table: seq<Channel>, accountId: int, c: Channel)
    ensures multiset(Base(table, accountId))[c] == if IsBase(accountId, c) then multiset(table)[c] else 0
  {
    if table != [] {
      BaseCount(table[..|table| - 1], accountId, c);
      assert table == table[..|table| - 1] + [table[|table| - 1]];
    }
  }

  /** With distinct ids in the working table there is one copy or none. */
  lemma {:induction false} CopiesOf(c: Channel, working: seq<Channel>)
    requires Distinct(working)
    ensures Copies(c, working) == if c.live && c.parentId.Some? && c.parentId.value in Ids(working) then [c] else []
  {
    if working != [] {
      var init, last := working[..|working| - 1], working[|working| - 1];
      CopiesOf(c, init);
      assert Ids(working) == Ids(init) + {last.id};
      assert last.id !in Ids(init);
    }
  }

  lemma {:induction false} JoinCount(table: seq<Channel>, working: seq<Channel>, c: Channel)
    requires Distinct(working)
    ensures multiset(Join(table, working))[c]
         == if c.live && c.parentId.Some? && c.parentId.value in Ids(working) then multiset(table)[c] else 0
  {
    hide Copies, Ids, Distinct;
    if table != [] {
      var init, last := table[..|table| - 1], table[|table| - 1];
      JoinCount(init, working, c);
      CopiesOf(last, working);
      assert table == init + [last];
    }
  }

  /** A list in which no row occurs twice, all rows coming from a table with distinct ids, has distinct ids. */
  lemma OnceEachIsDistinct(table: seq<Channel>, cs: seq<Channel>)
    requires Distinct(table) && forall c :: multiset(cs)[c] <= multiset(table)[c]
    ensures Distinct(cs)
  {
    forall i, j | 0 <= i < j < |cs|
      ensures cs[i].id != cs[j].id
    {
      var a, b := cs[i], cs[j];
      DistinctCount(table, a);
      DistinctCount(table, b);
      InTable(table, cs, a);
      InTable(table, cs, b);
      if a.id == b.id {
        SameRow(table, a, b);
        TwiceInMultiset(cs, i, j);
      }
    }
  }

  lemma InTable(table: seq<Channel>, cs: seq<Channel>, c: Channel)
    requires c in cs && multiset(cs)[c] <= multiset(table)[c]
    ensures c in table
  {
    assert c in multiset(cs);
    assert c in multiset(table);
  }

  lemma TwiceInMultiset(cs: seq<Channel>, i: nat, j: nat)
    requires i < j < |cs| && cs[i] == cs[j]
    ensures multiset(cs)[cs[i]] >= 2
  {
    assert cs == cs[..i] + [cs[i]] + cs[i + 1..j] + [cs[j]] + cs[j + 1..];
  }

  lemma {:induction false} WorkingTableCount(table: seq<Channel>, accountId: int, k: nat, c: Channel)
    requires Distinct(table)
    ensures multiset(WorkingTable(table, accountId, k))[c]
         == if c in table && ReachedAt(table, accountId, c, k) then 1 else 0
    decreases k, 0
  {
    hide *;
    DistinctCount(table, c);
    if k == 0 {
      BaseCount(table, accountId, c);
      ReachedAtZero(table, accountId, c);
    } else {
      var before := WorkingTable(table, accountId, k - 1);
      WorkingTableDistinct(table, accountId, k - 1);
      WorkingTableStep(table, accountId, k, c);
      JoinCount(table, before, c);
      if c.parentId.Some? {
        ParentInWorkingTable(table, accountId, k - 1, c.parentId.value);
      }
    }
  }

  lemma ReachedAtZero(table: seq<Channel>, accountId: int, c: Channel)
    ensures ReachedAt(table, accountId, c, 0) <==> IsBase(accountId, c)
    ensures WorkingTable(table, accountId, 0) == Base(table, accountId)
  {
  }

  lemma WorkingTableStep(table: seq<Channel>, accountId: int, k: nat, c: Channel)
    requires k > 0
    ensures WorkingTable(table, accountId, k) == Join(table, WorkingTable(table, accountId, k - 1))
    ensures ReachedAt(table, accountId, c, k) <==>
              && c.live && c.parentId.Some? && c.parentId.value in Ids(table)
              && ReachedAt(table, accountId, RowOf(table, c.parentId.value), k - 1)
  {
  }

  lemma {:induction false} WorkingTableDistinct(table: seq<Channel>, accountId: int, k: nat)
    requires Distinct(table)
    ensures Distinct(WorkingTable(table, accountId, k))
    decreases k, 1
  {
    var working := WorkingTable(table, accountId, k);
    forall c
      ensures multiset(working)[c] <= multiset(table)[c]
    {
      WorkingTableCount(table, accountId, k, c);
      DistinctCount(table, c);
    }
    OnceEachIsDistinct(table, working);
  }

  lemma {:induction false} ParentInWorkingTable(table: seq<Channel>, accountId: int, k: nat, id: int)
    requires Distinct(table)
    ensures id in Ids(WorkingTable(table, accountId, k))
       <==> id in Ids(table) && ReachedAt(table, accountId, RowOf(table, id), k)
    decreases k, 1
  {
    var working := WorkingTable(table, accountId, k);
    if id in Ids(table) {
      var p := RowOf(table, id);
      WorkingTableCount(table, accountId, k, p);
      assert ReachedAt(table, accountId, p, k) <==> p in multiset(working);
    }
    if id in Ids(working) {
      var p :| p in working && p.id == id;
      WorkingTableCount(table, accountId, k, p);
      assert p in multiset(working);
      SameRow(table, p, RowOf(table, id));
    }
  }

  // ----- Termination and the whole result -----

  /** Iteration `k` only has rows at depth `k`, so it is empty once `k` is the number of rows. */
  lemma WorkingTablesRunDry(table: seq<Channel>, accountId: int, k: nat)
    requires Distinct(table) && WorkingTable(table, accountId, k) != []
    ensures k < |table|
  {
    var c := WorkingTable(table, accountId, k)[0];
    WorkingTableCount(table, accountId, k, c);
    assert c in multiset(WorkingTable(table, accountId, k));
    ReachedIsAtDepth(table, accountId, c, k);
    DepthBelowLength(table, c, k);
  }

  lemma {:induction false} CollectedCount(table: seq<Channel>, accountId: int, k: nat, c: Channel, d: nat)
    requires Distinct(table) && ReachedAt(table, accountId, c, d)
    ensures multiset(Collected(table, accountId, k))[c] == if c in table && d < k then 1 else 0
  {
    hide Distinct, ReachedAt, WorkingTable;
    if k > 0 {
      CollectedCount(table, accountId, k - 1, c, d);
      WorkingTableCount(table, accountId, k - 1, c);
      if ReachedAt(table, accountId, c, k - 1) {
        ReachedOnce(table, accountId, c, d, k - 1);
      }
    }
  }

  lemma {:induction false} CollectedOnlyReached(table: seq<Channel>, accountId: int, k: nat, c: Channel)
    requires Distinct(table) && c in Collected(table, accountId, k)
    ensures c in table && Reached(table, accountId, c)
  {
    hide Distinct, ReachedAt, WorkingTable;
    if c in Collected(table, accountId, k - 1) {
      CollectedOnlyReached(table, accountId, k - 1, c);
    } else {
      WorkingTableCount(table, accountId, k - 1, c);
      assert c in multiset(WorkingTable(table, accountId, k - 1));
    }
  }

  /** The rows of the account: every row of the table that is reached, exactly once, and no other. */
  ghost predicate IsQueryResult(table: seq<Channel>, accountId: int, rows: seq<Channel>) {
    forall c :: multiset(rows)[c] == if c in table && Reached(table, accountId, c) then 1 else 0
  }

  lemma CollectedIsResult(table: seq<Channel>, accountId: int, k: nat)
    requires Distinct(table) && WorkingTable(table, accountId, k) == []
    ensures IsQueryResult(table, accountId, Collected(table, accountId, k))
  {
    var rows := Collected(table, accountId, k);
    forall c
      ensures multiset(rows)[c] == if c in table && Reached(table, accountId, c) then 1 else 0
    {
      if c in table && Reached(table, accountId, c) {
        var d: nat :| ReachedAt(table, accountId, c, d);
        CollectedCount(table, accountId, k, c, d);
        NothingDeeper(table, accountId, c, d, k);
      } else if c in rows {
        CollectedOnlyReached(table, accountId, k, c);
      }
    }
  }

  /** If iteration `k` is empty, no row is reached at depth `k` or deeper. */
  lemma {:induction false} NothingDeeper(table: seq<Channel>, accountId: int, c: Channel, d: nat, k: nat)
    requires Distinct(table) && WorkingTable(table, accountId, k) == []
    requires c in table && ReachedAt(table, accountId, c, d)
    ensures d < k
    decreases d
  {
    if d == k {
      WorkingTableCount(table, accountId, k, c);
    } else if d > k {
      NothingDeeper(table, accountId, RowOf(table, c.parentId.value), d - 1, k);
    }
  }

  // ----- ORDER BY level, sort_order -----

  predicate ComesBefore(a: Channel, b: Channel) {
    a.level < b.level || (a.level == b.level && a.sortOrder <= b.sortOrder)
  }

  predicate Sorted(rows: seq<Channel>) {
    forall i, j :: 0 <= i < j < |rows| ==>
      && rows[i].level <= rows[j].level
      && (rows[i].level == rows[j].level ==> rows[i].sortOrder <= rows[j].sortOrder)
  }

  function Inserted(rows: seq<Channel>, c: Channel): seq<Channel> {
    if rows == [] || ComesBefore(rows[|rows| - 1], c) then rows + [c]
    else Inserted(rows[..|rows| - 1], c) + [rows[|rows| - 1]]
  }

  function OrderBy(rows: seq<Channel>): seq<Channel> {
    if rows == [] then [] else Inserted(OrderBy(rows[..|rows| - 1]), rows[|rows| - 1])
  }

  lemma SortedSnoc(front: seq<Channel>, last: Channel)
    requires Sorted(front) && forall c :: c in front ==> ComesBefore(c, last)
    ensures Sorted(front + [last])
  {
    forall i | 0 <= i < |front|
      ensures ComesBefore(front[i], last)
    {
      assert front[i] in front;
    }
  }

  lemma {:induction false} InsertedSorts(rows: seq<Channel>, c: Channel)
    requires Sorted(rows)
    ensures Sorted(Inserted(rows, c)) && multiset(Inserted(rows, c)) == multiset(rows) + multiset{c}
  {
    if rows == [] {
      return;
    }
    var init, last := rows[..|rows| - 1], rows[|rows| - 1];
    assert rows == init + [last];
    if ComesBefore(last, c) {
      AllBefore(rows, c);
      SortedSnoc(rows, c);
    } else {
      InsertedSorts(init, c);
      hide ComesBefore, Sorted;
      forall d | d in Inserted(init, c)
        ensures ComesBefore(d, last)
      {
        assert d in multiset(Inserted(init, c));
        LastIsGreatest(rows, d, c);
      }
      SortedSnoc(Inserted(init, c), last);
    }
  }

  lemma AllBefore(rows: seq<Channel>, c: Channel)
    requires Sorted(rows) && rows != [] && ComesBefore(rows[|rows| - 1], c)
    ensures forall d :: d in rows ==> ComesBefore(d, c)
  {
    forall d | d in rows
      ensures ComesBefore(d, c)
    {
      var i :| 0 <= i < |rows| && rows[i] == d;
      assert i < |rows| - 1 ==> rows[i].level <= rows[|rows| - 1].level;
    }
  }

  lemma LastIsGreatest(rows: seq<Channel>, d: Channel, c: Channel)
    requires Sorted(rows) && rows != [] && !ComesBefore(rows[|rows| - 1], c)
    requires d in rows[..|rows| - 1] || d == c
    ensures ComesBefore(d, rows[|rows| - 1])
  {
  }

  lemma {:induction false} OrderBySorts(rows: seq<Channel>)
    ensures Sorted(OrderBy(rows)) && multiset(OrderBy(rows)) == multiset(rows)
  {
    if rows != [] {
      OrderBySorts(rows[..|rows| - 1]);
      InsertedSorts(OrderBy(rows[..|rows| - 1]), rows[|rows| - 1]);
      assert rows == rows[..|rows| - 1] + [rows[|rows| - 1]];
    }
  }

  datatype QueryResult = Rows(rows: seq<Channel>) | InvalidAccount

  /** The query, iteration by iteration, and its ordering, of which only the order of equal keys is left open. */
  method GetChannelTree(table: seq<Channel>, accountId: int) returns (result: QueryResult)
    requires Distinct(table)
    ensures accountId <= 0 <==> result == InvalidAccount
    ensures result.Rows? ==> IsQueryResult(table, accountId, result.rows) && Sorted(result.rows)
  {
    if accountId <= 0 {
      return InvalidAccount;
    }
    var working := FilterBase(table, accountId);
    var rows := [];
    ghost var k := 0;
    while working != []
      invariant working == WorkingTable(table, accountId, k) && rows == Collected(table, accountId, k)
      invariant k <= |table|
      decreases |table| - k
    {
      WorkingTablesRunDry(table, accountId, k);
      rows := rows + working;
      working := JoinRows(table, working);
      k := k + 1;
    }
    CollectedIsResult(table, accountId, k);
    OrderBySorts(rows);
    return Rows(OrderBy(rows));
  }

  method FilterBase(table: seq<Channel>, accountId: int) returns (rows: seq<Channel>)
    ensures rows == Base(table, accountId)
  {
    rows := [];
    for i := 0 to |table|
      invariant rows == Base(table[..i], accountId)
    {
      assert table[..i + 1][..i] == table[..i];
      if IsBase(accountId, table[i]) {
        rows := rows + [table[i]];
      }
    }
    assert table[..|table|] == table;
  }

  method JoinRows(table: seq<Channel>, working: seq<Channel>) returns (rows: seq<Channel>)
    ensures rows == Join(table, working)
  {
    rows := [];
    for i := 0 to |table|
      invariant rows == Join(table[..i], working)
    {
      assert table[..i + 1][..i] == table[..i];
      var copies: seq<Channel> := [];
      for j := 0 to |working|
        invariant copies == Copies(table[i], working[..j])
      {
        assert working[..j + 1][..j] == working[..j];
        if table[i].live && table[i].parentId == Some(working[j].id) {
          copies := copies + [table[i]];
        }
      }
      assert working[..|working|] == working;
      rows := rows + copies;
    }
    assert table[..|table|] == table;
  }

  // ----- Feeding the tree building -----

  /** What the query returns, in whatever order, is a list with distinct ids that contains every row's parent. */
  lemma ResultIsClosed(table: seq<Channel>, accountId: int, rows: seq<Channel>)
    requires Distinct(table) && IsQueryResult(table, accountId, rows)
    ensures Distinct(rows)
    ensures forall c :: c in rows <==> c in table && Reached(table, accountId, c)
    ensures forall c :: c in rows && c.parentId.Some? ==> c.parentId.value in Ids(rows)
  {
    forall c
      ensures multiset(rows)[c] <= multiset(table)[c]
      ensures c in rows <==> c in table && Reached(table, accountId, c)
    {
      DistinctCount(table, c);
      assert c in rows <==> c in multiset(rows);
    }
    OnceEachIsDistinct(table, rows);
    forall c | c in rows && c.parentId.Some?
      ensures c.parentId.value in Ids(rows)
    {
      var k: nat :| ReachedAt(table, accountId, c, k);
      var p := RowOf(table, c.parentId.value);
      assert ReachedAt(table, accountId, p, k - 1);
      assert p in rows;
    }
  }

  /** The roots are exactly the parentless rows: the orphan branch of the tree building is never taken. */
  lemma RootsAreParentless(table: seq<Channel>, accountId: int, rows: seq<Channel>, c: Channel)
    requires Distinct(table) && IsQueryResult(table, accountId, rows) && c in rows
    ensures IsRoot(Ids(rows), c) <==> c.parentId == None
    ensures c in RootsOf(rows) <==> c.parentId == None
  {
    ResultIsClosed(table, accountId, rows);
    SiblingsMembers(Ids(rows), rows, None);
  }

  /** The parent of a row of the result is in the result, and is the table's row. */
  lemma ParentInResult(table: seq<Channel>, accountId: int, rows: seq<Channel>, c: Channel, k: nat)
    requires Distinct(table) && IsQueryResult(table, accountId, rows)
    requires c in rows && ReachedAt(table, accountId, c, k) && k > 0
    ensures c.parentId.Some? && c.parentId.value in Ids(rows) && c.parentId.value in Ids(table)
    ensures RowOf(rows, c.parentId.value) == RowOf(table, c.parentId.value)
    ensures ReachedAt(table, accountId, RowOf(table, c.parentId.value), k - 1)
  {
    ResultIsClosed(table, accountId, rows);
    SameRow(table, RowOf(rows, c.parentId.value), RowOf(table, c.parentId.value));
  }

  lemma {:induction false} ReachedIsRooted(table: seq<Channel>, accountId: int, rows: seq<Channel>, c: Channel, k: nat)
    requires Distinct(table) && IsQueryResult(table, accountId, rows) && c in rows && ReachedAt(table, accountId, c, k)
    ensures AtDepth(rows, c, k)
    decreases k
  {
    hide Distinct, IsQueryResult, Ids;
    if k > 0 {
      ParentInResult(table, accountId, rows, c, k);
      ReachedIsRooted(table, accountId, rows, RowOf(rows, c.parentId.value), k - 1);
    }
  }

  /**
    From the table to the page: every live row whose whole chain is live and ends at a
    parentless row of the account is shown exactly once, and no other row is shown.
   */
  lemma PageShowsReachedRows(table: seq<Channel>, accountId: int, rows: seq<Channel>, c: Channel)
    requires Distinct(table) && IsQueryResult(table, accountId, rows)
    ensures multiset(ChannelForest.Rows(Table(rows)))[c] == if c in table && Reached(table, accountId, c) then 1 else 0
  {
    ResultIsClosed(table, accountId, rows);
    if c in rows {
      var k: nat :| ReachedAt(table, accountId, c, k);
      ReachedIsRooted(table, accountId, rows, c, k);
      ListedOnceIffRooted(rows, c);
    } else {
      OnlyListRows(rows, c);
    }
  }

  lemma {:induction false} SiblingsSorted(ids: set<int>, rows: seq<Channel>, key: Option<int>)
    requires Sorted(rows)
    ensures Sorted(Siblings(ids, rows, key))
  {
    if rows != [] {
      var init := rows[..|rows| - 1];
      SiblingsSorted(ids, init, key);
      SiblingsMembers(ids, init, key);
      var front := Siblings(ids, init, key);
      forall i | 0 <= i < |front|
        ensures ComesBefore(front[i], rows[|rows| - 1])
      {
        assert front[i] in init;
      }
    }
  }

  /** On the page, the roots and the children of every row stand in the order of the query. */
  lemma PageShowsSiblingsInOrder(table: seq<Channel>, accountId: int, rows: seq<Channel>, key: Option<int>)
    requires Distinct(table) && IsQueryResult(table, accountId, rows) && Sorted(rows)
    requires key.Some? ==> key.value in Ids(rows)
    ensures Sorted(Listed(rows, Table(rows), key))
  {
    ResultIsClosed(table, accountId, rows);
    if key.Some? {
      var p := RowOf(rows, key.value);
      var k: nat :| ReachedAt(table, accountId, p, k);
      ReachedIsRooted(table, accountId, rows, p, k);
    }
    SiblingsKeepOrder(rows, key);
    SiblingsSorted(Ids(rows), rows, key);
  }

  lemma OnlyListRows(cs: seq<Channel>, c: Channel)
    requires Distinct(cs) && c !in cs
    ensures multiset(ChannelForest.Rows(Table(cs)))[c] == 0
  {
    RootsAtDepth(cs);
    EntriesPlaced(cs, RootsOf(cs), 0, |cs|);
    assert Table(cs) == EntriesOf(cs, RootsOf(cs), 0, |cs|);
    RowsMembers(Table(cs));
    assert c !in ChannelForest.Rows(Table(cs));
  }
}
