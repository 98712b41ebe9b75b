/**
  Channel rows in a flat list, and the parent chains within such a list.
 */
module ChannelRows {
  import opened Options

  datatype Channel = Channel(
    id: int,
    accountId: int,
    parentId: Option<int>,
    name: string,
    level: int,
    sortOrder: int,
    live: bool)

  function Ids(cs: seq<Channel>): set<int> {
    set c | c in cs :: c.id
  }

  ghost predicate Distinct(cs: seq<Channel>) {
    forall i, j :: 0 <= i < j < |cs| ==> cs[i].id != cs[j].id
  }

  /** A row without a parent in the list: parentless, or an orphan. */
  predicate IsRoot(ids: set<int>, c: Channel) {
    c.parentId == None || c.parentId.value !in ids
  }

  /** The node a row hangs under: a parent in the list, or none. */
  function KeyOf(ids: set<int>, c: Channel): Option<int> {
    if IsRoot(ids, c) then None else c.parentId
  }

  /** The rows of `cs` that hang under `key`, in list order. */
  function Siblings(ids: set<int>, cs: seq<Channel>, key: Option<int>): seq<Channel> {
    if cs == [] then []
    else Siblings(ids, cs[..|cs| - 1], key) + if KeyOf(ids, cs[|cs| - 1]) == key then [cs[|cs| - 1]] else []
  }

  function RowOf(cs: seq<Channel>, id: int): (c: Channel)
    requires id in Ids(cs)
    ensures c in cs && c.id == id
  {
    if cs[0].id == id then cs[0] else RowOf(cs[1..], id)
  }

  /** The chain of parents of `c` within the list ends after `d` steps. */
  predicate AtDepth(cs: seq<Channel>, c: Channel, d: nat)
    decreases d
  {
    if IsRoot(Ids(cs), c) then d == 0
    else d > 0 && AtDepth(cs, RowOf(cs, c.parentId.value), d - 1)
  }

  /** The parent chain of `c` within the list is acyclic: it comes to an end. */
  ghost predicate Rooted(cs: seq<Channel>, c: Channel) {
    exists d :: AtDepth(cs, c, d)
  }

  /** The row `k` steps up the chain. */
  function Up(cs: seq<Channel>, c: Channel, k: nat): Channel
    decreases k
  {
    if k == 0 || IsRoot(Ids(cs), c) then c else Up(cs, RowOf(cs, c.parentId.value), k - 1)
  }

  // ----- Lists -----

  lemma SameRow(cs: seq<Channel>, a: Channel, b: Channel)
    requires Distinct(cs) && a in cs && b in cs && a.id == b.id
    ensures a == b
  {
    var i :| 0 <= i < |cs| && cs[i] == a;
    var j :| 0 <= j < |cs| && cs[j] == b;
    assert i == j;
  }

  lemma SiblingsSnoc(ids: set<int>, cs: seq<Channel>, c: Channel, key: Option<int>)
    ensures Siblings(ids, cs + [c], key) == Siblings(ids, cs, key) + if KeyOf(ids, c) == key then [c] else []
  {
    assert (cs + [c])[..|cs|] == cs;
  }

  lemma Assoc<T>(a: seq<T>, b: seq<T>, c: seq<T>)
    ensures (a + b) + c == a + (b + c)
  {
  }

  lemma {:induction false} SiblingsConcat(ids: set<int>, a: seq<Channel>, b: seq<Channel>, key: Option<int>)
    ensures Siblings(ids, a + b, key) == Siblings(ids, a, key) + Siblings(ids, b, key)
  {
    if b == [] {
      assert a + b == a;
    } else {
      var init, last := b[..|b| - 1], b[|b| - 1];
      var head := if KeyOf(ids, last) == key then [last] else [];
      SiblingsConcat(ids, a, init, key);
      assert Siblings(ids, a + b, key) == Siblings(ids, a + init, key) + head by {
        SiblingsSnoc(ids, a + init, last, key);
        assert a + b == a + init + [last];
      }
      Assoc(Siblings(ids, a, key), Siblings(ids, init, key), head);
    }
  }

  lemma {:induction false} SiblingsMembers(ids: set<int>, cs: seq<Channel>, key: Option<int>)
    ensures forall c :: c in Siblings(ids, cs, key) <==> c in cs && KeyOf(ids, c) == key
  {
    if cs != [] {
      SiblingsMembers(ids, cs[..|cs| - 1], key);
      assert cs == cs[..|cs| - 1] + [cs[|cs| - 1]];
    }
  }

  lemma {:induction false} SiblingsCount(ids: set<int>, cs: seq<Channel>, c: Channel)
    ensures multiset(Siblings(ids, cs, KeyOf(ids, c)))[c] == multiset(cs)[c]
  {
    if cs != [] {
      SiblingsCount(ids, cs[..|cs| - 1], c);
      assert cs == cs[..|cs| - 1] + [cs[|cs| - 1]];
    }
  }

  lemma {:induction false} SiblingsDistinct(ids: set<int>, cs: seq<Channel>, key: Option<int>)
    requires Distinct(cs)
    ensures Distinct(Siblings(ids, cs, key))
  {
    if cs != [] {
      var init, last := cs[..|cs| - 1], cs[|cs| - 1];
      SiblingsDistinct(ids, init, key);
      SiblingsMembers(ids, init, key);
      var kept := Siblings(ids, init, key);
      forall i | 0 <= i < |kept|
        ensures kept[i].id != last.id
      {
        assert kept[i] in init;
      }
    }
  }

  lemma {:induction false} DistinctCount(cs: seq<Channel>, c: Channel)
    requires Distinct(cs)
    ensures multiset(cs)[c] == if c in cs then 1 else 0
  {
    if cs != [] {
      var init, last := cs[..|cs| - 1], cs[|cs| - 1];
      assert cs == init + [last];
      DistinctCount(init, c);
      assert last !in init;
    }
  }

  // ----- Depths -----

  lemma {:induction false} DepthUnique(cs: seq<Channel>, c: Channel, d: nat, e: nat)
    requires AtDepth(cs, c, d) && AtDepth(cs, c, e)
    ensures d == e
    decreases d
  {
    if d > 0 && e > 0 {
      DepthUnique(cs, RowOf(cs, c.parentId.value), d - 1, e - 1);
    }
  }

  /** The ids on the chain of `c`, from `c` to its root. */
  function Chain(cs: seq<Channel>, c: Channel, d: nat): seq<int>
    requires AtDepth(cs, c, d)
    decreases d
  {
    [c.id] + if d == 0 then [] else Chain(cs, RowOf(cs, c.parentId.value), d - 1)
  }

  lemma {:induction false} ChainRows(cs: seq<Channel>, c: Channel, d: nat)
    requires Distinct(cs) && c in cs && AtDepth(cs, c, d)
    ensures |Chain(cs, c, d)| == d + 1
    ensures forall i :: 0 <= i <= d ==>
              Chain(cs, c, d)[i] in Ids(cs) && AtDepth(cs, RowOf(cs, Chain(cs, c, d)[i]), d - i)
    decreases d
  {
    SameRow(cs, c, RowOf(cs, c.id));
    if d > 0 {
      ChainRows(cs, RowOf(cs, c.parentId.value), d - 1);
    }
  }

  lemma {:induction false} DistinctIdsFit(ids: seq<int>, all: set<int>)
    requires forall i :: 0 <= i < |ids| ==> ids[i] in all
    requires forall i, j :: 0 <= i < j < |ids| ==> ids[i] != ids[j]
    ensures |ids| <= |all|
  {
    if ids != [] {
      DistinctIdsFit(ids[..|ids| - 1], all - {ids[|ids| - 1]});
    }
  }

  lemma {:induction false} IdsFit(cs: seq<Channel>)
    ensures |Ids(cs)| <= |cs|
  {
    if cs != [] {
      IdsFit(cs[..|cs| - 1]);
      assert Ids(cs) == Ids(cs[..|cs| - 1]) + {cs[|cs| - 1].id};
    }
  }

  /** A chain that ends visits no row twice, so it is shorter than the list. */
  lemma DepthBelowLength(cs: seq<Channel>, c: Channel, d: nat)
    requires Distinct(cs) && c in cs && AtDepth(cs, c, d)
    ensures d < |cs|
  {
    hide AtDepth, Chain;
    var chain := Chain(cs, c, d);
    ChainRows(cs, c, d);
    forall i, j | 0 <= i < j < |chain|
      ensures chain[i] != chain[j]
    {
      if chain[i] == chain[j] {
        DepthUnique(cs, RowOf(cs, chain[i]), d - i, d - j);
      }
    }
    DistinctIdsFit(chain, Ids(cs));
    IdsFit(cs);
  }
}
