/**
  Flattening undoes the tree building: which rows come back, where, and in what order.
 */
module ChannelFlattening {
  import opened Options
  import opened ChannelRows
  import opened ChannelForest

  /** The table that the page shows for a list. */
  function Table(cs: seq<Channel>): seq<Entry> {
    Flatten(Forest(cs), 0)
  }

  function EntriesOf(cs: seq<Channel>, xs: seq<Channel>, depth: nat, height: nat): seq<Entry> {
    Flatten(TreesOf(cs, xs, height), depth)
  }

  /** The entries below the row `c` itself. */
  function EntriesBelow(cs: seq<Channel>, c: Channel, depth: nat, height: nat): seq<Entry> {
    if height == 0 then [] else EntriesOf(cs, KidsOf(cs, c), depth + 1, height - 1)
  }

  lemma EntriesUnfold(cs: seq<Channel>, xs: seq<Channel>, depth: nat, height: nat)
    requires xs != []
    ensures EntriesOf(cs, xs, depth, height)
         == [EntryOf(xs[0], depth)] + EntriesBelow(cs, xs[0], depth, height) + EntriesOf(cs, xs[1..], depth, height)
  {
    var trees := TreesOf(cs, xs, height);
    assert trees[0].channel == xs[0] && trees[1..] == TreesOf(cs, xs[1..], height);
    if height == 0 {
      assert Flatten(trees[0].children, depth + 1) == [];
    } else {
      assert trees[0].children == TreesOf(cs, KidsOf(cs, xs[0]), height - 1);
    }
  }

  lemma EntryCases(cs: seq<Channel>, xs: seq<Channel>, depth: nat, height: nat, e: Entry)
    requires xs != [] && e in EntriesOf(cs, xs, depth, height)
    ensures e == EntryOf(xs[0], depth)
         || e in EntriesBelow(cs, xs[0], depth, height)
         || e in EntriesOf(cs, xs[1..], depth, height)
  {
    EntriesUnfold(cs, xs, depth, height);
    assert e in [EntryOf(xs[0], depth)] + EntriesBelow(cs, xs[0], depth, height)
                + EntriesOf(cs, xs[1..], depth, height);
  }

  // ----- Every entry is a row with an ending chain, at its depth -----

  ghost predicate Placed(cs: seq<Channel>, e: Entry) {
    e.channel in cs && AtDepth(cs, e.channel, e.depth) && e == EntryOf(e.channel, e.depth)
  }

  /** The first row and the rest of a list of rows at depth `d`. */
  lemma FirstAndRest(cs: seq<Channel>, xs: seq<Channel>, d: nat)
    requires xs != [] && Distinct(cs) && AllAtDepth(cs, xs, d)
    ensures xs[0] in cs && AtDepth(cs, xs[0], d) && d < |cs|
    ensures AllAtDepth(cs, xs[1..], d) && (Distinct(xs) ==> Distinct(xs[1..]))
    ensures AllAtDepth(cs, KidsOf(cs, xs[0]), d + 1) && Distinct(KidsOf(cs, xs[0]))
  {
    assert xs[0] in xs;
    DepthBelowLength(cs, xs[0], d);
    KidsAtDepth(cs, xs[0], d);
  }

  lemma BelowUnfold(cs: seq<Channel>, c: Channel, d: nat, height: nat)
    requires height > 0
    ensures EntriesBelow(cs, c, d, height) == EntriesOf(cs, KidsOf(cs, c), d + 1, height - 1)
  {
  }

  ghost predicate AllPlaced(cs: seq<Channel>, entries: seq<Entry>) {
    forall e :: e in entries ==> Placed(cs, e)
  }

  lemma {:induction false} EntriesPlaced(cs: seq<Channel>, xs: seq<Channel>, d: nat, height: nat)
    requires Distinct(cs) && AllAtDepth(cs, xs, d) && d + height == |cs|
    ensures AllPlaced(cs, EntriesOf(cs, xs, d, height))
    decreases height, |xs|
  {
    if xs != [] {
      hide *;
      FirstAndRest(cs, xs, d);
      BelowUnfold(cs, xs[0], d, height);
      EntriesPlaced(cs, KidsOf(cs, xs[0]), d + 1, height - 1);
      EntriesPlaced(cs, xs[1..], d, height);
      EntriesPlacedStep(cs, xs, d, height);
    }
  }

  lemma EntriesPlacedStep(cs: seq<Channel>, xs: seq<Channel>, d: nat, height: nat)
    requires xs != [] && xs[0] in cs && AtDepth(cs, xs[0], d)
    requires AllPlaced(cs, EntriesBelow(cs, xs[0], d, height)) && AllPlaced(cs, EntriesOf(cs, xs[1..], d, height))
    ensures AllPlaced(cs, EntriesOf(cs, xs, d, height))
  {
    forall e | e in EntriesOf(cs, xs, d, height)
      ensures Placed(cs, e)
    {
      EntryCases(cs, xs, d, height, e);
    }
  }

  lemma {:induction false} RowsMembers(entries: seq<Entry>)
    ensures forall c :: c in Rows(entries) ==> exists e :: e in entries && e.channel == c
  {
    if entries != [] {
      RowsMembers(entries[1..]);
    }
  }

  // ----- Siblings keep list order -----

  lemma {:induction false} SiblingsOfSiblings(ids: set<int>, cs: seq<Channel>, key: Option<int>, other: Option<int>)
    ensures Siblings(ids, Siblings(ids, cs, key), other) == if key == other then Siblings(ids, cs, key) else []
  {
    if cs != [] {
      var init, last := cs[..|cs| - 1], cs[|cs| - 1];
      SiblingsOfSiblings(ids, init, key, other);
      if KeyOf(ids, last) == key {
        SiblingsSnoc(ids, Siblings(ids, init, key), last, other);
      } else {
        assert Siblings(ids, cs, key) == Siblings(ids, init, key);
      }
    }
  }

  /** Going up one step more. */
  lemma {:induction false} UpStep(cs: seq<Channel>, c: Channel, e: nat, k: nat)
    requires Distinct(cs) && c in cs && AtDepth(cs, c, e) && k < e
    ensures Up(cs, c, k) in cs && AtDepth(cs, Up(cs, c, k), e - k) && !IsRoot(Ids(cs), Up(cs, c, k))
    ensures Up(cs, c, k + 1) == RowOf(cs, Up(cs, c, k).parentId.value)
    decreases k
  {
    if k > 0 {
      UpStep(cs, RowOf(cs, c.parentId.value), e - 1, k - 1);
    }
  }

  /** The row `c` is the parent of the row `k` steps up from `p` exactly when it is `k + 1` steps up. */
  lemma AncestorAmongKids(cs: seq<Channel>, c: Channel, p: Channel, e: nat, k: nat)
    requires Distinct(cs) && c in cs && p in cs && AtDepth(cs, p, e) && k < e
    ensures Up(cs, p, k) in KidsOf(cs, c) <==> Up(cs, p, k + 1) == c
  {
    UpStep(cs, p, e, k);
    SiblingsMembers(Ids(cs), cs, Some(c.id));
    if Up(cs, p, k).parentId == Some(c.id) {
      SameRow(cs, c, RowOf(cs, c.id));
    }
  }

  /** The children of `p` among the rows listed for `xs` at depth `d`, when `p` is at depth `e`. */
  function ChildrenListed(cs: seq<Channel>, xs: seq<Channel>, d: nat, p: Channel, e: nat): seq<Channel> {
    if d > e + 1 then []
    else if d == e + 1 then Siblings(Ids(cs), xs, Some(p.id))
    else if Up(cs, p, e - d) in xs then KidsOf(cs, p)
    else []
  }

  /** A row under `p` is one step deeper than `p`. */
  lemma DepthBelowParent(cs: seq<Channel>, c: Channel, d: nat, p: Channel, e: nat)
    requires Distinct(cs) && c in cs && p in cs && AtDepth(cs, c, d) && AtDepth(cs, p, e)
    requires KeyOf(Ids(cs), c) == Some(p.id)
    ensures d == e + 1
  {
    SameRow(cs, p, RowOf(cs, p.id));
    DepthUnique(cs, p, d - 1, e);
  }

  lemma OneSibling(ids: set<int>, c: Channel, key: Option<int>)
    ensures Siblings(ids, [c], key) == if KeyOf(ids, c) == key then [c] else []
  {
    SiblingsSnoc(ids, [], c, key);
    assert [] + [c] == [c];
  }

  lemma {:induction false} ChildrenInOrder(cs: seq<Channel>, xs: seq<Channel>, d: nat, height: nat, p: Channel, e: nat)
    requires Distinct(cs) && AllAtDepth(cs, xs, d) && Distinct(xs) && d + height == |cs|
    requires p in cs && AtDepth(cs, p, e)
    ensures Listed(cs, EntriesOf(cs, xs, d, height), Some(p.id)) == ChildrenListed(cs, xs, d, p, e)
    decreases height, |xs|
  {
    hide *;
    if xs == [] {
      NothingListed(cs, d, height, Some(p.id));
      NothingAmong(cs, d, p, e);
    } else {
      FirstAndRest(cs, xs, d);
      BelowUnfold(cs, xs[0], d, height);
      ChildrenInOrder(cs, KidsOf(cs, xs[0]), d + 1, height - 1, p, e);
      ChildrenInOrder(cs, xs[1..], d, height, p, e);
      ChildrenInOrderStep(cs, xs, d, height, p, e);
    }
  }

  lemma NothingListed(cs: seq<Channel>, d: nat, height: nat, key: Option<int>)
    ensures Listed(cs, EntriesOf(cs, [], d, height), key) == []
  {
  }

  lemma NothingAmong(cs: seq<Channel>, d: nat, p: Channel, e: nat)
    ensures ChildrenListed(cs, [], d, p, e) == []
  {
  }

  lemma ChildrenInOrderStep(cs: seq<Channel>, xs: seq<Channel>, d: nat, height: nat, p: Channel, e: nat)
    requires xs != [] && Distinct(cs) && xs[0] in cs && AtDepth(cs, xs[0], d) && Distinct(xs)
    requires p in cs && AtDepth(cs, p, e)
    requires Listed(cs, EntriesBelow(cs, xs[0], d, height), Some(p.id))
          == ChildrenListed(cs, KidsOf(cs, xs[0]), d + 1, p, e)
    requires Listed(cs, EntriesOf(cs, xs[1..], d, height), Some(p.id)) == ChildrenListed(cs, xs[1..], d, p, e)
    ensures Listed(cs, EntriesOf(cs, xs, d, height), Some(p.id)) == ChildrenListed(cs, xs, d, p, e)
  {
    ListedUnfold(cs, xs, d, height, Some(p.id));
    ChildrenUnderFirst(cs, xs[0], d, p, e);
    ChildrenListedSplit(cs, xs, d, p, e);
  }

  /** The listed rows that hang under `key`, in listed order. */
  function Listed(cs: seq<Channel>, entries: seq<Entry>, key: Option<int>): seq<Channel> {
    Siblings(Ids(cs), Rows(entries), key)
  }

  /** The listed rows are those of the first tree's root, of the trees below it, and of the other trees. */
  lemma ListedUnfold(cs: seq<Channel>, xs: seq<Channel>, d: nat, height: nat, key: Option<int>)
    requires xs != []
    ensures Listed(cs, EntriesOf(cs, xs, d, height), key)
         == Siblings(Ids(cs), [xs[0]], key)
            + Listed(cs, EntriesBelow(cs, xs[0], d, height), key)
            + Listed(cs, EntriesOf(cs, xs[1..], d, height), key)
  {
    EntriesUnfold(cs, xs, d, height);
    var head := [EntryOf(xs[0], d)];
    var below := EntriesBelow(cs, xs[0], d, height);
    var others := EntriesOf(cs, xs[1..], d, height);
    RowsConcat(head + below, others);
    RowsConcat(head, below);
    assert head[1..] == [] && Rows(head) == [xs[0]];
    SiblingsConcat(Ids(cs), [xs[0]] + Rows(below), Rows(others), key);
    SiblingsConcat(Ids(cs), [xs[0]], Rows(below), key);
  }

  /** In the first tree: `c` itself is under `p`, or `p` is `c`, or `p` is further down. */
  lemma ChildrenUnderFirst(cs: seq<Channel>, c: Channel, d: nat, p: Channel, e: nat)
    requires Distinct(cs) && c in cs && AtDepth(cs, c, d) && p in cs && AtDepth(cs, p, e)
    ensures Siblings(Ids(cs), [c], Some(p.id)) + ChildrenListed(cs, KidsOf(cs, c), d + 1, p, e)
         == ChildrenListed(cs, [c], d, p, e)
  {
    hide AtDepth, Distinct, Siblings, KeyOf, Up;
    OneSibling(Ids(cs), c, Some(p.id));
    if KeyOf(Ids(cs), c) == Some(p.id) {
      DepthBelowParent(cs, c, d, p, e);
    }
    if d == e {
      SiblingsOfSiblings(Ids(cs), cs, Some(c.id), Some(p.id));
      UpZero(cs, p);
      if c.id == p.id {
        SameRow(cs, c, p);
      }
    } else if d < e {
      AncestorAmongKids(cs, c, p, e, e - d - 1);
    }
  }

  lemma UpZero(cs: seq<Channel>, c: Channel)
    ensures Up(cs, c, 0) == c
  {
  }

  lemma ChildrenListedSplit(cs: seq<Channel>, xs: seq<Channel>, d: nat, p: Channel, e: nat)
    requires xs != [] && Distinct(xs)
    ensures ChildrenListed(cs, xs, d, p, e)
         == ChildrenListed(cs, [xs[0]], d, p, e) + ChildrenListed(cs, xs[1..], d, p, e)
  {
    var c, rest := xs[0], xs[1..];
    assert xs == [c] + rest;
    SiblingsConcat(Ids(cs), [c], rest, Some(p.id));
    assert c !in rest;
  }

  lemma {:induction false} RootsInOrder(cs: seq<Channel>, xs: seq<Channel>, d: nat, height: nat)
    requires Distinct(cs) && AllAtDepth(cs, xs, d) && d + height == |cs|
    ensures Listed(cs, EntriesOf(cs, xs, d, height), None) == if d == 0 then xs else []
    decreases height, |xs|
  {
    hide *;
    if xs == [] {
      NothingListed(cs, d, height, None);
    } else {
      FirstAndRest(cs, xs, d);
      BelowUnfold(cs, xs[0], d, height);
      RootsInOrder(cs, KidsOf(cs, xs[0]), d + 1, height - 1);
      RootsInOrder(cs, xs[1..], d, height);
      RootsInOrderStep(cs, xs, d, height);
    }
  }

  lemma RootsInOrderStep(cs: seq<Channel>, xs: seq<Channel>, d: nat, height: nat)
    requires xs != [] && AtDepth(cs, xs[0], d)
    requires Listed(cs, EntriesBelow(cs, xs[0], d, height), None) == []
    requires Listed(cs, EntriesOf(cs, xs[1..], d, height), None) == if d == 0 then xs[1..] else []
    ensures Listed(cs, EntriesOf(cs, xs, d, height), None) == if d == 0 then xs else []
  {
    hide *;
    RootKey(cs, xs[0], d);
    ListedUnfold(cs, xs, d, height, None);
    OneSibling(Ids(cs), xs[0], None);
    JoinThree(Siblings(Ids(cs), [xs[0]], None), Listed(cs, EntriesOf(cs, xs[1..], d, height), None));
    Rejoin(xs);
  }

  lemma JoinThree<T>(a: seq<T>, b: seq<T>)
    ensures a + [] + b == a + b && [] + b == b
  {
  }

  lemma Rejoin<T>(xs: seq<T>)
    requires xs != []
    ensures [xs[0]] + xs[1..] == xs
  {
  }

  lemma RootKey(cs: seq<Channel>, c: Channel, d: nat)
    requires AtDepth(cs, c, d)
    ensures KeyOf(Ids(cs), c) == None <==> d == 0
  {
  }

  /** The roots, and the children of every row whose chain ends, are listed in the order of the list. */
  lemma SiblingsKeepOrder(cs: seq<Channel>, key: Option<int>)
    requires Distinct(cs)
    requires key.Some? ==> key.value in Ids(cs) && Rooted(cs, RowOf(cs, key.value))
    ensures Listed(cs, Table(cs), key) == Siblings(Ids(cs), cs, key)
  {
    RootsAtDepth(cs);
    match key
    case None => RootsInOrder(cs, RootsOf(cs), 0, |cs|);
    case Some(id) =>
      var p := RowOf(cs, id);
      var e: nat :| AtDepth(cs, p, e);
      ChildrenInOrder(cs, RootsOf(cs), 0, |cs|, p, e);
      SiblingsMembers(Ids(cs), cs, None);
      RootAbove(cs, p, e);
  }

  lemma {:induction false} RootAbove(cs: seq<Channel>, p: Channel, e: nat)
    requires Distinct(cs) && p in cs && AtDepth(cs, p, e)
    ensures Up(cs, p, e) in RootsOf(cs)
    decreases e
  {
    SiblingsMembers(Ids(cs), cs, None);
    if e > 0 {
      RootAbove(cs, RowOf(cs, p.parentId.value), e - 1);
    }
  }

  // ----- Each row once, or never -----

  /** Every row is listed exactly once if its parent chain ends, and never if it is on or below a cycle. */
  lemma ListedOnceIffRooted(cs: seq<Channel>, c: Channel)
    requires Distinct(cs) && c in cs
    ensures multiset(Rows(Table(cs)))[c] == if Rooted(cs, c) then 1 else 0
  {
    var ids, rows := Ids(cs), Rows(Table(cs));
    if Rooted(cs, c) {
      var key := KeyOf(ids, c);
      var d: nat :| AtDepth(cs, c, d);
      if key.Some? {
        assert AtDepth(cs, RowOf(cs, key.value), d - 1);
      }
      SiblingsKeepOrder(cs, key);
      SiblingsCount(ids, rows, c);
      SiblingsCount(ids, cs, c);
      DistinctCount(cs, c);
    } else {
      RootsAtDepth(cs);
      EntriesPlaced(cs, RootsOf(cs), 0, |cs|);
      assert Table(cs) == EntriesOf(cs, RootsOf(cs), 0, |cs|);
      RowsMembers(Table(cs));
      assert c !in rows;
    }
  }

  // ----- Each entry under its parent -----

  /** Entry `j` is the parent of entry `i`, and everything between them lies below the parent too. */
  ghost predicate SitsUnder(entries: seq<Entry>, j: nat, i: nat) {
    && j < i < |entries|
    && entries[i].depth == entries[j].depth + 1
    && entries[i].channel.parentId == Some(entries[j].channel.id)
    && forall k :: j < k < i ==> entries[k].depth > entries[j].depth
  }

  /** Every entry deeper than `d` sits under an entry before it. */
  ghost predicate Nested(entries: seq<Entry>, d: nat) {
    forall i :: 0 <= i < |entries| && entries[i].depth > d ==> exists j :: SitsUnder(entries, j, i)
  }

  ghost predicate HangUnder(xs: seq<Channel>, parent: Option<int>) {
    forall c :: c in xs ==> c.parentId == parent
  }

  lemma KidsHangUnder(cs: seq<Channel>, c: Channel)
    ensures HangUnder(KidsOf(cs, c), Some(c.id))
  {
    SiblingsMembers(Ids(cs), cs, Some(c.id));
  }

  /** Entries at the top depth are rows of `xs`. */
  ghost predicate Topped(xs: seq<Channel>, entries: seq<Entry>, d: nat) {
    forall e :: e in entries ==> e.depth >= d && (e.depth == d ==> e.channel in xs)
  }

  lemma {:induction false} TopEntries(cs: seq<Channel>, xs: seq<Channel>, d: nat, height: nat)
    ensures Topped(xs, EntriesOf(cs, xs, d, height), d)
    decreases height, |xs|
  {
    if xs != [] {
      hide *;
      TopEntries(cs, xs[1..], d, height);
      if height > 0 {
        TopEntries(cs, KidsOf(cs, xs[0]), d + 1, height - 1);
      }
      TopEntriesStep(cs, xs, d, height);
    }
  }

  lemma TopEntriesStep(cs: seq<Channel>, xs: seq<Channel>, d: nat, height: nat)
    requires xs != [] && Topped(xs[1..], EntriesOf(cs, xs[1..], d, height), d)
    requires height > 0 ==> Topped(KidsOf(cs, xs[0]), EntriesOf(cs, KidsOf(cs, xs[0]), d + 1, height - 1), d + 1)
    ensures Topped(xs, EntriesOf(cs, xs, d, height), d)
  {
    forall e | e in EntriesOf(cs, xs, d, height)
      ensures e.depth >= d && (e.depth == d ==> e.channel in xs)
    {
      EntryCases(cs, xs, d, height, e);
      assert xs[0] in xs;
    }
  }

  lemma SitsUnderShift(before: seq<Entry>, entries: seq<Entry>, after: seq<Entry>, j: nat, i: nat)
    requires SitsUnder(entries, j, i)
    ensures SitsUnder(before + entries + after, |before| + j, |before| + i)
  {
    var all := before + entries + after;
    assert forall k :: 0 <= k < |entries| ==> all[|before| + k] == entries[k];
    forall k | |before| + j < k < |before| + i
      ensures all[k].depth > entries[j].depth
    {
      assert all[k] == entries[k - |before|];
    }
  }

  lemma {:induction false} EntriesNested(cs: seq<Channel>, xs: seq<Channel>, d: nat, height: nat)
    ensures Nested(EntriesOf(cs, xs, d, height), d)
    decreases height, |xs|
  {
    if xs != [] {
      hide *;
      if height > 0 {
        EntriesNested(cs, KidsOf(cs, xs[0]), d + 1, height - 1);
      }
      BelowHangs(cs, xs[0], d, height);
      EntriesNested(cs, xs[1..], d, height);
      EntriesUnfold(cs, xs, d, height);
      NestedJoin(EntryOf(xs[0], d), EntriesBelow(cs, xs[0], d, height), EntriesOf(cs, xs[1..], d, height), d);
    }
  }

  lemma BelowHangs(cs: seq<Channel>, c: Channel, d: nat, height: nat)
    requires height > 0 ==> Nested(EntriesOf(cs, KidsOf(cs, c), d + 1, height - 1), d + 1)
    ensures EntryOf(c, d).depth == d && HangsBelow(EntryOf(c, d), EntriesBelow(cs, c, d, height))
    ensures Nested(EntriesBelow(cs, c, d, height), d + 1)
  {
    if height > 0 {
      var below := EntriesOf(cs, KidsOf(cs, c), d + 1, height - 1);
      KidsHangUnder(cs, c);
      TopEntries(cs, KidsOf(cs, c), d + 1, height - 1);
      assert forall k :: 0 <= k < |below| ==> below[k] in below;
    }
  }

  /** `below` hangs under `head`: its entries are deeper, and those one level deeper are the head's children. */
  ghost predicate HangsBelow(head: Entry, below: seq<Entry>) {
    forall k :: 0 <= k < |below| ==>
      && below[k].depth > head.depth
      && (below[k].depth == head.depth + 1 ==> below[k].channel.parentId == Some(head.channel.id))
  }

  lemma NestedJoin(head: Entry, below: seq<Entry>, others: seq<Entry>, d: nat)
    requires head.depth == d && Nested(below, d + 1) && Nested(others, d) && HangsBelow(head, below)
    ensures Nested([head] + below + others, d)
  {
    hide SitsUnder;
    var all := [head] + below + others;
    forall i | 0 <= i < |all| && all[i].depth > d
      ensures exists j :: SitsUnder(all, j, i)
    {
      if i <= |below| {
        var j := SitsInBelow(head, below, others, d, i - 1);
      } else {
        var at := i - 1 - |below|;
        assert all[i] == others[at];
        var j: nat :| SitsUnder(others, j, at);
        SitsUnderShift([head] + below, others, [], j, at);
        assert [head] + below + others + [] == all;
      }
    }
  }

  lemma SitsInBelow(head: Entry, below: seq<Entry>, others: seq<Entry>, d: nat, i: nat) returns (j: nat)
    requires head.depth == d && Nested(below, d + 1) && HangsBelow(head, below) && i < |below|
    ensures SitsUnder([head] + below + others, j, i + 1)
  {
    hide SitsUnder;
    if below[i].depth == d + 1 {
      j := 0;
      SitsUnderHead(head, below, others, i);
    } else {
      assert below[i].depth > d + 1;
      var k: nat :| SitsUnder(below, k, i);
      j := 1 + k;
      SitsUnderShift([head], below, others, k, i);
    }
  }

  lemma SitsUnderHead(head: Entry, below: seq<Entry>, others: seq<Entry>, i: nat)
    requires HangsBelow(head, below) && i < |below| && below[i].depth == head.depth + 1
    ensures SitsUnder([head] + below + others, 0, i + 1)
  {
    var all := [head] + below + others;
    assert forall k :: 0 < k <= |below| ==> all[k] == below[k - 1];
  }

  /** Every entry that is not at the left margin sits directly under its parent's entry. */
  lemma EntriesSitUnderParents(cs: seq<Channel>)
    ensures Nested(Table(cs), 0)
  {
    EntriesNested(cs, RootsOf(cs), 0, |cs|);
  }

  /** The depth and the indentation of an entry are those of its row's chain length. */
  lemma DepthsAreChainLengths(cs: seq<Channel>, e: Entry)
    requires Distinct(cs) && e in Table(cs)
    ensures e.channel in cs && AtDepth(cs, e.channel, e.depth)
    ensures |e.title| == 2 * e.depth + |e.channel.name| && e.title[2 * e.depth..] == e.channel.name
    ensures forall i :: 0 <= i < 2 * e.depth ==> e.title[i] == '\U{A0}'
  {
    IndentIsBlank(e.depth);
    RootsAtDepth(cs);
    EntriesPlaced(cs, RootsOf(cs), 0, |cs|);
    assert e in EntriesOf(cs, RootsOf(cs), 0, |cs|);
    assert Placed(cs, e);
  }

  /** At the margin stand exactly the rows without a parent and the orphans. */
  lemma MarginExactly(cs: seq<Channel>, e: Entry)
    requires Distinct(cs) && e in Table(cs)
    ensures e.depth == 0 <==> e.channel.parentId == None || forall c :: c in cs ==> c.id != e.channel.parentId.value
  {
    DepthsAreChainLengths(cs, e);
    if e.channel.parentId.Some? {
      assert e.channel.parentId.value in Ids(cs) <==> exists c :: c in cs && c.id == e.channel.parentId.value;
    }
  }

  lemma {:induction false} IndentIsBlank(depth: nat)
    ensures |Indent(depth)| == 2 * depth && forall i :: 0 <= i < 2 * depth ==> Indent(depth)[i] == '\U{A0}'
  {
    if depth > 0 {
      IndentIsBlank(depth - 1);
    }
  }
}
