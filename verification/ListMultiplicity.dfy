/**
  How often a converted list emits each text leaf: once in the paragraph of every list
  item on the leaf's chain of directly nested `li` and `ul`/`ol` elements.

  Occurrences are counted by an arbitrary weight on strings: with the weight that is 1
  on one string and 0 elsewhere, a total weight is the number of occurrences of that string.
 */
module ListMultiplicity {
  import opened HtmlText
  import opened HtmlTree
  import opened InlineContent
  import opened InlineText
  import opened BlockConverter

  /** A text leaf and the number of list items on its direct chain. */
  datatype Chained = Chained(data: string, depth: nat)

  /** Every visible leaf below the children of a list that is itself on a chain of `depth` items. */
  function ListLeaves(ns: seq<Node>, depth: nat): seq<Chained>
    decreases ns, 0
  {
    if ns == [] then [] else ListChildLeaves(ns[0], depth) + ListLeaves(ns[1..], depth)
  }

  function ListChildLeaves(n: Node, depth: nat): seq<Chained>
    decreases n, 1
  {
    if IsElement(n, "li") then ItemLeaves(n.children, depth + 1) else AtDepth(LeavesOfNode(n, []), depth)
  }

  /** The same below the children of the `depth`-th list item of a chain; only direct lists extend the chain. */
  function ItemLeaves(ns: seq<Node>, depth: nat): seq<Chained>
    decreases ns, 0
  {
    if ns == [] then [] else ItemChildLeaves(ns[0], depth) + ItemLeaves(ns[1..], depth)
  }

  function ItemChildLeaves(n: Node, depth: nat): seq<Chained>
    decreases n, 1
  {
    if IsList(n) then ListLeaves(n.children, depth) else AtDepth(LeavesOfNode(n, []), depth)
  }

  function AtDepth(leaves: seq<Leaf>, depth: nat): seq<Chained> {
    if leaves == [] then [] else [Chained(leaves[0].Text(), depth)] + AtDepth(leaves[1..], depth)
  }

  // ----- Weights -----

  function Weigh(f: string -> nat, s: string): nat {
    if IsBlank(s) then 0 else f(s)
  }

  function LeafWeight(leaves: seq<Leaf>, f: string -> nat): nat {
    if leaves == [] then 0 else Weigh(f, leaves[0].Text()) + LeafWeight(leaves[1..], f)
  }

  /** Each leaf counted as often as its chain is deep. */
  function ChainWeight(leaves: seq<Chained>, f: string -> nat): nat {
    if leaves == [] then 0 else leaves[0].depth * Weigh(f, leaves[0].data) + ChainWeight(leaves[1..], f)
  }

  function ContentWeight(content: seq<Inline>, f: string -> nat): nat {
    if content == [] then 0
    else (if content[0].TextNode? then Weigh(f, content[0].text) else 0) + ContentWeight(content[1..], f)
  }

  function BlockWeight(b: Block, f: string -> nat): nat
    decreases b, 1
  {
    match b
    case Paragraph(content) => ContentWeight(content, f)
    case Heading(_, content) => ContentWeight(content, f)
    case ImageBlock(_, _) => 0
    case BulletList(items) => BlocksWeight(items, f)
    case OrderedList(_, items) => BlocksWeight(items, f)
    case ListItem(body) => BlocksWeight(body, f)
    case Blockquote(body) => BlocksWeight(body, f)
    case CodeBlock(text) => Weigh(f, text)
  }

  function BlocksWeight(bs: seq<Block>, f: string -> nat): nat
    decreases bs, 0
  {
    if bs == [] then 0 else BlockWeight(bs[0], f) + BlocksWeight(bs[1..], f)
  }

  // ----- Sums over concatenations -----

  lemma {:induction false} LeafWeightConcat(a: seq<Leaf>, b: seq<Leaf>, f: string -> nat)
    ensures LeafWeight(a + b, f) == LeafWeight(a, f) + LeafWeight(b, f)
  {
    if a == [] {
      assert a + b == b;
    } else {
      LeafWeightConcat(a[1..], b, f);
      assert (a + b)[1..] == a[1..] + b;
    }
  }

  lemma {:induction false} ChainWeightConcat(a: seq<Chained>, b: seq<Chained>, f: string -> nat)
    ensures ChainWeight(a + b, f) == ChainWeight(a, f) + ChainWeight(b, f)
  {
    if a == [] {
      assert a + b == b;
    } else {
      ChainWeightConcat(a[1..], b, f);
      assert (a + b)[1..] == a[1..] + b && (a + b)[0] == a[0];
    }
  }

  lemma {:induction false} BlocksWeightConcat(a: seq<Block>, b: seq<Block>, f: string -> nat)
    ensures BlocksWeight(a + b, f) == BlocksWeight(a, f) + BlocksWeight(b, f)
  {
    if a == [] {
      assert a + b == b;
    } else {
      BlocksWeightConcat(a[1..], b, f);
      assert (a + b)[1..] == a[1..] + b && (a + b)[0] == a[0];
    }
  }

  lemma OneBlockWeight(b: Block, f: string -> nat)
    ensures BlocksWeight([b], f) == BlockWeight(b, f)
  {
    assert [b][1..] == [];
  }

  lemma {:induction false} AtDepthWeight(leaves: seq<Leaf>, depth: nat, f: string -> nat)
    ensures ChainWeight(AtDepth(leaves, depth), f) == depth * LeafWeight(leaves, f)
  {
    if leaves != [] {
      AtDepthWeight(leaves[1..], depth, f);
      Distribute(depth, Weigh(f, leaves[0].Text()), LeafWeight(leaves[1..], f));
    }
  }

  lemma Distribute(d: nat, a: nat, b: nat)
    ensures d * (a + b) == d * a + d * b
    ensures (d + 1) * a == d * a + a
  {
  }

  // ----- One paragraph -----

  lemma {:induction false} BlankLeafWeight(leaves: seq<Leaf>, f: string -> nat)
    requires AllBlank(leaves)
    ensures LeafWeight(leaves, f) == 0
  {
    if leaves != [] {
      BlankLeafWeight(leaves[1..], f);
    }
  }

  lemma {:induction false} LeafNodesWeight(leaves: seq<Leaf>, f: string -> nat)
    ensures ContentWeight(LeafNodes(leaves), f) == LeafWeight(leaves, f)
  {
    if leaves != [] {
      LeafNodesWeight(leaves[1..], f);
    }
  }

  /** A paragraph holds every non-blank visible leaf below its element exactly once. */
  lemma ParagraphWeight(n: Node, f: string -> nat)
    ensures ContentWeight(InlineContentOf(n), f) == LeafWeight(Leaves(n.Kids(), []), f)
  {
    var leaves := Leaves(n.Kids(), []);
    var skip := InlineFollowsLeaves(n.Kids(), false, []);
    assert leaves == leaves[..skip] + leaves[skip..];
    LeafWeightConcat(leaves[..skip], leaves[skip..], f);
    BlankLeafWeight(leaves[..skip], f);
    LeafNodesWeight(leaves[skip..], f);
  }

  // ----- Whole lists -----

  /** A leaf's weight does not depend on the ancestors recorded with it. */
  lemma {:induction false} LeafWeightByData(a: seq<Leaf>, b: seq<Leaf>, f: string -> nat)
    requires LeafData(a) == LeafData(b)
    ensures LeafWeight(a, f) == LeafWeight(b, f)
  {
    if a != [] && b != [] {
      assert LeafData(a)[0] == LeafData(b)[0] && LeafData(a)[1..] == LeafData(b)[1..];
      LeafWeightByData(a[1..], b[1..], f);
    }
  }

  /** `head` is what `ns[0]` contributes at this depth, besides `below` in nested lists. */
  lemma AddHead(ns: seq<Node>, head: seq<Chained>, tail: seq<Chained>, depth: nat, f: string -> nat,
                below: nat, rest: nat)
    requires ns != []
    requires ChainWeight(head, f) == depth * LeafWeight(LeavesOfNode(ns[0], []), f) + below
    requires ChainWeight(tail, f) == depth * LeafWeight(Leaves(ns[1..], []), f) + rest
    ensures ChainWeight(head + tail, f) == depth * LeafWeight(Leaves(ns, []), f) + below + rest
  {
    LeavesUnfold(ns);
    hide *;
    ChainWeightConcat(head, tail, f);
    LeafWeightConcat(LeavesOfNode(ns[0], []), Leaves(ns[1..], []), f);
    DistributeSum(depth, LeafWeight(Leaves(ns, []), f),
                  LeafWeight(LeavesOfNode(ns[0], []), f), LeafWeight(Leaves(ns[1..], []), f));
  }

  lemma DistributeSum(d: nat, sum: nat, a: nat, b: nat)
    requires sum == a + b
    ensures d * sum == d * a + d * b
  {
    Distribute(d, a, b);
  }

  lemma LeavesUnfold(ns: seq<Node>)
    requires ns != []
    ensures Leaves(ns, []) == LeavesOfNode(ns[0], []) + Leaves(ns[1..], [])
  {
  }

  lemma ItemWeight(c: Node, f: string -> nat)
    requires IsElement(c, "li")
    ensures BlocksWeight([ItemOf(c)], f)
         == LeafWeight(Leaves(c.children, []), f) + BlocksWeight(NestedLists(c.children), f)
  {
    OneBlockWeight(ItemOf(c), f);
    OneBlockWeight(Paragraph(InlineContentOf(c)), f);
    BlocksWeightConcat([Paragraph(InlineContentOf(c))], NestedLists(c.children), f);
    ParagraphWeight(c, f);
  }

  lemma {:induction false} ListChildWeight(n: Node, depth: nat, f: string -> nat)
    ensures ChainWeight(ListChildLeaves(n, depth), f)
         == depth * LeafWeight(LeavesOfNode(n, []), f) + BlocksWeight(ListChild(n), f)
    decreases n, 1
  {
    if IsElement(n, "li") {
      ItemsWeight(n.children, depth + 1, f);
      ItemWeight(n, f);
      LeafDataAnywhere(n.children, [] + [n], []);
      LeafWeightByData(LeavesOfNode(n, []), Leaves(n.children, []), f);
      Distribute(depth, LeafWeight(Leaves(n.children, []), f), 0);
    } else {
      AtDepthWeight(LeavesOfNode(n, []), depth, f);
    }
  }

  lemma {:induction false} ListWeight(ns: seq<Node>, depth: nat, f: string -> nat)
    ensures ChainWeight(ListLeaves(ns, depth), f)
         == depth * LeafWeight(Leaves(ns, []), f) + BlocksWeight(ListItemsOf(ns), f)
    decreases ns, 0
  {
    if ns != [] {
      var n, rest := ns[0], ns[1..];
      ListWeight(rest, depth, f);
      ListChildWeight(n, depth, f);
      BlocksWeightConcat(ListChild(n), ListItemsOf(rest), f);
      AddHead(ns, ListChildLeaves(n, depth), ListLeaves(rest, depth), depth, f,
              BlocksWeight(ListChild(n), f), BlocksWeight(ListItemsOf(rest), f));
    }
  }

  lemma {:induction false} ItemChildWeight(n: Node, depth: nat, f: string -> nat)
    ensures ChainWeight(ItemChildLeaves(n, depth), f)
         == depth * LeafWeight(LeavesOfNode(n, []), f) + BlocksWeight(ItemChild(n), f)
    decreases n, 1
  {
    if IsList(n) {
      ListWeight(n.children, depth, f);
      OneBlockWeight(NestedList(n.tag, ListItemsOf(n.children)), f);
      LeafDataAnywhere(n.children, [] + [n], []);
      LeafWeightByData(LeavesOfNode(n, []), Leaves(n.children, []), f);
    } else {
      AtDepthWeight(LeavesOfNode(n, []), depth, f);
    }
  }

  lemma {:induction false} ItemsWeight(ns: seq<Node>, depth: nat, f: string -> nat)
    ensures ChainWeight(ItemLeaves(ns, depth), f)
         == depth * LeafWeight(Leaves(ns, []), f) + BlocksWeight(NestedLists(ns), f)
    decreases ns, 0
  {
    if ns != [] {
      var n, rest := ns[0], ns[1..];
      ItemsWeight(rest, depth, f);
      ItemChildWeight(n, depth, f);
      BlocksWeightConcat(ItemChild(n), NestedLists(rest), f);
      AddHead(ns, ItemChildLeaves(n, depth), ItemLeaves(rest, depth), depth, f,
              BlocksWeight(ItemChild(n), f), BlocksWeight(NestedLists(rest), f));
    }
  }

  /** The multiplicity of a non-blank leaf in a converted list is the depth of its chain. */
  lemma MultiplicityIsChainDepth(ns: seq<Node>, f: string -> nat)
    ensures BlocksWeight(ListItemsOf(ns), f) == ChainWeight(ListLeaves(ns, 0), f)
  {
    hide *;
    ListWeight(ns, 0, f);
  }

  /** The annotated leaves are the visible leaves, each listed once: the depths do not hide any. */
  lemma {:induction false} ChainedLeavesAreTheLeaves(ns: seq<Node>, depth: nat, ancestors: seq<Node>)
    ensures Data(ListLeaves(ns, depth)) == LeafData(Leaves(ns, ancestors))
  {
    if ns != [] {
      var n, rest := ns[0], ns[1..];
      ChainedLeavesAreTheLeaves(rest, depth, ancestors);
      if IsElement(n, "li") {
        ItemLeavesAreTheLeaves(n.children, depth + 1, ancestors + [n]);
        DataConcat(ItemLeaves(n.children, depth + 1), ListLeaves(rest, depth));
      } else {
        AtDepthData(n, depth, ancestors);
        DataConcat(AtDepth(LeavesOfNode(n, []), depth), ListLeaves(rest, depth));
      }
      LeafDataConcat(LeavesOfNode(n, ancestors), Leaves(rest, ancestors));
    }
  }

  lemma {:induction false} ItemLeavesAreTheLeaves(ns: seq<Node>, depth: nat, ancestors: seq<Node>)
    ensures Data(ItemLeaves(ns, depth)) == LeafData(Leaves(ns, ancestors))
  {
    if ns != [] {
      var n, rest := ns[0], ns[1..];
      ItemLeavesAreTheLeaves(rest, depth, ancestors);
      if IsList(n) {
        ChainedLeavesAreTheLeaves(n.children, depth, ancestors + [n]);
        DataConcat(ListLeaves(n.children, depth), ItemLeaves(rest, depth));
      } else {
        AtDepthData(n, depth, ancestors);
        DataConcat(AtDepth(LeavesOfNode(n, []), depth), ItemLeaves(rest, depth));
      }
      LeafDataConcat(LeavesOfNode(n, ancestors), Leaves(rest, ancestors));
    }
  }

  function Data(leaves: seq<Chained>): seq<string> {
    if leaves == [] then [] else [leaves[0].data] + Data(leaves[1..])
  }

  lemma {:induction false} DataConcat(a: seq<Chained>, b: seq<Chained>)
    ensures Data(a + b) == Data(a) + Data(b)
  {
    if a == [] {
      assert a + b == b;
    } else {
      DataConcat(a[1..], b);
      assert (a + b)[1..] == a[1..] + b && (a + b)[0] == a[0];
    }
  }

  lemma {:induction false} DataAtDepth(leaves: seq<Leaf>, depth: nat)
    ensures Data(AtDepth(leaves, depth)) == LeafData(leaves)
  {
    if leaves != [] {
      DataAtDepth(leaves[1..], depth);
      assert AtDepth(leaves, depth)[1..] == AtDepth(leaves[1..], depth);
    }
  }

  lemma AtDepthData(n: Node, depth: nat, ancestors: seq<Node>)
    ensures Data(AtDepth(LeavesOfNode(n, []), depth)) == LeafData(LeavesOfNode(n, ancestors))
  {
    DataAtDepth(LeavesOfNode(n, []), depth);
    NodeDataAnywhere(n, [], ancestors);
  }

  // ----- The number of list items -----

  /** The `li` elements reachable from a sibling list by direct list nesting. */
  function ReachableItems(ns: seq<Node>): nat {
    if ns == [] then 0
    else (if IsElement(ns[0], "li") then 1 + ReachableBelow(ns[0].children) else 0) + ReachableItems(ns[1..])
  }

  function ReachableBelow(ns: seq<Node>): nat {
    if ns == [] then 0
    else (if IsList(ns[0]) then ReachableItems(ns[0].children) else 0) + ReachableBelow(ns[1..])
  }

  function CountItem(b: Block): nat
    decreases b, 1
  {
    match b
    case BulletList(items) => CountItems(items)
    case OrderedList(_, items) => CountItems(items)
    case ListItem(body) => 1 + CountItems(body)
    case Blockquote(body) => CountItems(body)
    case _ => 0
  }

  function CountItems(bs: seq<Block>): nat
    decreases bs, 0
  {
    if bs == [] then 0 else CountItem(bs[0]) + CountItems(bs[1..])
  }

  lemma {:induction false} CountItemsConcat(a: seq<Block>, b: seq<Block>)
    ensures CountItems(a + b) == CountItems(a) + CountItems(b)
  {
    if a == [] {
      assert a + b == b;
    } else {
      CountItemsConcat(a[1..], b);
      assert (a + b)[1..] == a[1..] + b && (a + b)[0] == a[0];
    }
  }

  /** A converted list has one `listItem` node for every `li` that direct nesting reaches. */
  lemma {:induction false} OneItemPerLi(ns: seq<Node>)
    ensures CountItems(ListItemsOf(ns)) == ReachableItems(ns)
  {
    if ns != [] {
      OneItemPerLi(ns[1..]);
      if IsElement(ns[0], "li") {
        var c := ns[0];
        OneItemPerLiBelow(c.children);
        CountItemsConcat([Paragraph(InlineContentOf(c))], NestedLists(c.children));
        CountItemsConcat([ItemOf(c)], ListItemsOf(ns[1..]));
        assert [Paragraph(InlineContentOf(c))][1..] == [] && [ItemOf(c)][1..] == [];
      } else {
        assert ListItemsOf(ns) == ListItemsOf(ns[1..]);
      }
    }
  }

  lemma {:induction false} OneItemPerLiBelow(ns: seq<Node>)
    ensures CountItems(NestedLists(ns)) == ReachableBelow(ns)
  {
    if ns != [] {
      OneItemPerLiBelow(ns[1..]);
      if IsList(ns[0]) {
        var list := NestedList(ns[0].tag, ListItemsOf(ns[0].children));
        OneItemPerLi(ns[0].children);
        CountItemsConcat([list], NestedLists(ns[1..]));
        assert [list][1..] == [];
      } else {
        assert NestedLists(ns) == NestedLists(ns[1..]);
      }
    }
  }
}
