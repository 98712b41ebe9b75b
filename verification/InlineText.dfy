/**
  What inline content carries, against a reference that knows nothing of the output:
  the visible text leaves of a tree, each with the chain of elements above it.
 */
module InlineText {
  import opened HtmlText
  import opened HtmlTree
  import opened InlineContent

  /** What a leaf of the tree becomes: a text leaf comes with the elements that enclose it, outermost first. */
  datatype Leaf =
    | Leaf(data: string, ancestors: seq<Node>)
    | BreakLeaf
    | ImageLeaf(src: string)
  {
    function Text(): string {
      if Leaf? then data else ""
    }

    function Shown(): Inline {
      match this
      case Leaf(data, ancestors) => TextNode(data, MarksOf(ancestors))
      case BreakLeaf => HardBreak
      case ImageLeaf(src) => ImageInline(src)
    }
  }

  /** The leaves below `ns` that the walk can reach, in document order. */
  function Leaves(ns: seq<Node>, ancestors: seq<Node>): seq<Leaf>
    decreases ns, 0
  {
    if ns == [] then [] else LeavesOfNode(ns[0], ancestors) + Leaves(ns[1..], ancestors)
  }

  function LeavesOfNode(n: Node, ancestors: seq<Node>): seq<Leaf>
    decreases n, 1
  {
    match n
    case Text(data) => [Leaf(data, ancestors)]
    case Other(_) => []
    case Element(tag, attrs, children) =>
      if tag == "br" then [BreakLeaf]
      else if tag != "img" then Leaves(children, ancestors + [n])
      else if GetAttr(attrs, "src") != "" then [ImageLeaf(GetAttr(attrs, "src"))]
      else []
  }

  /** The marks a chain of ancestors adds, outermost first. */
  function MarksOf(ancestors: seq<Node>): seq<Mark> {
    if ancestors == [] then []
    else MarksWithin(ancestors[|ancestors| - 1], MarksOf(ancestors[..|ancestors| - 1]))
  }

  function LeafNodes(leaves: seq<Leaf>): seq<Inline> {
    if leaves == [] then [] else [leaves[0].Shown()] + LeafNodes(leaves[1..])
  }

  predicate IsBlankText(leaf: Leaf) {
    leaf.Leaf? && IsBlank(leaf.data)
  }

  predicate AllBlank(leaves: seq<Leaf>) {
    forall i :: 0 <= i < |leaves| ==> IsBlankText(leaves[i])
  }

  /** The first `skip` leaves are those in front of the first that is no blank text; none if something came before. */
  predicate SkipsFront(leaves: seq<Leaf>, skip: nat, started: bool) {
    && skip <= |leaves| && AllBlank(leaves[..skip])
    && if started then skip == 0 else skip < |leaves| ==> !IsBlankText(leaves[skip])
  }

  lemma {:induction false} LeafNodesConcat(a: seq<Leaf>, b: seq<Leaf>)
    ensures LeafNodes(a + b) == LeafNodes(a) + LeafNodes(b)
  {
    hide MarksOf;
    if a == [] {
      assert a + b == b;
    } else {
      LeafNodesConcat(a[1..], b);
      assert (a + b)[1..] == a[1..] + b && (a + b)[0] == a[0];
    }
  }

  lemma MarksOfSnoc(ancestors: seq<Node>, n: Node)
    ensures MarksOf(ancestors + [n]) == MarksWithin(n, MarksOf(ancestors))
  {
    assert (ancestors + [n])[..|ancestors|] == ancestors;
  }

  /**
    The output is the reachable leaves in document order, each text with the marks of its
    own ancestors and of nothing else, except for the `skip` blank texts that come before
    anything else, which are dropped while nothing has been appended yet.
   */
  lemma {:induction false} InlineFollowsLeaves(ns: seq<Node>, started: bool, ancestors: seq<Node>) returns (skip: nat)
    ensures SkipsFront(Leaves(ns, ancestors), skip, started)
    ensures InlineOf(ns, started, MarksOf(ancestors)) == LeafNodes(Leaves(ns, ancestors)[skip..])
    decreases ns, 0
  {
    hide AllBlank, IsBlankText, MarksOf, LeavesOfNode, InlineOfNode;
    if ns == [] {
      NothingBlank();
      return 0;
    }
    var marks := MarksOf(ancestors);
    var head := InlineOfNode(ns[0], started, marks);
    var headLeaves, restLeaves := LeavesOfNode(ns[0], ancestors), Leaves(ns[1..], ancestors);
    var headSkip := NodeFollowsLeaves(ns[0], started, ancestors);
    var restSkip := InlineFollowsLeaves(ns[1..], started || head != [], ancestors);
    if head == [] {
      LeafNodesEmpty(headLeaves[headSkip..]);
      SkipAll(headLeaves, restLeaves, restSkip, started);
      skip := |headLeaves| + restSkip;
    } else {
      SkipSome(headLeaves, restLeaves, headSkip, started);
      assert restLeaves[0..] == restLeaves;
      skip := headSkip;
    }
  }

  lemma NothingBlank()
    ensures AllBlank([])
  {
  }

  /** Skipping all of `a` and `k` of `b`, or just `k` of `a`, in the concatenation. */
  lemma SkipAll(a: seq<Leaf>, b: seq<Leaf>, k: nat, started: bool)
    requires SkipsFront(a, |a|, started) && SkipsFront(b, k, started)
    ensures SkipsFront(a + b, |a| + k, started) && (a + b)[|a| + k..] == b[k..]
  {
    hide IsBlankText;
    assert (a + b)[..|a| + k] == a + b[..k];
  }

  lemma SkipSome(a: seq<Leaf>, b: seq<Leaf>, k: nat, started: bool)
    requires k < |a| && SkipsFront(a, k, started)
    ensures SkipsFront(a + b, k, started) && LeafNodes((a + b)[k..]) == LeafNodes(a[k..]) + LeafNodes(b)
  {
    hide IsBlankText;
    assert (a + b)[..k] == a[..k] && (a + b)[k..] == a[k..] + b;
    LeafNodesConcat(a[k..], b);
  }

  lemma LeafNodesEmpty(leaves: seq<Leaf>)
    ensures LeafNodes(leaves) == [] <==> leaves == []
  {
  }

  lemma {:induction false} NodeFollowsLeaves(n: Node, started: bool, ancestors: seq<Node>) returns (skip: nat)
    ensures SkipsFront(LeavesOfNode(n, ancestors), skip, started)
    ensures InlineOfNode(n, started, MarksOf(ancestors)) == LeafNodes(LeavesOfNode(n, ancestors)[skip..])
    decreases n, 1
  {
    if n.Text? {
      TrimSpaceKeepsInk(n.data);
      skip := if !started && TrimSpace(n.data) == "" then 1 else 0;
    } else if Descends(n) {
      MarksOfSnoc(ancestors, n);
      skip := InlineFollowsLeaves(n.children, started, ancestors + [n]);
    } else {
      skip := 0;
    }
  }

  // ----- Text -----

  function TextOf(content: seq<Inline>): string {
    if content == [] then ""
    else (if content[0].TextNode? then content[0].text else "") + TextOf(content[1..])
  }

  function LeafText(leaves: seq<Leaf>): string {
    if leaves == [] then "" else leaves[0].Text() + LeafText(leaves[1..])
  }

  /** The text under `br`, `img` and non-element nodes, which the inline walk never enters. */
  function HiddenText(ns: seq<Node>): string
    decreases ns, 0
  {
    if ns == [] then "" else HiddenTextOfNode(ns[0]) + HiddenText(ns[1..])
  }

  function HiddenTextOfNode(n: Node): string
    decreases n, 1
  {
    if n.Text? then "" else if Descends(n) then HiddenText(n.children) else ExtractAll(n.children)
  }

  lemma {:induction false} LeafTextConcat(a: seq<Leaf>, b: seq<Leaf>)
    ensures LeafText(a + b) == LeafText(a) + LeafText(b)
  {
    if a == [] {
      assert a + b == b;
    } else {
      LeafTextConcat(a[1..], b);
      assert (a + b)[1..] == a[1..] + b && (a + b)[0] == a[0];
      StringAssoc(a[0].Text(), LeafText(a[1..]), LeafText(b));
    }
  }

  lemma {:induction false} TextOfLeafNodes(leaves: seq<Leaf>)
    ensures TextOf(LeafNodes(leaves)) == LeafText(leaves)
  {
    if leaves != [] {
      TextOfLeafNodes(leaves[1..]);
    }
  }

  lemma {:induction false} BlankLeafText(leaves: seq<Leaf>)
    requires AllBlank(leaves)
    ensures IsBlank(LeafText(leaves))
  {
    if leaves != [] {
      BlankLeafText(leaves[1..]);
      BlankConcat(leaves[0].data, LeafText(leaves[1..]));
    }
  }

  /** The whole text of a tree is its visible and its hidden text, each in order. */
  lemma {:induction false} VisibleAndHidden(ns: seq<Node>, ancestors: seq<Node>)
    ensures Shuffle(ExtractAll(ns), LeafText(Leaves(ns, ancestors)), HiddenText(ns))
    decreases ns, 0
  {
    if ns != [] {
      VisibleAndHiddenNode(ns[0], ancestors);
      VisibleAndHidden(ns[1..], ancestors);
      LeafTextConcat(LeavesOfNode(ns[0], ancestors), Leaves(ns[1..], ancestors));
      ShuffleConcat(ExtractText(ns[0]), LeafText(LeavesOfNode(ns[0], ancestors)), HiddenTextOfNode(ns[0]),
                    ExtractAll(ns[1..]), LeafText(Leaves(ns[1..], ancestors)), HiddenText(ns[1..]));
    }
  }

  lemma {:induction false} VisibleAndHiddenNode(n: Node, ancestors: seq<Node>)
    ensures Shuffle(ExtractText(n), LeafText(LeavesOfNode(n, ancestors)), HiddenTextOfNode(n))
    decreases n, 1
  {
    ShuffleWithNothing(ExtractText(n));
    if n.Text? {
      assert LeafText(LeavesOfNode(n, ancestors)) == n.data;
    } else if Descends(n) {
      VisibleAndHidden(n.children, ancestors + [n]);
    }
  }

  /**
    `collectInlineContent` reproduces the visible text of its element up to a blank
    prefix, so its text is that of `extractText` up to the same prefix when nothing is hidden.
   */
  lemma InlineContentText(n: Node) returns (prefix: string)
    ensures IsBlank(prefix) && LeafText(Leaves(n.Kids(), [])) == prefix + TextOf(InlineContentOf(n))
    ensures HiddenText(n.Kids()) == "" ==> ExtractAll(n.Kids()) == prefix + TextOf(InlineContentOf(n))
    ensures Ink(LeafText(Leaves(n.Kids(), []))) == Ink(TextOf(InlineContentOf(n)))
    ensures InlineContentOf(n) != []
  {
    var content := InlineOf(n.Kids(), false, []);
    var leaves := Leaves(n.Kids(), []);
    assert TextOf(InlineContentOf(n)) == TextOf(content);
    hide InlineOf, Leaves, InlineContentOf, Ink, IsBlank;
    var skip := InlineFollowsLeaves(n.Kids(), false, []);
    prefix := LeafText(leaves[..skip]);
    BlankLeafText(leaves[..skip]);
    assert LeafText(leaves) == prefix + TextOf(content) by {
      assert leaves == leaves[..skip] + leaves[skip..];
      LeafTextConcat(leaves[..skip], leaves[skip..]);
      TextOfLeafNodes(leaves[skip..]);
    }
    InkConcat(prefix, TextOf(content));
    InkOfBlank(prefix);
    assert Ink(prefix) + Ink(TextOf(content)) == Ink(TextOf(content));
    VisibleAndHidden(n.Kids(), []);
    if HiddenText(n.Kids()) == "" {
      ShuffleOnly(ExtractAll(n.Kids()), LeafText(leaves));
    }
  }

  /** The ink of an element survives its inline conversion exactly when none of it is hidden. */
  lemma InlineInkExact(n: Node)
    ensures Shuffle(Ink(ExtractAll(n.Kids())), Ink(TextOf(InlineContentOf(n))), Ink(HiddenText(n.Kids())))
    ensures Ink(TextOf(InlineContentOf(n))) == Ink(ExtractAll(n.Kids())) <==> IsBlank(HiddenText(n.Kids()))
  {
    var whole, shown, hidden := Ink(ExtractAll(n.Kids())), Ink(TextOf(InlineContentOf(n))), Ink(HiddenText(n.Kids()));
    var _ := InlineContentText(n);
    VisibleAndHidden(n.Kids(), []);
    ShuffleInk(ExtractAll(n.Kids()), LeafText(Leaves(n.Kids(), [])), HiddenText(n.Kids()));
    ShuffleCounts(whole, shown, hidden);
    InkOfBlank(HiddenText(n.Kids()));
    if hidden == "" {
      ShuffleOnly(whole, shown);
    }
  }

  // ----- Leaves without their ancestors -----

  function LeafData(leaves: seq<Leaf>): seq<string> {
    if leaves == [] then [] else [leaves[0].Text()] + LeafData(leaves[1..])
  }

  lemma {:induction false} LeafDataConcat(a: seq<Leaf>, b: seq<Leaf>)
    ensures LeafData(a + b) == LeafData(a) + LeafData(b)
  {
    if a == [] {
      assert a + b == b;
    } else {
      LeafDataConcat(a[1..], b);
      assert (a + b)[1..] == a[1..] + b && (a + b)[0] == a[0];
    }
  }

  lemma {:induction false} LeafDataAnywhere(ns: seq<Node>, a: seq<Node>, b: seq<Node>)
    ensures LeafData(Leaves(ns, a)) == LeafData(Leaves(ns, b))
    decreases ns, 0
  {
    if ns != [] {
      NodeDataAnywhere(ns[0], a, b);
      LeafDataAnywhere(ns[1..], a, b);
      LeafDataConcat(LeavesOfNode(ns[0], a), Leaves(ns[1..], a));
      LeafDataConcat(LeavesOfNode(ns[0], b), Leaves(ns[1..], b));
    }
  }

  lemma {:induction false} NodeDataAnywhere(n: Node, a: seq<Node>, b: seq<Node>)
    ensures LeafData(LeavesOfNode(n, a)) == LeafData(LeavesOfNode(n, b))
    decreases n, 1
  {
    if n.Text? {
      assert [Leaf(n.data, a)][1..] == [] && [Leaf(n.data, b)][1..] == [];
    } else if Descends(n) {
      LeafDataAnywhere(n.children, a + [n], b + [n]);
    }
  }

  lemma {:induction false} LeafTextByData(a: seq<Leaf>, b: seq<Leaf>)
    requires LeafData(a) == LeafData(b)
    ensures LeafText(a) == LeafText(b)
  {
    if a != [] && b != [] {
      assert LeafData(a)[0] == LeafData(b)[0] && LeafData(a)[1..] == LeafData(b)[1..];
      LeafTextByData(a[1..], b[1..]);
    }
  }

  /** The visible text does not depend on the ancestors recorded with it. */
  lemma LeafTextAnywhere(ns: seq<Node>, a: seq<Node>, b: seq<Node>)
    ensures LeafText(Leaves(ns, a)) == LeafText(Leaves(ns, b))
  {
    LeafDataAnywhere(ns, a, b);
    LeafTextByData(Leaves(ns, a), Leaves(ns, b));
  }
}
