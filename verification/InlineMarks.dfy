/**
  Inline content against the tags and attributes of the tree: what each reachable leaf
  becomes, and which of its ancestors each mark stems from.
 */
module InlineMarks {
  import opened HtmlText
  import opened HtmlTree
  import opened InlineContent
  import opened InlineText

  /** The elements that mark the text inside them. */
  predicate IsMarker(n: Node) {
    n.Element? && n.tag in {"strong", "b", "em", "i", "u", "s", "strike", "del", "code", "a"}
  }

  /** The markers among the ancestors, outermost first. */
  function Markers(ancestors: seq<Node>): seq<Node> {
    if ancestors == [] then []
    else
      var last := ancestors[|ancestors| - 1];
      Markers(ancestors[..|ancestors| - 1]) + if IsMarker(last) then [last] else []
  }

  /** `mark` is the mark of the element `n`. */
  predicate StemsFrom(mark: Mark, n: Node) {
    && n.Element?
    && match mark
       case Bold => n.tag == "strong" || n.tag == "b"
       case Italic => n.tag == "em" || n.tag == "i"
       case Underline => n.tag == "u"
       case Strike => n.tag == "s" || n.tag == "strike" || n.tag == "del"
       case Code => n.tag == "code"
       case Link(href, target) =>
         && n.tag == "a" && AttrIs(n.attrs, "href", href)
         && if target.Some? then target.value != "" && AttrIs(n.attrs, "target", target.value)
            else AttrIs(n.attrs, "target", "")
  }

  /** The `k`-th mark stems from the `k`-th marker among the ancestors. */
  predicate MarkedBy(marks: seq<Mark>, ancestors: seq<Node>) {
    && |marks| == |Markers(ancestors)|
    && forall k :: 0 <= k < |marks| ==> StemsFrom(marks[k], Markers(ancestors)[k])
  }

  /** An element adds its mark if it is a marker, and nothing otherwise. */
  lemma MarkOfElement(n: Node)
    requires n.Element?
    ensures MarkFor(n.tag, n.attrs).Some? <==> IsMarker(n)
    ensures IsMarker(n) ==> StemsFrom(MarkFor(n.tag, n.attrs).value, n)
  {
    GetAttrExact(n.attrs, "href", GetAttr(n.attrs, "href"));
    GetAttrExact(n.attrs, "target", GetAttr(n.attrs, "target"));
  }

  lemma {:induction false} MarksStemFromAncestors(ancestors: seq<Node>)
    ensures MarkedBy(MarksOf(ancestors), ancestors)
  {
    if ancestors != [] {
      var init, last := ancestors[..|ancestors| - 1], ancestors[|ancestors| - 1];
      MarksStemFromAncestors(init);
      if last.Element? {
        MarkOfElement(last);
      }
    }
  }

  lemma {:induction false} MarkersMembers(ancestors: seq<Node>, n: Node)
    ensures n in Markers(ancestors) <==> n in ancestors && IsMarker(n)
  {
    if ancestors != [] {
      var init, last := ancestors[..|ancestors| - 1], ancestors[|ancestors| - 1];
      MarkersMembers(init, n);
      assert ancestors == init + [last];
    }
  }

  /** A marker has just one mark. */
  lemma OneMark(a: Mark, b: Mark, n: Node)
    requires StemsFrom(a, n) && StemsFrom(b, n)
    ensures a == b
  {
    if a.Link? && b.Link? {
      GetAttrExact(n.attrs, "href", a.href);
      GetAttrExact(n.attrs, "href", b.href);
      GetAttrExact(n.attrs, "target", if a.target.Some? then a.target.value else "");
      GetAttrExact(n.attrs, "target", if b.target.Some? then b.target.value else "");
    }
  }

  /** A text has a mark exactly if it stems from one of its ancestors. */
  lemma MarkedExactly(marks: seq<Mark>, ancestors: seq<Node>, mark: Mark)
    requires MarkedBy(marks, ancestors)
    ensures mark in marks <==> exists n :: n in ancestors && StemsFrom(mark, n)
  {
    var markers := Markers(ancestors);
    if mark in marks {
      var k :| 0 <= k < |marks| && marks[k] == mark;
      MarkersMembers(ancestors, markers[k]);
    }
    if n :| n in ancestors && StemsFrom(mark, n) {
      MarkersMembers(ancestors, n);
      var k :| 0 <= k < |markers| && markers[k] == n;
      OneMark(marks[k], mark, n);
    }
  }

  // ----- Whole contents -----

  predicate Depicts(inline: Inline, leaf: Leaf) {
    match leaf
    case Leaf(data, ancestors) => inline.TextNode? && inline.text == data && MarkedBy(inline.marks, ancestors)
    case BreakLeaf => inline == HardBreak
    case ImageLeaf(src) => inline == ImageInline(src)
  }

  predicate DepictsAll(content: seq<Inline>, leaves: seq<Leaf>) {
    |content| == |leaves| && forall k :: 0 <= k < |content| ==> Depicts(content[k], leaves[k])
  }

  /** The content of a block: its leaves but for the blank texts in front, or one empty text. */
  ghost predicate ContentDepicts(content: seq<Inline>, n: Node) {
    exists skip: nat :: SkipsFront(Leaves(n.Kids(), []), skip, false)
                   && if skip == |Leaves(n.Kids(), [])| then content == [TextNode("", [])]
                      else DepictsAll(content, Leaves(n.Kids(), [])[skip..])
  }

  lemma {:induction false} LeafNodesDepict(leaves: seq<Leaf>)
    ensures DepictsAll(LeafNodes(leaves), leaves)
  {
    if leaves != [] {
      LeafNodesDepict(leaves[1..]);
      if leaves[0].Leaf? {
        MarksStemFromAncestors(leaves[0].ancestors);
      }
    }
  }

  /** Every inline content depicts the leaves below its element, marks included. */
  lemma ContentExact(n: Node)
    ensures ContentDepicts(InlineContentOf(n), n)
  {
    var leaves := Leaves(n.Kids(), []);
    var skip := InlineFollowsLeaves(n.Kids(), false, []);
    LeafNodesDepict(leaves[skip..]);
    LeafNodesEmpty(leaves[skip..]);
  }
}
