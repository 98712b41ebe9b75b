/**
  Which block each element of a fragment becomes: the blocks of a converted fragment,
  line by line, against a listing of the input by the names of its elements.
 */
module BlockOutline {
  import opened Options
  import opened HtmlText
  import opened HtmlTree
  import opened InlineContent
  import opened InlineMarks
  import opened BlockConverter

  // ----- The output, line by line -----

  /** A block and how deep it lies. */
  datatype Line = Line(depth: nat, block: Block)

  /** The blocks in pre-order. */
  function Lines(bs: seq<Block>, depth: nat): seq<Line>
    decreases bs, 0
  {
    if bs == [] then [] else LinesOfBlock(bs[0], depth) + Lines(bs[1..], depth)
  }

  function LinesOfBlock(b: Block, depth: nat): seq<Line>
    decreases b, 1
  {
    [Line(depth, b)] +
    match b
    case BulletList(items) => Lines(items, depth + 1)
    case OrderedList(_, items) => Lines(items, depth + 1)
    case ListItem(body) => Lines(body, depth + 1)
    case Blockquote(body) => Lines(body, depth + 1)
    case _ => []
  }

  // ----- The input, element by element -----

  /** Why a node has a block: on its own, or as part of a list. */
  datatype Role = OwnBlock | AsItem | AsItemText | AsNestedList

  datatype Source = Source(depth: nat, role: Role, node: Node)

  predicate IsHeading(tag: string) {
    tag == "h1" || tag == "h2" || tag == "h3" || tag == "h4" || tag == "h5" || tag == "h6"
  }

  /** Elements whose block has no blocks inside it. */
  predicate IsPlain(tag: string) {
    || tag == "p" || tag == "div" || IsHeading(tag)
    || tag == "img" || tag == "pre" || tag == "br" || tag == "hr"
  }

  /** The nodes below `ns` that have a block, in document order. */
  function Sources(ns: seq<Node>, depth: nat): seq<Source>
    decreases ns, 0
  {
    if ns == [] then [] else SourcesOfNode(ns[0], depth) + Sources(ns[1..], depth)
  }

  function SourcesOfNode(n: Node, depth: nat): seq<Source>
    decreases n, 1
  {
    match n
    case Text(data) => if IsBlank(data) then [] else [Source(depth, OwnBlock, n)]
    case Other(children) => Sources(children, depth)
    case Element(tag, _, children) =>
      if IsPlain(tag) then [Source(depth, OwnBlock, n)]
      else if tag == "ul" || tag == "ol" then [Source(depth, OwnBlock, n)] + ItemSources(children, depth + 1)
      else if tag == "blockquote" then
        if QuoteSources(children, depth + 1) == [] then []
        else [Source(depth, OwnBlock, n)] + QuoteSources(children, depth + 1)
      else Sources(children, depth)
  }

  /** In a blockquote: paragraphs and texts that are not blank. */
  function QuoteSources(ns: seq<Node>, depth: nat): seq<Source> {
    if ns == [] then [] else QuoteChildSources(ns[0], depth) + QuoteSources(ns[1..], depth)
  }

  function QuoteChildSources(n: Node, depth: nat): seq<Source> {
    if (n.Element? && n.tag == "p") || (n.Text? && !IsBlank(n.data)) then [Source(depth, OwnBlock, n)] else []
  }

  /** In a list: every `li`, its text, and the lists directly inside it. */
  function ItemSources(ns: seq<Node>, depth: nat): seq<Source>
    decreases ns, 0
  {
    if ns == [] then [] else ListChildSources(ns[0], depth) + ItemSources(ns[1..], depth)
  }

  function ListChildSources(n: Node, depth: nat): seq<Source>
    decreases n, 1
  {
    if n.Element? && n.tag == "li"
    then [Source(depth, AsItem, n)] + ([Source(depth + 1, AsItemText, n)] + NestedSources(n.children, depth + 1))
    else []
  }

  function NestedSources(ns: seq<Node>, depth: nat): seq<Source>
    decreases ns, 0
  {
    if ns == [] then [] else ItemChildSources(ns[0], depth) + NestedSources(ns[1..], depth)
  }

  function ItemChildSources(n: Node, depth: nat): seq<Source>
    decreases n, 1
  {
    if n.Element? && (n.tag == "ul" || n.tag == "ol")
    then [Source(depth, AsNestedList, n)] + ItemSources(n.children, depth + 1)
    else []
  }

  // ----- Which block it is -----

  /** `text` is `data` without the blanks at its ends. */
  predicate IsTrimmed(text: string, data: string) {
    && text != "" && !IsSpace(text[0]) && !IsSpace(text[|text| - 1])
    && exists i :: 0 <= i <= |data| - |text| && data[i..i + |text|] == text
                   && IsBlank(data[..i]) && IsBlank(data[i + |text|..])
  }

  /** The block of a text node: one unmarked text, trimmed. */
  predicate IsTextBlock(b: Block, data: string) {
    && b.Paragraph? && |b.content| == 1 && b.content[0].TextNode?
    && b.content[0].marks == [] && IsTrimmed(b.content[0].text, data)
  }

  ghost predicate IsBlockOf(b: Block, n: Node) {
    match n
    case Text(data) => IsTextBlock(b, data)
    case Other(_) => false
    case Element(tag, attrs, children) =>
      if tag == "p" || tag == "div" then b.Paragraph? && ContentDepicts(b.content, n)
      else if IsHeading(tag) then
        b.Heading? && 1 <= b.level <= 6 && tag[1] == "0123456"[b.level] && ContentDepicts(b.content, n)
      else if tag == "img" then
        && b.ImageBlock? && AttrIs(attrs, "src", b.src)
        && if b.alt.Some? then b.alt.value != "" && AttrIs(attrs, "alt", b.alt.value) else AttrIs(attrs, "alt", "")
      else if tag == "ul" then b.BulletList?
      else if tag == "ol" then b.OrderedList? && b.emptyAttrs
      else if tag == "blockquote" then b.Blockquote?
      else if tag == "pre" then b.CodeBlock? && b.text == ExtractText(n)
      else (tag == "br" || tag == "hr") && b == Paragraph([])
  }

  ghost predicate Renders(b: Block, s: Source) {
    match s.role
    case OwnBlock => IsBlockOf(b, s.node)
    case AsItem => b.ListItem?
    case AsItemText => b.Paragraph? && ContentDepicts(b.content, s.node)
    case AsNestedList =>
      && s.node.Element?
      && if s.node.tag == "ol" then b.OrderedList? && !b.emptyAttrs else b.BulletList?
  }

  ghost predicate RendersAll(lines: seq<Line>, sources: seq<Source>) {
    && |lines| == |sources|
    && forall i :: 0 <= i < |lines| ==> lines[i].depth == sources[i].depth && Renders(lines[i].block, sources[i])
  }

  // ----- Lists of lines -----

  lemma RendersConcat(a: seq<Line>, b: seq<Line>, x: seq<Source>, y: seq<Source>)
    requires RendersAll(a, x) && RendersAll(b, y)
    ensures RendersAll(a + b, x + y)
  {
    hide Renders;
  }

  lemma RendersOne(b: Block, s: Source)
    requires Renders(b, s)
    ensures RendersAll([Line(s.depth, b)], [s])
  {
  }

  lemma LineAssoc<T>(a: seq<T>, b: seq<T>, c: seq<T>)
    ensures (a + b) + c == a + (b + c)
  {
  }

  lemma {:induction false} LinesConcat(a: seq<Block>, b: seq<Block>, depth: nat)
    ensures Lines(a + b, depth) == Lines(a, depth) + Lines(b, depth)
  {
    if a == [] {
      assert a + b == b;
    } else {
      LinesConcat(a[1..], b, depth);
      assert (a + b)[1..] == a[1..] + b && (a + b)[0] == a[0];
      LineAssoc(LinesOfBlock(a[0], depth), Lines(a[1..], depth), Lines(b, depth));
    }
  }

  lemma LinesOfOne(b: Block, depth: nat)
    ensures Lines([b], depth) == LinesOfBlock(b, depth)
  {
    assert [b][1..] == [];
  }

  /** Two runs of blocks one after the other. */
  lemma RendersBoth(a: seq<Block>, b: seq<Block>, depth: nat, x: seq<Source>, y: seq<Source>)
    requires RendersAll(Lines(a, depth), x) && RendersAll(Lines(b, depth), y)
    ensures RendersAll(Lines(a + b, depth), x + y)
  {
    LinesConcat(a, b, depth);
    RendersConcat(Lines(a, depth), Lines(b, depth), x, y);
  }

  /** A block with nothing inside it. */
  lemma RendersLeaf(b: Block, s: Source)
    requires Renders(b, s) && (b.Paragraph? || b.Heading? || b.ImageBlock? || b.CodeBlock?)
    ensures RendersAll(Lines([b], s.depth), [s])
  {
    LinesOfOne(b, s.depth);
    RendersOne(b, s);
    assert [Line(s.depth, b)] + [] == [Line(s.depth, b)];
  }

  /** A block with blocks inside it. */
  lemma RendersAround(b: Block, s: Source, body: seq<Block>, x: seq<Source>)
    requires Renders(b, s) && RendersAll(Lines(body, s.depth + 1), x)
    requires b == BulletList(body) || b == OrderedList(true, body) || b == OrderedList(false, body)
             || b == ListItem(body) || b == Blockquote(body)
    ensures RendersAll(Lines([b], s.depth), [s] + x)
  {
    LinesOfOne(b, s.depth);
    RendersOne(b, s);
    RendersConcat([Line(s.depth, b)], Lines(body, s.depth + 1), [s], x);
  }

  // ----- The theorem -----

  lemma TrimmedExactly(data: string)
    ensures TrimSpace(data) == "" <==> IsBlank(data)
    ensures TrimSpace(data) != "" ==> IsTrimmed(TrimSpace(data), data)
  {
    TrimSpaceKeepsInk(data);
    if TrimSpace(data) != "" {
      var i := TrimSpaceCuts(data);
    }
  }

  lemma TextOutline(data: string, depth: nat)
    ensures var n := Text(data);
            RendersAll(Lines(TextBlocks(data), depth), if IsBlank(data) then [] else [Source(depth, OwnBlock, n)])
  {
    TrimmedExactly(data);
    if !IsBlank(data) {
      RendersLeaf(PlainParagraph(TrimSpace(data)), Source(depth, OwnBlock, Text(data)));
    }
  }

  lemma ContentBlock(n: Node)
    requires n.Element? && KindOf(n.tag) in {ParagraphTag, HeadingTag}
    ensures |BlocksOf(n)| == 1 && IsBlockOf(BlocksOf(n)[0], n)
  {
    ContentExact(n);
    hide ContentDepicts, InlineContentOf;
  }

  lemma OtherPlainBlock(n: Node)
    requires n.Element? && KindOf(n.tag) in {ImageTag, PreTag, BreakTag}
    ensures |BlocksOf(n)| == 1 && IsBlockOf(BlocksOf(n)[0], n)
  {
    GetAttrExact(n.attrs, "src", GetAttr(n.attrs, "src"));
    GetAttrExact(n.attrs, "alt", GetAttr(n.attrs, "alt"));
    hide AttrIs;
  }

  lemma PlainOutline(n: Node, depth: nat)
    requires n.Element? && IsPlain(n.tag)
    ensures RendersAll(Lines(BlocksOf(n), depth), [Source(depth, OwnBlock, n)])
  {
    if KindOf(n.tag) in {ParagraphTag, HeadingTag} {
      ContentBlock(n);
    } else {
      OtherPlainBlock(n);
    }
    PlainBlockIsLeaf(n);
    hide IsBlockOf, BlocksOf;
    RendersLeaf(BlocksOf(n)[0], Source(depth, OwnBlock, n));
    assert BlocksOf(n) == [BlocksOf(n)[0]];
  }

  lemma PlainBlockIsLeaf(n: Node)
    requires n.Element? && IsPlain(n.tag)
    ensures |BlocksOf(n)| == 1
    ensures var b := BlocksOf(n)[0]; b.Paragraph? || b.Heading? || b.ImageBlock? || b.CodeBlock?
  {
  }

  lemma LinesEmpty(bs: seq<Block>, depth: nat)
    ensures Lines(bs, depth) == [] <==> bs == []
  {
  }

  /** For every fragment: each block is the one its source calls for, with nothing missing, added or moved. */
  lemma {:induction false} OutlineExact(ns: seq<Node>, depth: nat)
    ensures RendersAll(Lines(BlocksAll(ns), depth), Sources(ns, depth))
    decreases ns, 0
  {
    if ns != [] {
      NodeOutline(ns[0], depth);
      OutlineExact(ns[1..], depth);
      RendersBoth(BlocksOf(ns[0]), BlocksAll(ns[1..]), depth, SourcesOfNode(ns[0], depth), Sources(ns[1..], depth));
    }
  }

  lemma {:induction false} NodeOutline(n: Node, depth: nat)
    ensures RendersAll(Lines(BlocksOf(n), depth), SourcesOfNode(n, depth))
    decreases n, 1
  {
    hide RendersAll, Lines;
    match n
    case Text(data) => TextOutline(data, depth);
    case Other(children) => OutlineExact(children, depth);
    case Element(tag, _, children) =>
      if IsPlain(tag) {
        PlainOutline(n, depth);
      } else if tag == "ul" || tag == "ol" {
        ListOutline(children, depth + 1);
        RendersAround(BlocksOf(n)[0], Source(depth, OwnBlock, n),
                      ListItemsOf(children), ItemSources(children, depth + 1));
      } else if tag == "blockquote" {
        QuoteNodeOutline(n, depth);
      } else {
        OutlineExact(children, depth);
      }
  }

  lemma QuoteNodeOutline(n: Node, depth: nat)
    requires n.Element? && n.tag == "blockquote"
    ensures RendersAll(Lines(BlocksOf(n), depth), SourcesOfNode(n, depth))
  {
    var body, x := QuoteBody(n.children), QuoteSources(n.children, depth + 1);
    QuoteOutline(n.children, depth + 1);
    LinesEmpty(body, depth + 1);
    assert body == [] <==> x == [];
    if body != [] {
      RendersAround(Blockquote(body), Source(depth, OwnBlock, n), body, x);
    }
  }

  lemma {:induction false} QuoteOutline(ns: seq<Node>, depth: nat)
    ensures RendersAll(Lines(QuoteBody(ns), depth), QuoteSources(ns, depth))
  {
    if ns != [] {
      QuoteChildOutline(ns[0], depth);
      QuoteOutline(ns[1..], depth);
      hide RendersAll, Lines, QuoteChild, QuoteChildSources;
      RendersBoth(QuoteChild(ns[0]), QuoteBody(ns[1..]), depth,
                  QuoteChildSources(ns[0], depth), QuoteSources(ns[1..], depth));
    }
  }

  lemma QuoteChildOutline(n: Node, depth: nat)
    ensures RendersAll(Lines(QuoteChild(n), depth), QuoteChildSources(n, depth))
  {
    if n.Element? && n.tag == "p" {
      PlainOutline(n, depth);
    } else if n.Text? {
      TextOutline(n.data, depth);
    }
  }

  lemma {:induction false} ListOutline(ns: seq<Node>, depth: nat)
    ensures RendersAll(Lines(ListItemsOf(ns), depth), ItemSources(ns, depth))
    decreases ns, 0
  {
    if ns != [] {
      ListChildOutline(ns[0], depth);
      ListOutline(ns[1..], depth);
      hide RendersAll, Lines, ListChild, ListChildSources;
      RendersBoth(ListChild(ns[0]), ListItemsOf(ns[1..]), depth,
                  ListChildSources(ns[0], depth), ItemSources(ns[1..], depth));
    }
  }

  lemma {:induction false} ListChildOutline(n: Node, depth: nat)
    ensures RendersAll(Lines(ListChild(n), depth), ListChildSources(n, depth))
    decreases n, 1
  {
    if n.Element? && n.tag == "li" {
      NestedOutline(n.children, depth + 1);
      ContentExact(n);
      hide RendersAll, Lines, ContentDepicts, InlineContentOf;
      var text := Source(depth + 1, AsItemText, n);
      var first, nested := [Paragraph(InlineContentOf(n))], NestedLists(n.children);
      RendersLeaf(first[0], text);
      RendersBoth(first, nested, depth + 1, [text], NestedSources(n.children, depth + 1));
      RendersAround(ItemOf(n), Source(depth, AsItem, n), first + nested,
                    [text] + NestedSources(n.children, depth + 1));
    }
  }

  lemma {:induction false} NestedOutline(ns: seq<Node>, depth: nat)
    ensures RendersAll(Lines(NestedLists(ns), depth), NestedSources(ns, depth))
    decreases ns, 0
  {
    if ns != [] {
      ItemChildOutline(ns[0], depth);
      NestedOutline(ns[1..], depth);
      hide RendersAll, Lines, ItemChild, ItemChildSources;
      RendersBoth(ItemChild(ns[0]), NestedLists(ns[1..]), depth,
                  ItemChildSources(ns[0], depth), NestedSources(ns[1..], depth));
    }
  }

  lemma {:induction false} ItemChildOutline(n: Node, depth: nat)
    ensures RendersAll(Lines(ItemChild(n), depth), ItemChildSources(n, depth))
    decreases n, 1
  {
    if n.Element? && (n.tag == "ul" || n.tag == "ol") {
      var list := NestedList(n.tag, ListItemsOf(n.children));
      ListOutline(n.children, depth + 1);
      RendersAround(list, Source(depth, AsNestedList, n), ListItemsOf(n.children), ItemSources(n.children, depth + 1));
    }
  }

  // ----- Images -----

  /** The image blocks, in order. */
  function ImagesIn(lines: seq<Line>): seq<Block> {
    if lines == [] then []
    else
      var last := lines[|lines| - 1];
      ImagesIn(lines[..|lines| - 1]) + if last.block.ImageBlock? then [last.block] else []
  }

  /** The `img` elements among the sources, in order. */
  function ImageTags(sources: seq<Source>): seq<Node> {
    if sources == [] then []
    else
      var last := sources[|sources| - 1];
      ImageTags(sources[..|sources| - 1])
      + if last.role == OwnBlock && last.node.Element? && last.node.tag == "img" then [last.node] else []
  }

  lemma {:induction false} ImagesMatch(lines: seq<Line>, sources: seq<Source>)
    requires RendersAll(lines, sources)
    ensures |ImagesIn(lines)| == |ImageTags(sources)|
    ensures forall k :: 0 <= k < |ImagesIn(lines)| ==> IsBlockOf(ImagesIn(lines)[k], ImageTags(sources)[k])
  {
    if lines != [] {
      ImagesMatch(lines[..|lines| - 1], sources[..|sources| - 1]);
      assert Renders(lines[|lines| - 1].block, sources[|sources| - 1]);
    }
  }

  /** The image blocks of a fragment are its reachable `img` elements, once each and in order, with `src` and `alt`. */
  lemma ImagesExact(ns: seq<Node>)
    ensures var images, tags := ImagesIn(Lines(BlocksAll(ns), 0)), ImageTags(Sources(ns, 0));
            && |images| == |tags|
            && forall k :: 0 <= k < |images| ==> IsBlockOf(images[k], tags[k])
  {
    OutlineExact(ns, 0);
    ImagesMatch(Lines(BlocksAll(ns), 0), Sources(ns, 0));
  }
}
