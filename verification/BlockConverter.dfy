/**
  `convertBlock` and `collectListItems`: the block level of the HTML converter, as the
  loops that append to the result slice, and as the functions those loops compute.
 */
module BlockConverter {
  import opened Options
  import opened HtmlText
  import opened HtmlTree
  import opened InlineContent

  datatype Block =
    | Paragraph(content: seq<Inline>)
    | Heading(level: int, content: seq<Inline>)
    | ImageBlock(src: string, alt: Option<string>)
    | BulletList(items: seq<Block>)
    | OrderedList(emptyAttrs: bool, items: seq<Block>)
    | ListItem(body: seq<Block>)
    | Blockquote(body: seq<Block>)
    | CodeBlock(text: string)

  /** The cases of the switch on the element name. */
  datatype Kind =
    | ParagraphTag | HeadingTag | ImageTag | BulletTag | OrderedTag
    | QuoteTag | PreTag | BreakTag | UnknownTag

  function KindOf(tag: string): Kind {
    if tag in {"p", "div"} then ParagraphTag
    else if tag in {"h1", "h2", "h3", "h4", "h5", "h6"} then HeadingTag
    else if tag == "img" then ImageTag
    else if tag == "ul" then BulletTag
    else if tag == "ol" then OrderedTag
    else if tag == "blockquote" then QuoteTag
    else if tag == "pre" then PreTag
    else if tag in {"br", "hr"} then BreakTag
    else UnknownTag
  }

  /** Every heading name has its level as the digit at position 1. */
  function HeadingLevel(tag: string): (level: int)
    requires KindOf(tag) == HeadingTag
    ensures 1 <= level <= 6 && tag == "h" + ["0123456"[level]]
  {
    tag[1] as int - '0' as int
  }

  predicate IsElement(n: Node, tag: string) {
    n.Element? && n.tag == tag
  }

  predicate IsList(n: Node) {
    IsElement(n, "ul") || IsElement(n, "ol")
  }

  function PlainParagraph(text: string): Block {
    Paragraph([TextNode(text, [])])
  }

  function TextBlocks(data: string): seq<Block> {
    if TrimSpace(data) == "" then [] else [PlainParagraph(TrimSpace(data))]
  }

  function BlocksOf(n: Node): seq<Block>
    decreases n, 1
  {
    match n
    case Text(d) => TextBlocks(d)
    case Other(children) => BlocksAll(children)
    case Element(tag, attrs, children) =>
      match KindOf(tag)
      case ParagraphTag => [Paragraph(InlineContentOf(n))]
      case HeadingTag => [Heading(HeadingLevel(tag), InlineContentOf(n))]
      case ImageTag => [ImageBlockOf(attrs)]
      case BulletTag => [BulletList(ListItemsOf(children))]
      case OrderedTag => [OrderedList(true, ListItemsOf(children))]
      case QuoteTag => if QuoteBody(children) == [] then [] else [Blockquote(QuoteBody(children))]
      case PreTag => [CodeBlock(ExtractText(n))]
      case BreakTag => [Paragraph([])]
      case UnknownTag => BlocksAll(children)
  }

  function BlocksAll(ns: seq<Node>): seq<Block>
    decreases ns, 0
  {
    if ns == [] then [] else BlocksOf(ns[0]) + BlocksAll(ns[1..])
  }

  function ImageBlockOf(attrs: seq<Attr>): Block {
    var alt := GetAttr(attrs, "alt");
    ImageBlock(GetAttr(attrs, "src"), if alt != "" then Some(alt) else None)
  }

  function QuoteBody(ns: seq<Node>): seq<Block> {
    if ns == [] then [] else QuoteChild(ns[0]) + QuoteBody(ns[1..])
  }

  function QuoteChild(n: Node): seq<Block> {
    if IsElement(n, "p") then [Paragraph(InlineContentOf(n))]
    else if n.Text? then TextBlocks(n.data)
    else []
  }

  function ListItemsOf(ns: seq<Node>): seq<Block>
    decreases ns, 0
  {
    if ns == [] then [] else ListChild(ns[0]) + ListItemsOf(ns[1..])
  }

  function ListChild(n: Node): seq<Block>
    decreases n, 2
  {
    if IsElement(n, "li") then [ItemOf(n)] else []
  }

  /** A paragraph of everything under the `li`, then its nested lists once more. */
  function ItemOf(c: Node): Block
    requires c.Element?
    decreases c, 1
  {
    ListItem([Paragraph(InlineContentOf(c))] + NestedLists(c.children))
  }

  /** The lists that are direct children of a list item. */
  function NestedLists(ns: seq<Node>): seq<Block>
    decreases ns, 0
  {
    if ns == [] then [] else ItemChild(ns[0]) + NestedLists(ns[1..])
  }

  function ItemChild(n: Node): seq<Block>
    decreases n, 2
  {
    if IsList(n) then [NestedList(n.tag, ListItemsOf(n.children))] else []
  }

  function NestedList(tag: string, items: seq<Block>): Block {
    if tag == "ol" then OrderedList(false, items) else BulletList(items)
  }

  // ----- The loops -----

  /** The slice `*result` that `convertBlock` appends to. */
  class Result {
    var blocks: seq<Block>

    constructor ()
      ensures blocks == []
    {
      blocks := [];
    }

    method Append(b: Block)
      modifies this
      ensures blocks == old(blocks) + [b]
    {
      blocks := blocks + [b];
    }
  }

  /** `collectInlineContent`, with the result read off the heap. */
  method InlineValues(n: Node) returns (values: seq<Inline>)
    ensures values == InlineContentOf(n)
  {
    var items, footprint := CollectInlineContent(n);
    values := ReadItems(items, InlineContentOf(n), footprint);
  }

  method ConvertBlock(n: Node, result: Result)
    modifies result
    ensures result.blocks == old(result.blocks) + BlocksOf(n)
    decreases n, 1
  {
    match n
    case Text(data) =>
      var text := TrimSpace(data);
      if text != "" {
        result.Append(PlainParagraph(text));
      }
    case Other(children) =>
      ConvertAll(children, result);
    case Element(tag, attrs, children) =>
      match KindOf(tag) {
        case ParagraphTag =>
          var content := InlineValues(n);
          result.Append(Paragraph(content));
        case HeadingTag =>
          var content := InlineValues(n);
          result.Append(Heading(HeadingLevel(tag), content));
        case ImageTag =>
          result.Append(ImageBlockOf(attrs));
        case BulletTag =>
          var items := CollectListItems(n);
          result.Append(BulletList(items));
        case OrderedTag =>
          var items := CollectListItems(n);
          result.Append(OrderedList(true, items));
        case QuoteTag =>
          var body := CollectQuote(n);
          if |body| > 0 {
            result.Append(Blockquote(body));
          }
        case PreTag =>
          var text := ExtractTextOf(n);
          result.Append(CodeBlock(text));
        case BreakTag =>
          result.Append(Paragraph([]));
        case UnknownTag =>
          ConvertAll(children, result);
      }
  }

  /** The loop over a sibling list, at the top of a document and below unknown elements. */
  method ConvertAll(ns: seq<Node>, result: Result)
    modifies result
    ensures result.blocks == old(result.blocks) + BlocksAll(ns)
    decreases ns, 0
  {
    for i := 0 to |ns|
      invariant result.blocks + BlocksAll(ns[i..]) == old(result.blocks) + BlocksAll(ns)
    {
      assert ns[i..][1..] == ns[i + 1..];
      ConvertBlock(ns[i], result);
    }
  }

  lemma QuoteBodyFrom(ns: seq<Node>, i: nat, body: seq<Block>)
    requires i < |ns|
    ensures body + QuoteBody(ns[i..]) == (body + QuoteChild(ns[i])) + QuoteBody(ns[i + 1..])
  {
    assert ns[i..][1..] == ns[i + 1..];
  }

  method CollectQuote(n: Node) returns (body: seq<Block>)
    requires n.Element?
    ensures body == QuoteBody(n.children)
  {
    hide QuoteChild;
    body := [];
    for i := 0 to |n.children|
      invariant body + QuoteBody(n.children[i..]) == QuoteBody(n.children)
    {
      QuoteBodyFrom(n.children, i, body);
      body := AppendQuoteChild(body, n.children[i]);
    }
  }

  method AppendQuoteChild(body: seq<Block>, c: Node) returns (body': seq<Block>)
    ensures body' == body + QuoteChild(c)
  {
    body' := body;
    if IsElement(c, "p") {
      var content := InlineValues(c);
      body' := body + [Paragraph(content)];
    } else if c.Text? {
      var text := TrimSpace(c.data);
      if text != "" {
        body' := body + [PlainParagraph(text)];
      }
    }
  }

  method CollectListItems(n: Node) returns (items: seq<Block>)
    requires n.Element?
    ensures items == ListItemsOf(n.children)
    decreases n, 0
  {
    hide ListChild;
    items := [];
    for i := 0 to |n.children|
      invariant items + ListItemsOf(n.children[i..]) == ListItemsOf(n.children)
    {
      var c := n.children[i];
      ListItemsFrom(n.children, i, items);
      if !IsElement(c, "li") {
        continue;
      }
      var item := CollectItem(c);
      items := items + [item];
    }
  }

  lemma ListItemsFrom(ns: seq<Node>, i: nat, items: seq<Block>)
    requires i < |ns|
    ensures items + ListItemsOf(ns[i..])
         == (if IsElement(ns[i], "li") then items + [ItemOf(ns[i])] else items) + ListItemsOf(ns[i + 1..])
  {
    assert ns[i..][1..] == ns[i + 1..];
  }

  method CollectItem(c: Node) returns (item: Block)
    requires c.Element?
    ensures item == ItemOf(c)
    decreases c, 1
  {
    var content := InlineValues(c);
    var body := [Paragraph(content)];
    for j := 0 to |c.children|
      invariant body + NestedLists(c.children[j..]) == [Paragraph(InlineContentOf(c))] + NestedLists(c.children)
    {
      var sub := c.children[j];
      assert c.children[j..][1..] == c.children[j + 1..];
      if IsList(sub) {
        var nested := CollectListItems(sub);
        body := body + [NestedList(sub.tag, nested)];
      }
    }
    item := ListItem(body);
  }

  /** The loop of `htmlToTipTapJSON` over the parsed fragment. */
  method ConvertFragment(nodes: seq<Node>) returns (blocks: seq<Block>)
    ensures blocks == BlocksAll(nodes)
  {
    var result := new Result();
    ConvertAll(nodes, result);
    blocks := result.blocks;
  }
}
