/**
  Inline content: `collectInlineContent` and `collectTextFromNode`, with the mark
  slices of `appendMark` and the mark maps of `copyMark` on the heap.
 */
module InlineContent {
  import opened Options
  import opened HtmlText
  import opened HtmlTree

  // ----- What the converter produces, as values -----

  datatype Mark =
    | Bold
    | Italic
    | Underline
    | Strike
    | Code
    | Link(href: string, target: Option<string>)

  datatype Inline =
    | TextNode(text: string, marks: seq<Mark>)
    | HardBreak
    | ImageInline(src: string)

  /** The mark an inline element adds, if it adds one. */
  function MarkFor(tag: string, attrs: seq<Attr>): Option<Mark> {
    if tag in {"strong", "b"} then Some(Bold)
    else if tag in {"em", "i"} then Some(Italic)
    else if tag == "u" then Some(Underline)
    else if tag in {"s", "strike", "del"} then Some(Strike)
    else if tag == "code" then Some(Code)
    else if tag == "a" then
      var target := GetAttr(attrs, "target");
      Some(Link(GetAttr(attrs, "href"), if target != "" then Some(target) else None))
    else None
  }

  /** The marks in force inside `n` when `marks` are in force around it. */
  function MarksWithin(n: Node, marks: seq<Mark>): seq<Mark> {
    if n.Element? && MarkFor(n.tag, n.attrs).Some? then marks + [MarkFor(n.tag, n.attrs).value] else marks
  }

  /** Whether the walk goes on into the children of `n`. */
  predicate Descends(n: Node) {
    n.Element? && n.tag != "br" && n.tag != "img"
  }

  /** What the siblings `ns` append; `started` says whether anything has been appended before. */
  function InlineOf(ns: seq<Node>, started: bool, marks: seq<Mark>): seq<Inline>
    decreases ns, 0
  {
    if ns == [] then []
    else
      var head := InlineOfNode(ns[0], started, marks);
      head + InlineOf(ns[1..], started || head != [], marks)
  }

  function InlineOfNode(n: Node, started: bool, marks: seq<Mark>): seq<Inline>
    decreases n, 1
  {
    match n
    case Text(d) => if !started && TrimSpace(d) == "" then [] else [TextNode(d, marks)]
    case Other(_) => []
    case Element(tag, attrs, children) =>
      if Descends(n) then InlineOf(children, started, MarksWithin(n, marks))
      else if tag == "br" then [HardBreak]
      else if GetAttr(attrs, "src") != "" then [ImageInline(GetAttr(attrs, "src"))]
      else []
  }

  function InlineContentOf(n: Node): seq<Inline> {
    var content := InlineOf(n.Kids(), false, []);
    if content == [] then [TextNode("", [])] else content
  }

  // ----- The same on the heap -----

  /** A mark as the source holds it: a map that could be written to. */
  class MarkMap {
    var value: Mark

    constructor (value: Mark)
      ensures this.value == value
    {
      this.value := value;
    }
  }

  /** An inline node as the source holds it: its marks are a slice of maps, or nil. */
  datatype Item =
    | TextItem(text: string, marks: array?<MarkMap>)
    | HardBreakItem
    | ImageItem(src: string)

  /** The slice `*content` that the walk appends to. */
  class Content {
    var items: seq<Item>

    constructor ()
      ensures items == []
    {
      items := [];
    }
  }

  /** The heap cells of a slice of marks: the slice itself and its maps. */
  ghost function Cells(slice: array?<MarkMap>): set<object>
    reads if slice == null then {} else {slice as object}
  {
    if slice == null then {} else {slice as object} + set i | 0 <= i < slice.Length :: slice[i] as object
  }

  ghost function ItemCells(item: Item): set<object>
    reads if item.TextItem? && item.marks != null then {item.marks as object} else {}
  {
    if item.TextItem? then Cells(item.marks) else {}
  }

  /** The slice holds exactly `marks`; a nil slice holds none. */
  ghost predicate SliceHolds(slice: array?<MarkMap>, marks: seq<Mark>)
    reads Cells(slice)
  {
    if slice == null then marks == []
    else |marks| == slice.Length && forall i :: 0 <= i < |marks| ==> slice[i].value == marks[i]
  }

  ghost predicate Shows(item: Item, inline: Inline)
    reads ItemCells(item)
  {
    match item
    case TextItem(text, marks) =>
      && inline.TextNode? && inline.text == text
      && SliceHolds(marks, inline.marks) && (inline.marks == [] ==> marks == null)
    case HardBreakItem => inline == HardBreak
    case ImageItem(src) => inline == ImageInline(src)
  }

  method AppendMark(marks: array?<MarkMap>, mark: MarkMap) returns (out: array<MarkMap>)
    ensures fresh(out)
    ensures out[..] == (if marks == null then [] else marks[..]) + [mark]
  {
    var n := if marks == null then 0 else marks.Length;
    out := new MarkMap[n + 1](_ => mark);
    for i := 0 to n
      invariant marks != null ==> out[..i] == marks[..i] && forall k :: 0 <= k < n ==> marks[k] == old(marks[k])
      invariant out[n] == mark
    {
      out[i] := marks[i];
    }
  }

  method CopyMark(m: MarkMap) returns (out: MarkMap)
    ensures fresh(out) && out.value == m.value
  {
    out := new MarkMap(m.value);
  }

  /** The deep copy made for one text node: a fresh slice of fresh maps with the same values. */
  method CopyMarks(marks: array<MarkMap>) returns (out: array<MarkMap>)
    ensures fresh(out) && out.Length == marks.Length
    ensures forall i :: 0 <= i < out.Length ==> fresh(out[i]) && out[i].value == marks[i].value
  {
    var filler := new MarkMap(Bold);
    out := new MarkMap[marks.Length](_ => filler);
    for i := 0 to marks.Length
      invariant forall k :: 0 <= k < marks.Length ==> fresh(out[k])
      invariant forall k :: 0 <= k < i ==> out[k].value == marks[k].value
    {
      out[i] := CopyMark(marks[i]);
    }
  }

  /**
    `items` displays `shown`, every cell of its marks lies in `footprint`, and no two
    items share a cell: a write to one item's marks is seen by that item only.
   */
  ghost predicate Displays(items: seq<Item>, shown: seq<Inline>, footprint: set<object>)
    reads footprint
  {
    && |items| == |shown|
    && (forall i :: 0 <= i < |items| ==>
          && (items[i].TextItem? && items[i].marks != null ==> items[i].marks in footprint)
          && ItemCells(items[i]) <= footprint
          && Shows(items[i], shown[i]))
    && forall i, j :: 0 <= i < j < |items| ==> ItemCells(items[i]) !! ItemCells(items[j])
  }

  /** One more item, whose mark cells are not yet in the footprint. */
  lemma DisplaysSnoc(items: seq<Item>, shown: seq<Inline>, footprint: set<object>, item: Item, inline: Inline)
    requires Displays(items, shown, footprint) && Shows(item, inline) && ItemCells(item) !! footprint
    ensures Displays(items + [item], shown + [inline], footprint + ItemCells(item))
  {
    var items', shown' := items + [item], shown + [inline];
    assert forall i :: 0 <= i < |items| ==> items'[i] == items[i] && shown'[i] == shown[i];
    assert forall i :: 0 <= i < |items| ==> ItemCells(items[i]) <= footprint;
  }

  /** Appends a text node carrying its own deep copy of the marks in force. */
  method AppendText(content: Content, text: string, marks: array?<MarkMap>,
                    ghost shown: seq<Inline>, ghost markValues: seq<Mark>, ghost footprint: set<object>)
    returns (ghost footprint': set<object>)
    requires Displays(content.items, shown, footprint) && content !in footprint
    requires SliceHolds(marks, markValues)
    modifies content
    ensures Displays(content.items, shown + [TextNode(text, markValues)], footprint') && content !in footprint'
    ensures footprint <= footprint' && fresh(footprint' - footprint)
  {
    var slice: array?<MarkMap> := null;
    if marks != null && marks.Length > 0 {
      slice := CopyMarks(marks);
    }
    footprint' := footprint + Cells(slice);
    DisplaysSnoc(content.items, shown, footprint, TextItem(text, slice), TextNode(text, markValues));
    content.items := content.items + [TextItem(text, slice)];
  }

  /** One step of the walk over the siblings `ns`, at sibling `k`. */
  lemma InlineOfFrom(ns: seq<Node>, k: nat, shown: seq<Inline>, marks: seq<Mark>)
    requires k < |ns|
    ensures var next := shown + InlineOfNode(ns[k], shown != [], marks);
            shown + InlineOf(ns[k..], shown != [], marks) == next + InlineOf(ns[k + 1..], next != [], marks)
  {
    assert ns[k..][1..] == ns[k + 1..];
  }

  /** Appends a hard break or an inline image, which carry no marks. */
  method AppendItem(content: Content, item: Item, ghost inline: Inline,
                    ghost shown: seq<Inline>, ghost footprint: set<object>)
    requires Displays(content.items, shown, footprint) && content !in footprint
    requires !item.TextItem? && Shows(item, inline)
    modifies content
    ensures Displays(content.items, shown + [inline], footprint)
  {
    DisplaysSnoc(content.items, shown, footprint, item, inline);
    assert footprint + ItemCells(item) == footprint;
    content.items := content.items + [item];
  }

  /**
    The walk over the children of `n`: it appends exactly what `InlineOf` says, and
    every mark cell it adds is freshly allocated, so nothing that is appended shares a
    slice or a map with `marks` or with an item that was there before.
   */
  method CollectTextFromNode(n: Node, content: Content, marks: array?<MarkMap>,
                             ghost shown: seq<Inline>, ghost markValues: seq<Mark>, ghost footprint: set<object>)
    returns (ghost shown': seq<Inline>, ghost footprint': set<object>)
    requires Displays(content.items, shown, footprint) && content !in footprint
    requires SliceHolds(marks, markValues) && content !in Cells(marks)
    modifies content
    ensures shown' == shown + InlineOf(n.Kids(), shown != [], markValues)
    ensures Displays(content.items, shown', footprint') && content !in footprint'
    ensures footprint <= footprint' && fresh(footprint' - footprint)
    decreases n, 0
  {
    shown', footprint' := shown, footprint;
    var kids := n.Kids();
    for k := 0 to |kids|
      invariant shown' + InlineOf(kids[k..], shown' != [], markValues)
             == shown + InlineOf(kids, shown != [], markValues)
      invariant Displays(content.items, shown', footprint') && content !in footprint'
      invariant footprint <= footprint' && fresh(footprint' - footprint)
      invariant SliceHolds(marks, markValues)
    {
      InlineOfFrom(kids, k, shown', markValues);
      shown', footprint' := CollectChild(kids[k], content, marks, shown', markValues, footprint');
    }
  }

  /** One iteration of the walk: the switch on the kind and the name of the child. */
  method CollectChild(c: Node, content: Content, marks: array?<MarkMap>,
                      ghost shown: seq<Inline>, ghost markValues: seq<Mark>, ghost footprint: set<object>)
    returns (ghost shown': seq<Inline>, ghost footprint': set<object>)
    requires Displays(content.items, shown, footprint) && content !in footprint
    requires SliceHolds(marks, markValues) && content !in Cells(marks)
    modifies content
    ensures shown' == shown + InlineOfNode(c, shown != [], markValues)
    ensures Displays(content.items, shown', footprint') && content !in footprint'
    ensures footprint <= footprint' && fresh(footprint' - footprint)
    decreases c, 1
  {
    shown', footprint' := shown, footprint;
    match c
    case Text(text) =>
      if |content.items| == 0 && TrimSpace(text) == "" {
        return;
      }
      footprint' := AppendText(content, text, marks, shown, markValues, footprint);
      shown' := shown + [TextNode(text, markValues)];
    case Element(tag, attrs, _) =>
      if tag == "br" {
        AppendItem(content, HardBreakItem, HardBreak, shown, footprint);
        shown' := shown + [HardBreak];
      } else if tag == "img" {
        var src := GetAttr(attrs, "src");
        if src != "" {
          AppendItem(content, ImageItem(src), ImageInline(src), shown, footprint);
          shown' := shown + [ImageInline(src)];
        }
      } else {
        var mark := MarkFor(tag, attrs);
        if mark.Some? {
          var added := new MarkMap(mark.value);
          var newMarks := AppendMark(marks, added);
          assert SliceHolds(newMarks, markValues + [mark.value]);
          shown', footprint' := CollectTextFromNode(c, content, newMarks, shown, markValues + [mark.value], footprint);
        } else {
          shown', footprint' := CollectTextFromNode(c, content, marks, shown, markValues, footprint);
        }
      }
    case Other(_) =>
  }

  /** `collectInlineContent`: never empty, and the caller is the only holder of its mark cells. */
  method CollectInlineContent(n: Node) returns (items: seq<Item>, ghost footprint: set<object>)
    ensures Displays(items, InlineContentOf(n), footprint) && fresh(footprint)
    ensures items != []
  {
    hide InlineOf, Shows;
    var content := new Content();
    ghost var shown: seq<Inline>;
    shown, footprint := CollectTextFromNode(n, content, null, [], [], {});
    assert shown == InlineOf(n.Kids(), false, []);
    if |content.items| == 0 {
      footprint := AppendText(content, "", null, [], [], {});
    }
    items := content.items;
  }

  /** Reads the items off the heap, as the JSON marshaller does. */
  method ReadItems(items: seq<Item>, ghost shown: seq<Inline>, ghost footprint: set<object>)
    returns (values: seq<Inline>)
    requires Displays(items, shown, footprint)
    ensures values == shown
  {
    values := [];
    for i := 0 to |items|
      invariant values == shown[..i]
    {
      assert Shows(items[i], shown[i]);
      match items[i]
      case TextItem(text, slice) =>
        var marks: seq<Mark> := [];
        if slice != null {
          for k := 0 to slice.Length
            invariant |marks| == k && forall m :: 0 <= m < k ==> marks[m] == slice[m].value
          {
            marks := marks + [slice[k].value];
          }
        }
        assert marks == shown[i].marks;
        values := values + [TextNode(text, marks)];
      case HardBreakItem => values := values + [HardBreak];
      case ImageItem(src) => values := values + [ImageInline(src)];
    }
  }
}
