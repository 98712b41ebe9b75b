/**
  Nothing lost, repeated or reordered: an account of the text of a converted tree that
  holds for every tree, and the exact conditions under which conversion keeps the text.
 */
module BlockText {
  import opened HtmlText
  import opened HtmlTree
  import opened InlineContent
  import opened InlineText
  import opened BlockConverter

  /** All text of a block, in output order. */
  function TextOfBlock(b: Block): string
    decreases b, 1
  {
    match b
    case Paragraph(content) => TextOf(content)
    case Heading(_, content) => TextOf(content)
    case ImageBlock(_, _) => ""
    case BulletList(items) => TextOfBlocks(items)
    case OrderedList(_, items) => TextOfBlocks(items)
    case ListItem(body) => TextOfBlocks(body)
    case Blockquote(body) => TextOfBlocks(body)
    case CodeBlock(text) => text
  }

  function TextOfBlocks(bs: seq<Block>): string
    decreases bs, 0
  {
    if bs == [] then "" else TextOfBlock(bs[0]) + TextOfBlocks(bs[1..])
  }

  // ----- What conversion carries over -----

  /** The text that the blocks carry, in output order: the first time only, or with nested lists emitted `again`. */
  function Carried(n: Node, again: bool): string
    decreases n, 1
  {
    match n
    case Text(data) => data
    case Other(children) => CarriedAll(children, again)
    case Element(tag, _, children) =>
      match KindOf(tag)
      case ParagraphTag | HeadingTag => LeafText(Leaves(children, []))
      case ImageTag | BreakTag => ""
      case BulletTag | OrderedTag => ListText(children, again)
      case QuoteTag => QuoteText(children)
      case PreTag => ExtractAll(children)
      case UnknownTag => CarriedAll(children, again)
  }

  function CarriedAll(ns: seq<Node>, again: bool): string
    decreases ns, 0
  {
    if ns == [] then "" else Carried(ns[0], again) + CarriedAll(ns[1..], again)
  }

  function QuoteText(ns: seq<Node>): string {
    if ns == [] then "" else QuoteChildText(ns[0]) + QuoteText(ns[1..])
  }

  function QuoteChildText(n: Node): string {
    if IsElement(n, "p") then LeafText(Leaves(n.children, []))
    else if n.Text? then n.data
    else ""
  }

  /** The visible text of each item, followed by that of the lists nested in it if they are emitted `again`. */
  function ListText(ns: seq<Node>, again: bool): string
    decreases ns
  {
    if ns == [] then ""
    else (if IsElement(ns[0], "li")
          then LeafText(Leaves(ns[0].children, [])) + if again then RepeatedInItem(ns[0].children) else ""
          else "") + ListText(ns[1..], again)
  }

  // ----- What conversion drops -----

  /** The text of the tree that no block will carry. */
  function Dropped(n: Node): string
    decreases n, 1
  {
    match n
    case Text(_) => ""
    case Other(children) => DroppedAll(children)
    case Element(tag, _, children) =>
      match KindOf(tag)
      case ParagraphTag | HeadingTag => HiddenText(children)
      case ImageTag | BreakTag => ExtractAll(children)
      case BulletTag | OrderedTag => DroppedFromList(children)
      case QuoteTag => DroppedFromQuote(children)
      case PreTag => ""
      case UnknownTag => DroppedAll(children)
  }

  function DroppedAll(ns: seq<Node>): string
    decreases ns, 0
  {
    if ns == [] then "" else Dropped(ns[0]) + DroppedAll(ns[1..])
  }

  /** A list keeps only its `li` children. */
  function DroppedFromList(ns: seq<Node>): string {
    if ns == [] then ""
    else (if IsElement(ns[0], "li") then HiddenText(ns[0].children) else ExtractText(ns[0])) + DroppedFromList(ns[1..])
  }

  /** A blockquote keeps only its `p` and text children. */
  function DroppedFromQuote(ns: seq<Node>): string {
    if ns == [] then "" else DroppedFromQuoteChild(ns[0]) + DroppedFromQuote(ns[1..])
  }

  function DroppedFromQuoteChild(n: Node): string {
    if IsElement(n, "p") then HiddenText(n.children) else if n.Text? then "" else ExtractText(n)
  }

  // ----- What conversion emits again -----

  /** The text that is emitted once more because a list is nested directly in a list item. */
  function Repeated(n: Node): string
    decreases n, 1
  {
    match n
    case Text(_) => ""
    case Other(children) => RepeatedAll(children)
    case Element(tag, _, children) =>
      match KindOf(tag)
      case BulletTag | OrderedTag => RepeatedInList(children)
      case UnknownTag => RepeatedAll(children)
      case _ => ""
  }

  function RepeatedAll(ns: seq<Node>): string
    decreases ns, 0
  {
    if ns == [] then "" else Repeated(ns[0]) + RepeatedAll(ns[1..])
  }

  function RepeatedInList(ns: seq<Node>): string {
    if ns == [] then ""
    else (if IsElement(ns[0], "li") then RepeatedInItem(ns[0].children) else "") + RepeatedInList(ns[1..])
  }

  function RepeatedInItem(ns: seq<Node>): string
    decreases ns
  {
    if ns == [] then ""
    else (if IsList(ns[0]) then ListText(ns[0].children, true) else "") + RepeatedInItem(ns[1..])
  }

  // ----- The blocks carry just that -----

  lemma {:induction false} TextOfBlocksConcat(a: seq<Block>, b: seq<Block>)
    ensures TextOfBlocks(a + b) == TextOfBlocks(a) + TextOfBlocks(b)
  {
    if a == [] {
      assert a + b == b;
    } else {
      TextOfBlocksConcat(a[1..], b);
      assert (a + b)[1..] == a[1..] + b && (a + b)[0] == a[0];
      StringAssoc(TextOfBlock(a[0]), TextOfBlocks(a[1..]), TextOfBlocks(b));
    }
  }

  lemma TextOfOneBlock(b: Block)
    ensures TextOfBlocks([b]) == TextOfBlock(b)
  {
    assert [b][1..] == [];
  }

  lemma InkConcatBoth(a: string, b: string, c: string, d: string)
    requires Ink(a) == Ink(c) && Ink(b) == Ink(d)
    ensures Ink(a + b) == Ink(c + d)
  {
    InkConcat(a, b);
    InkConcat(c, d);
  }

  /** Two runs of blocks one after the other. */
  lemma InkOfBlocks(a: seq<Block>, b: seq<Block>, c: string, d: string)
    requires Ink(TextOfBlocks(a)) == Ink(c) && Ink(TextOfBlocks(b)) == Ink(d)
    ensures Ink(TextOfBlocks(a + b)) == Ink(c + d)
  {
    TextOfBlocksConcat(a, b);
    InkConcatBoth(TextOfBlocks(a), TextOfBlocks(b), c, d);
  }

  lemma TextNodeInk(data: string)
    ensures Ink(TextOfBlocks(TextBlocks(data))) == Ink(data)
  {
    TrimSpaceKeepsInk(data);
    InkOfBlank(data);
    var text := TrimSpace(data);
    if text != "" {
      TextOfOneBlock(PlainParagraph(text));
      var inline := [TextNode(text, [])];
      assert inline[1..] == [];
      assert TextOf(inline) == text;
    }
  }

  lemma ParagraphInk(n: Node)
    requires n.Element?
    ensures Ink(TextOfBlocks([Paragraph(InlineContentOf(n))])) == Ink(LeafText(Leaves(n.children, [])))
  {
    TextOfOneBlock(Paragraph(InlineContentOf(n)));
    var _ := InlineContentText(n);
  }

  /** The blocks of a tree carry the ink described by `Carried`, in that order. */
  lemma {:induction false} BlocksInk(n: Node)
    ensures Ink(TextOfBlocks(BlocksOf(n))) == Ink(Carried(n, true))
    decreases n, 1
  {
    hide Ink, TextBlocks, InlineContentOf, ListItemsOf;
    match n
    case Text(data) => TextNodeInk(data);
    case Other(children) => ConversionInk(children);
    case Element(tag, attrs, children) =>
      match KindOf(tag) {
        case UnknownTag => ConversionInk(children);
        case QuoteTag =>
          QuoteInk(children);
          if QuoteBody(children) != [] {
            TextOfOneBlock(BlocksOf(n)[0]);
          }
        case ParagraphTag | HeadingTag =>
          TextOfOneBlock(BlocksOf(n)[0]);
          var _ := InlineContentText(n);
        case ImageTag | PreTag | BreakTag =>
          TextOfOneBlock(BlocksOf(n)[0]);
        case BulletTag | OrderedTag =>
          ListInk(children);
          TextOfOneBlock(BlocksOf(n)[0]);
      }
  }

  /** The ink of a converted fragment, in order. */
  lemma {:induction false} ConversionInk(ns: seq<Node>)
    ensures Ink(TextOfBlocks(BlocksAll(ns))) == Ink(CarriedAll(ns, true))
    decreases ns, 0
  {
    if ns != [] {
      BlocksInk(ns[0]);
      ConversionInk(ns[1..]);
      InkOfBlocks(BlocksOf(ns[0]), BlocksAll(ns[1..]), Carried(ns[0], true), CarriedAll(ns[1..], true));
    }
  }

  lemma {:induction false} QuoteInk(ns: seq<Node>)
    ensures Ink(TextOfBlocks(QuoteBody(ns))) == Ink(QuoteText(ns))
  {
    if ns != [] {
      var n := ns[0];
      if IsElement(n, "p") {
        ParagraphInk(n);
      } else if n.Text? {
        TextNodeInk(n.data);
      }
      QuoteInk(ns[1..]);
      InkOfBlocks(QuoteChild(n), QuoteBody(ns[1..]), QuoteChildText(n), QuoteText(ns[1..]));
    }
  }

  /** The text of a converted list is that of its items, each followed by its nested lists, in order. */
  lemma {:induction false} ListInk(ns: seq<Node>)
    ensures Ink(TextOfBlocks(ListItemsOf(ns))) == Ink(ListText(ns, true))
  {
    if ns != [] {
      ListInk(ns[1..]);
      if IsElement(ns[0], "li") {
        var c := ns[0];
        NestedListsInk(c.children);
        ItemInk(c);
        InkOfBlocks([ItemOf(c)], ListItemsOf(ns[1..]),
                    LeafText(Leaves(c.children, [])) + RepeatedInItem(c.children), ListText(ns[1..], true));
      } else {
        assert ListItemsOf(ns) == ListItemsOf(ns[1..]);
        assert ListText(ns, true) == ListText(ns[1..], true);
      }
    }
  }

  lemma ItemInk(c: Node)
    requires IsElement(c, "li") && Ink(TextOfBlocks(NestedLists(c.children))) == Ink(RepeatedInItem(c.children))
    ensures Ink(TextOfBlocks([ItemOf(c)])) == Ink(LeafText(Leaves(c.children, [])) + RepeatedInItem(c.children))
  {
    TextOfOneBlock(ItemOf(c));
    ParagraphInk(c);
    InkOfBlocks([Paragraph(InlineContentOf(c))], NestedLists(c.children),
                LeafText(Leaves(c.children, [])), RepeatedInItem(c.children));
  }

  lemma {:induction false} NestedListsInk(ns: seq<Node>)
    ensures Ink(TextOfBlocks(NestedLists(ns))) == Ink(RepeatedInItem(ns))
  {
    if ns != [] {
      NestedListsInk(ns[1..]);
      if IsList(ns[0]) {
        var list := NestedList(ns[0].tag, ListItemsOf(ns[0].children));
        ListInk(ns[0].children);
        TextOfOneBlock(list);
        InkOfBlocks([list], NestedLists(ns[1..]), ListText(ns[0].children, true), RepeatedInItem(ns[1..]));
      } else {
        assert NestedLists(ns) == NestedLists(ns[1..]);
        assert RepeatedInItem(ns) == RepeatedInItem(ns[1..]);
      }
    }
  }

  // ----- Carried or dropped -----

  /** Every character of the text is carried over the first time or dropped. */
  lemma {:induction false} CarriedOrDropped(n: Node)
    ensures Shuffle(ExtractText(n), Carried(n, false), Dropped(n))
    decreases n, 1
  {
    ShuffleWithNothing(ExtractText(n));
    match n
    case Text(_) =>
    case Other(children) => AllCarriedOrDropped(children);
    case Element(tag, _, children) =>
      match KindOf(tag) {
        case ParagraphTag | HeadingTag => VisibleAndHidden(children, []);
        case ImageTag | PreTag | BreakTag =>
        case BulletTag | OrderedTag => ListCarriedOrDropped(children);
        case QuoteTag => QuoteCarriedOrDropped(children);
        case UnknownTag => AllCarriedOrDropped(children);
      }
  }

  lemma {:induction false} AllCarriedOrDropped(ns: seq<Node>)
    ensures Shuffle(ExtractAll(ns), CarriedAll(ns, false), DroppedAll(ns))
    decreases ns, 0
  {
    if ns != [] {
      CarriedOrDropped(ns[0]);
      AllCarriedOrDropped(ns[1..]);
      ShuffleConcat(ExtractText(ns[0]), Carried(ns[0], false), Dropped(ns[0]),
                    ExtractAll(ns[1..]), CarriedAll(ns[1..], false), DroppedAll(ns[1..]));
    }
  }

  lemma {:induction false} QuoteCarriedOrDropped(ns: seq<Node>)
    ensures Shuffle(ExtractAll(ns), QuoteText(ns), DroppedFromQuote(ns))
  {
    if ns != [] {
      ShuffleWithNothing(ExtractText(ns[0]));
      if IsElement(ns[0], "p") {
        VisibleAndHidden(ns[0].children, []);
      }
      QuoteCarriedOrDropped(ns[1..]);
      ShuffleConcat(ExtractText(ns[0]), QuoteChildText(ns[0]), DroppedFromQuoteChild(ns[0]),
                    ExtractAll(ns[1..]), QuoteText(ns[1..]), DroppedFromQuote(ns[1..]));
    }
  }

  lemma {:induction false} ListCarriedOrDropped(ns: seq<Node>)
    ensures Shuffle(ExtractAll(ns), ListText(ns, false), DroppedFromList(ns))
  {
    if ns != [] {
      var n := ns[0];
      var carried := if IsElement(n, "li") then LeafText(Leaves(n.children, [])) else "";
      var lost := if IsElement(n, "li") then HiddenText(n.children) else ExtractText(n);
      ShuffleWithNothing(ExtractText(n));
      if IsElement(n, "li") {
        VisibleAndHidden(n.children, []);
        assert carried + "" == carried;
      }
      ListCarriedOrDropped(ns[1..]);
      ShuffleConcat(ExtractText(n), carried, lost,
                    ExtractAll(ns[1..]), ListText(ns[1..], false), DroppedFromList(ns[1..]));
    }
  }

  // ----- Carried the first time, or again -----

  /** What the blocks carry is what they carry the first time, and what they repeat. */
  lemma {:induction false} CarriedOrRepeated(n: Node)
    ensures Shuffle(Carried(n, true), Carried(n, false), Repeated(n))
    decreases n, 1
  {
    match n
    case Text(data) => ShuffleWithNothing(data);
    case Other(children) => AllCarriedOrRepeated(children);
    case Element(tag, _, children) =>
      match KindOf(tag) {
        case BulletTag | OrderedTag => ListCarriedOrRepeated(children);
        case UnknownTag => AllCarriedOrRepeated(children);
        case _ => ShuffleWithNothing(Carried(n, true));
      }
  }

  lemma {:induction false} AllCarriedOrRepeated(ns: seq<Node>)
    ensures Shuffle(CarriedAll(ns, true), CarriedAll(ns, false), RepeatedAll(ns))
    decreases ns, 0
  {
    if ns != [] {
      CarriedOrRepeated(ns[0]);
      AllCarriedOrRepeated(ns[1..]);
      ShuffleConcat(Carried(ns[0], true), Carried(ns[0], false), Repeated(ns[0]),
                    CarriedAll(ns[1..], true), CarriedAll(ns[1..], false), RepeatedAll(ns[1..]));
    }
  }

  lemma {:induction false} ListCarriedOrRepeated(ns: seq<Node>)
    ensures Shuffle(ListText(ns, true), ListText(ns, false), RepeatedInList(ns))
  {
    if ns != [] {
      ListCarriedOrRepeated(ns[1..]);
      var visible, again := "", "";
      if IsElement(ns[0], "li") {
        visible, again := LeafText(Leaves(ns[0].children, [])), RepeatedInItem(ns[0].children);
        assert visible + "" == visible;
      }
      OneThenTheOther(visible, again);
      ShuffleConcat(visible + again, visible, again,
                    ListText(ns[1..], true), ListText(ns[1..], false), RepeatedInList(ns[1..]));
    }
  }

  lemma OneThenTheOther(a: string, b: string)
    ensures Shuffle(a + b, a, b)
  {
    ShuffleWithNothing(a);
    ShuffleWithNothing(b);
    ShuffleConcat(a, a, "", b, "", b);
    assert a + "" == a && "" + b == b;
  }

  // ----- Only what is carried is repeated -----

  predicate Within(a: string, b: string) {
    forall c :: c in a ==> c in b
  }

  /** Every repeated character is also one that is carried over the first time: what is repeated is visible. */
  lemma {:induction false} RepeatedIsCarried(n: Node)
    ensures Within(Repeated(n), Carried(n, false))
    decreases n, 1
  {
    match n
    case Text(_) =>
    case Other(children) => AllRepeatedIsCarried(children);
    case Element(tag, _, children) =>
      match KindOf(tag) {
        case BulletTag | OrderedTag => ListRepeatedIsCarried(children);
        case UnknownTag => AllRepeatedIsCarried(children);
        case _ =>
      }
  }

  lemma {:induction false} AllRepeatedIsCarried(ns: seq<Node>)
    ensures Within(RepeatedAll(ns), CarriedAll(ns, false))
    decreases ns, 0
  {
    if ns != [] {
      RepeatedIsCarried(ns[0]);
      AllRepeatedIsCarried(ns[1..]);
    }
  }

  lemma {:induction false} ListRepeatedIsCarried(ns: seq<Node>)
    ensures Within(RepeatedInList(ns), ListText(ns, false))
  {
    if ns != [] {
      ListRepeatedIsCarried(ns[1..]);
      if IsElement(ns[0], "li") {
        ItemRepeatsVisible(ns[0].children, []);
      }
    }
  }

  /** The lists of an item, and below them all items, repeat text that is visible from the item. */
  lemma {:induction false} ItemRepeatsVisible(ns: seq<Node>, ancestors: seq<Node>)
    ensures Within(RepeatedInItem(ns), LeafText(Leaves(ns, ancestors)))
  {
    if ns != [] {
      ItemRepeatsVisible(ns[1..], ancestors);
      if IsList(ns[0]) {
        ListIsVisible(ns[0].children, ancestors + [ns[0]]);
      }
      LeafTextConcat(LeavesOfNode(ns[0], ancestors), Leaves(ns[1..], ancestors));
    }
  }

  lemma {:induction false} ListIsVisible(ns: seq<Node>, ancestors: seq<Node>)
    ensures Within(ListText(ns, true), LeafText(Leaves(ns, ancestors)))
  {
    if ns != [] {
      ListIsVisible(ns[1..], ancestors);
      if IsElement(ns[0], "li") {
        ItemRepeatsVisible(ns[0].children, ancestors + [ns[0]]);
        LeafTextAnywhere(ns[0].children, [], ancestors + [ns[0]]);
      }
      LeafTextConcat(LeavesOfNode(ns[0], ancestors), Leaves(ns[1..], ancestors));
    }
  }

  // ----- Main results -----

  /**
    The ink of the input is what is carried and what is lost, each in order; and the ink
    of the output is the very same `carried`, and what comes again, each in order.
   */
  predicate Balances(whole: string, out: string, carried: string, lost: string, again: string) {
    Shuffle(Ink(whole), Ink(carried), Ink(lost)) && Shuffle(Ink(out), Ink(carried), Ink(again))
  }

  /** The account of a whole tree, for every tree. */
  lemma ConvertBlockBalances(n: Node)
    ensures Balances(ExtractText(n), TextOfBlocks(BlocksOf(n)), Carried(n, false), Dropped(n), Repeated(n))
  {
    BlocksInk(n);
    CarriedOrDropped(n);
    CarriedOrRepeated(n);
    ShuffleInk(ExtractText(n), Carried(n, false), Dropped(n));
    ShuffleInk(Carried(n, true), Carried(n, false), Repeated(n));
  }

  /** What a balanced account says without `carried`, in counts and in order. */
  lemma BalanceOfInkAndOrder(whole: string, out: string, carried: string, lost: string, again: string)
    requires Balances(whole, out, carried, lost, again)
    ensures multiset(Ink(out)) + multiset(Ink(lost)) == multiset(Ink(whole)) + multiset(Ink(again))
    ensures IsBlank(again) ==> Shuffle(Ink(whole), Ink(out), Ink(lost))
    ensures IsBlank(lost) ==> Shuffle(Ink(out), Ink(whole), Ink(again))
  {
    hide Shuffle, Ink, IsBlank;
    ShuffleCounts(Ink(whole), Ink(carried), Ink(lost));
    ShuffleCounts(Ink(out), Ink(carried), Ink(again));
    InkOfBlank(lost);
    InkOfBlank(again);
    if IsBlank(again) {
      ShuffleOnly(Ink(out), Ink(carried));
    }
    if IsBlank(lost) {
      ShuffleOnly(Ink(whole), Ink(carried));
    }
  }

  lemma ConversionBalances(ns: seq<Node>)
    ensures Balances(ExtractAll(ns), TextOfBlocks(BlocksAll(ns)),
                     CarriedAll(ns, false), DroppedAll(ns), RepeatedAll(ns))
  {
    hide Shuffle, Ink;
    ConversionInk(ns);
    AllCarriedOrDropped(ns);
    AllCarriedOrRepeated(ns);
    ShuffleInk(ExtractAll(ns), CarriedAll(ns, false), DroppedAll(ns));
    ShuffleInk(CarriedAll(ns, true), CarriedAll(ns, false), RepeatedAll(ns));
  }

  /**
    The account of a fragment. In counts: ink out plus ink dropped is ink in plus ink
    repeated. In order: with nothing to repeat the output is the input less what is
    dropped, and with nothing to drop it is the input with what is repeated put in.
   */
  lemma ConversionConservesInk(ns: seq<Node>)
    ensures Balances(ExtractAll(ns), TextOfBlocks(BlocksAll(ns)),
                     CarriedAll(ns, false), DroppedAll(ns), RepeatedAll(ns))
    ensures var out, whole := Ink(TextOfBlocks(BlocksAll(ns))), Ink(ExtractAll(ns));
            && multiset(out) + multiset(Ink(DroppedAll(ns))) == multiset(whole) + multiset(Ink(RepeatedAll(ns)))
            && (IsBlank(RepeatedAll(ns)) ==> Shuffle(whole, out, Ink(DroppedAll(ns))))
            && (IsBlank(DroppedAll(ns)) ==> Shuffle(out, whole, Ink(RepeatedAll(ns))))
  {
    hide *;
    ConversionBalances(ns);
    BalanceOfInkAndOrder(ExtractAll(ns), TextOfBlocks(BlocksAll(ns)),
                         CarriedAll(ns, false), DroppedAll(ns), RepeatedAll(ns));
  }

  /** The converted fragment carries the ink of the fragment, in document order. */
  predicate KeepsText(ns: seq<Node>) {
    Ink(TextOfBlocks(BlocksAll(ns))) == Ink(ExtractAll(ns))
  }

  predicate NoCharTwice(s: string) {
    forall i, j :: 0 <= i < j < |s| ==> s[i] != s[j]
  }

  lemma {:induction false} CountedOnce(s: string)
    requires NoCharTwice(s)
    ensures forall c :: multiset(s)[c] <= 1
  {
    if s != "" {
      assert s == [s[0]] + s[1..];
      CountedOnce(s[1..]);
      assert s[0] !in s[1..];
    }
  }

  lemma {:induction false} CharInInk(c: char, s: string)
    ensures c in Ink(s) <==> c in s && !IsSpace(c)
  {
    if s != "" {
      CharInInk(c, s[1..]);
      assert s == [s[0]] + s[1..];
    }
  }

  lemma OnceInEach(whole: string, a: string, b: string, c: char)
    requires Shuffle(whole, a, b) && c in a && c in b
    ensures multiset(whole)[c] >= 2
  {
    ShuffleCounts(whole, a, b);
    assert multiset(a)[c] >= 1 && multiset(b)[c] >= 1;
  }

  /** If no character occurs twice, what is repeated cannot stand in for what is dropped. */
  lemma NoCoincidence(whole: string, carried: string, lost: string, again: string)
    requires NoCharTwice(whole) && Within(again, carried)
    requires Shuffle(whole, carried, lost) && Shuffle(whole, carried, again)
    ensures lost == "" && again == ""
  {
    ShuffleCounts(whole, carried, lost);
    ShuffleCounts(whole, carried, again);
    CountedOnce(whole);
    if again != "" {
      assert again[0] in again;
      OnceInEach(whole, carried, again, again[0]);
    }
  }

  /**
    Exactly when conversion keeps the text. With nothing to drop and nothing to repeat it
    always does. Otherwise it does not, except that if there is both, a repeated character
    may stand where the same character was dropped, which takes a character that the
    fragment has twice.
   */
  lemma ConversionKeepsTextExactly(ns: seq<Node>)
    ensures NoCharTwice(Ink(ExtractAll(ns))) || IsBlank(DroppedAll(ns)) || IsBlank(RepeatedAll(ns)) ==>
              (KeepsText(ns) <==> IsBlank(DroppedAll(ns)) && IsBlank(RepeatedAll(ns)))
    ensures KeepsText(ns) ==> |Ink(DroppedAll(ns))| == |Ink(RepeatedAll(ns))|
  {
    ConversionConservesInk(ns);
    AllRepeatedIsCarried(ns);
    var out, whole, carried := Ink(TextOfBlocks(BlocksAll(ns))), Ink(ExtractAll(ns)), Ink(CarriedAll(ns, false));
    var lost, again := Ink(DroppedAll(ns)), Ink(RepeatedAll(ns));
    InkOfBlank(DroppedAll(ns));
    InkOfBlank(RepeatedAll(ns));
    ShuffleCounts(whole, carried, lost);
    ShuffleCounts(out, carried, again);
    if lost == "" && again == "" {
      ShuffleOnly(whole, carried);
      ShuffleOnly(out, carried);
    }
    if KeepsText(ns) && NoCharTwice(whole) {
      forall c | c in again
        ensures c in carried
      {
        CharInInk(c, RepeatedAll(ns));
        CharInInk(c, CarriedAll(ns, false));
      }
      NoCoincidence(whole, carried, lost, again);
    }
  }

  // ----- Examples -----

  function DivInQuote(attrs: seq<Attr>): Node {
    Element("blockquote", attrs, [Element("div", attrs, [Text("a")])])
  }

  function ListInItem(attrs: seq<Attr>): Node {
    Element("ul", attrs, [Element("li", attrs, [Element("ul", attrs, [Element("li", attrs, [Text("a")])])])])
  }

  lemma DivInQuoteTexts(attrs: seq<Attr>)
    ensures var n := DivInQuote(attrs);
            ExtractText(n) == "a" && Carried(n, true) == "" && Dropped(n) == "a" && Repeated(n) == ""
  {
    var div := Element("div", attrs, [Text("a")]);
    assert [Text("a")][1..] == [] && [div][1..] == [];
    assert ExtractAll([Text("a")]) == "a";
    assert ExtractAll([div]) == "a";
    assert DroppedFromQuoteChild(div) == "a";
    assert DroppedFromQuote([div]) == "a";
    assert QuoteText([div]) == "";
    assert KindOf("blockquote") == QuoteTag;
  }

  lemma ListInItemTexts(attrs: seq<Attr>)
    ensures var n := ListInItem(attrs);
            ExtractText(n) == "a" && Carried(n, true) == "aa" && Dropped(n) == "" && Repeated(n) == "a"
  {
    var leaf := Element("li", attrs, [Text("a")]);
    var inner := Element("ul", attrs, [leaf]);
    var item := Element("li", attrs, [inner]);
    assert [Text("a")][1..] == [] && [leaf][1..] == [] && [inner][1..] == [] && [item][1..] == [];
    assert KindOf("ul") == BulletTag;
    assert ExtractAll([Text("a")]) == "a";
    assert ExtractAll([leaf]) == "a";
    assert ExtractAll([inner]) == "a";
    assert ExtractAll([item]) == "a";
    assert HiddenText([Text("a")]) == "";
    assert HiddenText([leaf]) == "";
    assert HiddenText([inner]) == "";
    assert DroppedFromList([item]) == "";
    VisibleAndHidden([Text("a")], []);
    VisibleAndHidden([inner], []);
    ShuffleOnly("a", LeafText(Leaves([Text("a")], [])));
    ShuffleOnly("a", LeafText(Leaves([inner], [])));
    assert RepeatedInItem([Text("a")]) == "";
    assert ListText([leaf], true) == "a";
    assert RepeatedInItem([inner]) == "a";
    assert ListText([item], true) == "aa";
    assert RepeatedInList([item]) == "a";
  }

  lemma OneNode(n: Node)
    ensures DroppedAll([n]) == Dropped(n) && RepeatedAll([n]) == Repeated(n)
  {
    assert [n][1..] == [];
  }

  /** A blockquote loses the text of a `div` child. */
  lemma BlockquoteLosesDiv(attrs: seq<Attr>)
    ensures !KeepsText([DivInQuote(attrs)])
  {
    DivInQuoteTexts(attrs);
    OneNode(DivInQuote(attrs));
    ConversionKeepsTextExactly([DivInQuote(attrs)]);
    assert !IsSpace("a"[0]);
  }

  /** A list nested in a list item has its text emitted twice. */
  lemma NestedListRepeatsText(attrs: seq<Attr>)
    ensures !KeepsText([ListInItem(attrs)])
  {
    ListInItemTexts(attrs);
    OneNode(ListInItem(attrs));
    ConversionKeepsTextExactly([ListInItem(attrs)]);
    assert !IsSpace("a"[0]);
  }

  /** Both at once, with the same character: the second copy of one text stands in for the other. */
  lemma SecondCopyStandsIn(attrs: seq<Attr>)
    ensures var ns := [DivInQuote(attrs), ListInItem(attrs)];
            KeepsText(ns) && !IsBlank(DroppedAll(ns)) && !IsBlank(RepeatedAll(ns))
  {
    var quote, list := DivInQuote(attrs), ListInItem(attrs);
    DivInQuoteTexts(attrs);
    ListInItemTexts(attrs);
    OneNode(list);
    assert [quote, list][1..] == [list] && [list][1..] == [];
    ConversionInk([quote, list]);
    hide DivInQuote, ListInItem, Dropped, Repeated, Carried, ExtractText;
    var ns := [quote, list];
    assert ExtractAll([list]) == "a" && CarriedAll([list], true) == "aa" && DroppedAll([list]) == "";
    assert ExtractAll(ns) == "aa" && CarriedAll(ns, true) == "aa" && DroppedAll(ns) == "a" && RepeatedAll(ns) == "a";
    assert !IsSpace("a"[0]);
  }
}
