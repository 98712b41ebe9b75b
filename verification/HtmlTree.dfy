/**
  The parsed HTML tree and `extractText`, the traversal that defines "the text of a tree".
 */
module HtmlTree {

  datatype Attr = Attr(key: string, val: string)

  /** `Other` stands for comments, doctypes and document nodes, which the converter treats alike. */
  datatype Node =
    | Text(data: string)
    | Element(tag: string, attrs: seq<Attr>, children: seq<Node>)
    | Other(children: seq<Node>)
  {
    /** The sibling list that starts at `FirstChild`; text nodes have none. */
    function Kids(): seq<Node> {
      if Text? then [] else children
    }
  }

  /** The first attribute of that name, or "". */
  function GetAttr(attrs: seq<Attr>, key: string): string {
    if attrs == [] then ""
    else if attrs[0].key == key then attrs[0].val
    else GetAttr(attrs[1..], key)
  }

  /** `val` is the value of the first attribute with that name, or "" if there is none. */
  predicate AttrIs(attrs: seq<Attr>, key: string, val: string) {
    || (val == "" && forall i :: 0 <= i < |attrs| ==> attrs[i].key != key)
    || exists i :: 0 <= i < |attrs| && attrs[i] == Attr(key, val) && forall j :: 0 <= j < i ==> attrs[j].key != key
  }

  lemma {:induction false} GetAttrExact(attrs: seq<Attr>, key: string, val: string)
    ensures AttrIs(attrs, key, val) <==> val == GetAttr(attrs, key)
  {
    if attrs != [] {
      var rest := attrs[1..];
      assert forall i :: 0 < i < |attrs| ==> attrs[i] == rest[i - 1];
      assert forall i :: 0 <= i < |rest| ==> rest[i] == attrs[i + 1];
      GetAttrExact(rest, key, val);
    }
  }

  function ExtractText(n: Node): string
    decreases n, 1
  {
    match n
    case Text(d) => d
    case Element(_, _, children) => ExtractAll(children)
    case Other(children) => ExtractAll(children)
  }

  function ExtractAll(ns: seq<Node>): string
    decreases ns, 0
  {
    if ns == [] then "" else ExtractText(ns[0]) + ExtractAll(ns[1..])
  }

  /** A `strings.Builder`. */
  class Builder {
    var text: string

    constructor ()
      ensures text == ""
    {
      text := "";
    }

    method WriteString(s: string)
      modifies this
      ensures text == old(text) + s
    {
      text := text + s;
    }
  }

  method Walk(n: Node, buf: Builder)
    modifies buf
    ensures buf.text == old(buf.text) + ExtractText(n)
    decreases n
  {
    if n.Text? {
      buf.WriteString(n.data);
    }
    var kids := n.Kids();
    for i := 0 to |kids|
      invariant buf.text + ExtractAll(kids[i..]) == old(buf.text) + ExtractText(n)
    {
      assert kids[i..][1..] == kids[i + 1..];
      Walk(kids[i], buf);
    }
  }

  /** `extractText`: the builder's contents after walking the tree. */
  method ExtractTextOf(n: Node) returns (text: string)
    ensures text == ExtractText(n)
  {
    var buf := new Builder();
    Walk(n, buf);
    text := buf.text;
  }
}
