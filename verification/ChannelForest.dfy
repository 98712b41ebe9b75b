/**
  The forest of a flat list, its flattening, and what the round trip keeps.
 */
module ChannelForest {
  import opened Options
  import opened ChannelRows
  import opened ChannelTree

  /** A channel with its children, as the JSON that leaves the server and arrives in the page. */
  datatype Tree = Tree(channel: Channel, children: seq<Tree>)

  /** One line of the flattened table. */
  datatype Entry = Entry(channel: Channel, depth: nat, title: string)

  /** Two no-break spaces for every level. */
  function Indent(depth: nat): string {
    if depth == 0 then "" else "\U{A0}\U{A0}" + Indent(depth - 1)
  }

  function EntryOf(c: Channel, depth: nat): Entry {
    Entry(c, depth, Indent(depth) + c.name)
  }

  /** Pre-order. */
  function Flatten(nodes: seq<Tree>, depth: nat): seq<Entry> {
    if nodes == [] then []
    else [EntryOf(nodes[0].channel, depth)] + Flatten(nodes[0].children, depth + 1) + Flatten(nodes[1..], depth)
  }

  lemma FlattenFrom(nodes: seq<Tree>, i: nat, depth: nat)
    requires i < |nodes|
    ensures Flatten(nodes[i..], depth)
         == [EntryOf(nodes[i].channel, depth)] + Flatten(nodes[i].children, depth + 1) + Flatten(nodes[i + 1..], depth)
  {
    assert nodes[i..][1..] == nodes[i + 1..];
  }

  lemma Regroup<T>(a: seq<T>, b: seq<T>, c: seq<T>, d: seq<T>)
    ensures a + (b + c + d) == a + b + c + d
  {
  }

  method FlattenTree(nodes: seq<Tree>, depth: nat) returns (result: seq<Entry>)
    ensures result == Flatten(nodes, depth)
  {
    result := [];
    for i := 0 to |nodes|
      invariant result + Flatten(nodes[i..], depth) == Flatten(nodes, depth)
    {
      var node := nodes[i];
      FlattenFrom(nodes, i, depth);
      Regroup(result, [EntryOf(node.channel, depth)],
              Flatten(node.children, depth + 1), Flatten(nodes[i + 1..], depth));
      result := result + [EntryOf(node.channel, depth)];
      if |node.children| > 0 {
        var below := FlattenTree(node.children, depth + 1);
        result := result + below;
      } else {
        assert Flatten(node.children, depth + 1) == [];
      }
    }
  }

  function Rows(entries: seq<Entry>): seq<Channel> {
    if entries == [] then [] else [entries[0].channel] + Rows(entries[1..])
  }

  lemma {:induction false} RowsConcat(a: seq<Entry>, b: seq<Entry>)
    ensures Rows(a + b) == Rows(a) + Rows(b)
  {
    if a == [] {
      assert a + b == b;
    } else {
      RowsConcat(a[1..], b);
      assert (a + b)[1..] == a[1..] + b && (a + b)[0] == a[0];
    }
  }

  // ----- The forest a list denotes -----

  function KidsOf(cs: seq<Channel>, c: Channel): seq<Channel> {
    Siblings(Ids(cs), cs, Some(c.id))
  }

  function RootsOf(cs: seq<Channel>): seq<Channel> {
    Siblings(Ids(cs), cs, None)
  }

  /** The trees below the rows `xs`, cut off after `height` further levels. */
  function TreesOf(cs: seq<Channel>, xs: seq<Channel>, height: nat): seq<Tree>
    decreases height, |xs|
  {
    if xs == [] then []
    else
      [Tree(xs[0], if height == 0 then [] else TreesOf(cs, KidsOf(cs, xs[0]), height - 1))]
      + TreesOf(cs, xs[1..], height)
  }

  /** No chain is longer than the list, so nothing is cut off at this height: see `RootsDenoteForest`. */
  function Forest(cs: seq<Channel>): seq<Tree> {
    TreesOf(cs, RootsOf(cs), |cs|)
  }

  ghost predicate AllAtDepth(cs: seq<Channel>, xs: seq<Channel>, d: nat) {
    forall c :: c in xs ==> c in cs && AtDepth(cs, c, d)
  }

  lemma KidsAtDepth(cs: seq<Channel>, c: Channel, d: nat)
    requires Distinct(cs) && c in cs && AtDepth(cs, c, d)
    ensures AllAtDepth(cs, KidsOf(cs, c), d + 1) && Distinct(KidsOf(cs, c))
  {
    SiblingsMembers(Ids(cs), cs, Some(c.id));
    SiblingsDistinct(Ids(cs), cs, Some(c.id));
    forall k | k in KidsOf(cs, c)
      ensures k in cs && AtDepth(cs, k, d + 1)
    {
      SameRow(cs, c, RowOf(cs, c.id));
    }
  }

  lemma RootsAtDepth(cs: seq<Channel>)
    requires Distinct(cs)
    ensures AllAtDepth(cs, RootsOf(cs), 0) && Distinct(RootsOf(cs))
  {
    SiblingsMembers(Ids(cs), cs, None);
    SiblingsDistinct(Ids(cs), cs, None);
  }

  /** The heap node `vo` and everything below it spell out the finite tree `t`. */
  ghost predicate Denotes(vo: ChannelVO, t: Tree)
    reads *
    decreases t
  {
    && vo.channel == t.channel
    && |vo.children| == |t.children|
    && forall i :: 0 <= i < |t.children| ==> Denotes(vo.children[i], t.children[i])
  }

  lemma {:induction false} TreesOfAt(cs: seq<Channel>, xs: seq<Channel>, height: nat)
    ensures |TreesOf(cs, xs, height)| == |xs|
    ensures forall i :: 0 <= i < |xs| ==>
              TreesOf(cs, xs, height)[i]
                == Tree(xs[i], if height == 0 then [] else TreesOf(cs, KidsOf(cs, xs[i]), height - 1))
    decreases |xs|
  {
    if xs != [] {
      TreesOfAt(cs, xs[1..], height);
      assert forall i :: 0 < i < |xs| ==> xs[i] == xs[1..][i - 1];
    }
  }

  /** What the linked nodes of rows with ending chains denote. */
  lemma {:induction false} NodesDenote(m: NodeMap, cs: seq<Channel>, nodes: seq<ChannelVO>, xs: seq<Channel>,
                                       d: nat, height: nat)
    requires Distinct(cs) && m.Keys == Ids(cs) && Linked(m, cs)
    requires forall i :: 0 <= i < |cs| ==> m[cs[i].id].channel == cs[i]
    requires AreNodesOf(m, nodes, xs) && AllAtDepth(cs, xs, d) && d + height == |cs|
    ensures |TreesOf(cs, xs, height)| == |nodes|
    ensures forall i :: 0 <= i < |nodes| ==> Denotes(nodes[i], TreesOf(cs, xs, height)[i])
    decreases height
  {
    hide TreesOf, AtDepth, Distinct, Siblings;
    TreesOfAt(cs, xs, height);
    forall i | 0 <= i < |nodes|
      ensures Denotes(nodes[i], TreesOf(cs, xs, height)[i])
    {
      var c := xs[i];
      assert c in xs;
      DepthBelowLength(cs, c, d);
      KidsAtDepth(cs, c, d);
      NodesDenote(m, cs, m[c.id].children, KidsOf(cs, c), d + 1, height - 1);
    }
  }

  /** The roots that `buildChannelTree` returns denote exactly the forest of the list. */
  method BuildForest(channels: seq<Channel>) returns (roots: seq<ChannelVO>)
    requires Distinct(channels)
    ensures |roots| == |Forest(channels)|
    ensures forall i :: 0 <= i < |roots| ==> Denotes(roots[i], Forest(channels)[i])
  {
    ghost var nodeMap;
    roots, nodeMap := BuildChannelTree(channels);
    RootsAtDepth(channels);
    NodesDenote(nodeMap, channels, roots, RootsOf(channels), 0, |channels|);
  }
}
