/**
  `buildChannelTree` on the heap, the finite trees its nodes denote, and `flattenTree`.
 */
module ChannelTree {
  import opened Options
  import opened ChannelRows

  /** A node of the linked forest. */
  class ChannelVO {
    const channel: Channel
    var children: seq<ChannelVO>

    constructor (channel: Channel)
      ensures this.channel == channel && children == []
    {
      this.channel := channel;
      children := [];
    }
  }

  type NodeMap = map<int, ChannelVO>

  /** `nodes` are the nodes of the rows `cs`, in that order. */
  ghost predicate AreNodesOf(m: NodeMap, nodes: seq<ChannelVO>, cs: seq<Channel>) {
    |nodes| == |cs| && forall i :: 0 <= i < |cs| ==> cs[i].id in m && nodes[i] == m[cs[i].id]
  }

  ghost predicate Injective(m: NodeMap) {
    forall a, b :: a in m && b in m && a != b ==> m[a] != m[b]
  }

  /** The children of every node are the nodes of the rows of `cs` that hang under it, in list order. */
  ghost predicate Linked(m: NodeMap, cs: seq<Channel>)
    reads m.Values
  {
    forall id :: id in m ==> AreNodesOf(m, m[id].children, Siblings(m.Keys, cs, Some(id)))
  }

  /** No later row has the id of row `i`. */
  ghost predicate LastOfItsId(cs: seq<Channel>, i: nat)
    requires i < |cs|
  {
    forall j :: i < j < |cs| ==> cs[j].id != cs[i].id
  }

  lemma LastStays(cs: seq<Channel>, c: Channel)
    ensures forall k :: 0 <= k < |cs| && LastOfItsId(cs + [c], k) ==> LastOfItsId(cs, k) && cs[k].id != c.id
  {
    forall k | 0 <= k < |cs| && LastOfItsId(cs + [c], k)
      ensures LastOfItsId(cs, k) && cs[k].id != c.id
    {
      assert (cs + [c])[|cs|] == c;
      assert forall j :: k < j < |cs| ==> (cs + [c])[j] == cs[j];
    }
  }

  /** The first loop: one new node for every row; of rows with the same id, the last one wins. */
  method MakeNodes(channels: seq<Channel>) returns (nodeMap: NodeMap)
    ensures nodeMap.Keys == Ids(channels) && Injective(nodeMap)
    ensures forall id :: id in nodeMap ==> fresh(nodeMap[id]) && nodeMap[id].children == []
    ensures forall i :: 0 <= i < |channels| && LastOfItsId(channels, i) ==>
              channels[i].id in nodeMap && nodeMap[channels[i].id].channel == channels[i]
  {
    nodeMap := map[];
    for i := 0 to |channels|
      invariant nodeMap.Keys == Ids(channels[..i]) && Injective(nodeMap)
      invariant forall id :: id in nodeMap ==> fresh(nodeMap[id]) && nodeMap[id].children == []
      invariant forall k :: 0 <= k < i && LastOfItsId(channels[..i], k) ==>
                  channels[k].id in nodeMap && nodeMap[channels[k].id].channel == channels[k]
    {
      var vo := new ChannelVO(channels[i]);
      assert channels[..i + 1] == channels[..i] + [channels[i]];
      LastStays(channels[..i], channels[i]);
      nodeMap := nodeMap[channels[i].id := vo];
    }
    assert channels[..|channels|] == channels;
  }

  /** One row of the second loop: its node is appended to its parent's children, or to the roots. */
  method LinkNode(c: Channel, nodeMap: NodeMap, roots: seq<ChannelVO>, ghost linked: seq<Channel>)
    returns (roots': seq<ChannelVO>)
    requires c.id in nodeMap && Injective(nodeMap)
    requires Linked(nodeMap, linked) && AreNodesOf(nodeMap, roots, Siblings(nodeMap.Keys, linked, None))
    modifies nodeMap.Values
    ensures Linked(nodeMap, linked + [c])
    ensures AreNodesOf(nodeMap, roots', Siblings(nodeMap.Keys, linked + [c], None))
  {
    roots' := roots;
    var vo := nodeMap[c.id];
    ghost var key := KeyOf(nodeMap.Keys, c);
    if c.parentId.Some? && c.parentId.value in nodeMap {
      var parent := nodeMap[c.parentId.value];
      parent.children := parent.children + [vo];
    } else {
      roots' := roots + [vo];
    }
    SiblingsSnoc(nodeMap.Keys, linked, c, None);
    forall id | id in nodeMap
      ensures AreNodesOf(nodeMap, nodeMap[id].children, Siblings(nodeMap.Keys, linked + [c], Some(id)))
    {
      SiblingsSnoc(nodeMap.Keys, linked, c, Some(id));
      if key == Some(id) {
        assert nodeMap[id].children == old(nodeMap[id].children) + [vo];
      } else {
        assert key.Some? ==> key == c.parentId && key.value in nodeMap && key.value != id;
        assert key.Some? ==> nodeMap[key.value] != nodeMap[id];
        assert nodeMap[id].children == old(nodeMap[id].children);
      }
    }
  }

  method LinkNodes(channels: seq<Channel>, nodeMap: NodeMap) returns (roots: seq<ChannelVO>)
    requires nodeMap.Keys == Ids(channels) && Injective(nodeMap)
    requires forall id :: id in nodeMap ==> nodeMap[id].children == []
    modifies nodeMap.Values
    ensures Linked(nodeMap, channels)
    ensures AreNodesOf(nodeMap, roots, Siblings(nodeMap.Keys, channels, None))
  {
    roots := [];
    for i := 0 to |channels|
      invariant Linked(nodeMap, channels[..i])
      invariant AreNodesOf(nodeMap, roots, Siblings(nodeMap.Keys, channels[..i], None))
    {
      assert channels[i].id in Ids(channels);
      assert channels[..i + 1] == channels[..i] + [channels[i]];
      roots := LinkNode(channels[i], nodeMap, roots, channels[..i]);
    }
    assert channels[..|channels|] == channels;
  }

  method BuildChannelTree(channels: seq<Channel>) returns (roots: seq<ChannelVO>, ghost nodeMap: NodeMap)
    ensures nodeMap.Keys == Ids(channels) && Injective(nodeMap)
    ensures forall id :: id in nodeMap ==> fresh(nodeMap[id])
    ensures Distinct(channels) ==> forall i :: 0 <= i < |channels| ==> nodeMap[channels[i].id].channel == channels[i]
    ensures Linked(nodeMap, channels)
    ensures AreNodesOf(nodeMap, roots, Siblings(Ids(channels), channels, None))
  {
    var nodes := MakeNodes(channels);
    roots := LinkNodes(channels, nodes);
    nodeMap := nodes;
  }
}
