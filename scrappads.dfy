/**
 * The layer edge as the packer keeps it: a doubly linked list of scrap-pad
 * nodes, each holding one gap and links to the nodes before and after it.
 * The nodes live in an arena (a sequence indexed by node); a link is a node
 * index, and -1 stands for a missing link. Node 0 is the head (scrapfirst).
 * The ghost list of the nodes reachable from the head, in order, ties the
 * links to the value-level edge of module Skyline.
 */
module ScrapPads {
  import opened Skyline

  datatype ScrapPad = ScrapPad(cumX: real, cumZ: real, pre: int, post: int)

  /** The missing link. */
  const Null := -1

  /** The head node, which never moves. */
  const Head := 0

  /**
   * nodes is the list reachable from the head: it starts at the head, its
   * nodes are arena slots, each node's post link is the next node (none for
   * the last) and its pre link the previous one (none for the head).
   */
  ghost predicate Linked(nodes: seq<int>, pads: seq<ScrapPad>)
  {
    && |nodes| > 0
    && nodes[0] == Head
    && (forall i :: 0 <= i < |nodes| ==> 0 <= nodes[i] < |pads|)
    && pads[Head].pre == Null
    && (forall i :: 0 < i < |nodes| ==> pads[nodes[i]].pre == nodes[i - 1])
    && (forall i :: 0 <= i < |nodes| - 1 ==> pads[nodes[i]].post == nodes[i + 1])
    && pads[nodes[|nodes| - 1]].post == Null
  }

  /** Following the post links from two equal nodes visits equal nodes. */
  lemma {:induction false} SameAfter(nodes: seq<int>, pads: seq<ScrapPad>, i: nat, j: nat, d: nat)
    requires Linked(nodes, pads) && i < j && j + d < |nodes|
    ensures nodes[i] == nodes[j] ==> nodes[i + d] == nodes[j + d]
    decreases d
  {
    if d > 0 {
      SameAfter(nodes, pads, i, j, d - 1);
      assert nodes[i + d] == pads[nodes[i + d - 1]].post;
      assert nodes[j + d] == pads[nodes[j + d - 1]].post;
    }
  }

  /** A list the links describe never visits a node twice. */
  lemma Distinct(nodes: seq<int>, pads: seq<ScrapPad>)
    requires Linked(nodes, pads)
    ensures forall i, j :: 0 <= i < j < |nodes| ==> nodes[i] != nodes[j]
  {
    forall i, j | 0 <= i < j < |nodes|
      ensures nodes[i] != nodes[j]
    {
      var d := |nodes| - 1 - j;
      SameAfter(nodes, pads, i, j, d);
      assert pads[nodes[i + d]].post == nodes[i + d + 1];
    }
  }

  function GapOf(p: ScrapPad): Gap
  {
    Gap(p.cumX, p.cumZ)
  }

  /** The gap node j holds, or an empty one when j is not an arena slot. */
  function GapAt(pads: seq<ScrapPad>, j: int): Gap
  {
    if 0 <= j < |pads| then GapOf(pads[j]) else Gap(0.0, 0.0)
  }

  /** The edge the list holds: the gaps of its nodes, from the head. */
  ghost function SkyOf(nodes: seq<int>, pads: seq<ScrapPad>): (sky: seq<Gap>)
    ensures |sky| == |nodes|
    decreases |nodes|
  {
    if nodes == [] then [] else SkyOf(nodes[..|nodes| - 1], pads) + [GapAt(pads, nodes[|nodes| - 1])]
  }

  /** Stretch i of the edge is the gap of the list's i-th node. */
  lemma {:induction false} SkyOfAt(nodes: seq<int>, pads: seq<ScrapPad>)
    requires forall i :: 0 <= i < |nodes| ==> 0 <= nodes[i] < |pads|
    ensures forall i :: 0 <= i < |nodes| ==> SkyOf(nodes, pads)[i] == GapOf(pads[nodes[i]])
    decreases |nodes|
  {
    if nodes != [] {
      SkyOfAt(nodes[..|nodes| - 1], pads);
    }
  }

  /** In a linked list, a node has no pre link exactly when it is the head, and no post link exactly when it is the last. */
  lemma Ends(nodes: seq<int>, pads: seq<ScrapPad>, k: nat)
    requires Linked(nodes, pads) && k < |nodes|
    ensures pads[nodes[k]].pre == Null <==> k == 0
    ensures pads[nodes[k]].post == Null <==> k == |nodes| - 1
  {
    if k > 0 {
      assert pads[nodes[k]].pre == nodes[k - 1] >= 0;
    }
    if k < |nodes| - 1 {
      assert pads[nodes[k]].post == nodes[k + 1] >= 0;
    }
  }

  /** The links of the node at position k name its neighbours in the edge. */
  lemma Neighbours(nodes: seq<int>, pads: seq<ScrapPad>, k: nat)
    requires Linked(nodes, pads) && k < |nodes|
    ensures pads[nodes[k]].pre == Null <==> k == 0
    ensures pads[nodes[k]].post == Null <==> k == |nodes| - 1
    ensures 0 < k ==> pads[nodes[k]].pre == nodes[k - 1]
    ensures k < |nodes| - 1 ==> pads[nodes[k]].post == nodes[k + 1]
    ensures SkyOf(nodes, pads)[k] == GapOf(pads[nodes[k]])
    ensures 0 < k ==> SkyOf(nodes, pads)[k - 1] == GapOf(pads[nodes[k - 1]])
    ensures k < |nodes| - 1 ==> SkyOf(nodes, pads)[k + 1] == GapOf(pads[nodes[k + 1]])
  {
    Ends(nodes, pads, k);
    SkyOfAt(nodes, pads);
  }

  // ---------------------------------------------------------------------
  // The three link operations the packer performs
  // ---------------------------------------------------------------------

  /** Node j gets a new gap. */
  function WithGap(pads: seq<ScrapPad>, j: int, x: real, z: real): seq<ScrapPad>
    requires 0 <= j < |pads|
  {
    pads[j := pads[j].(cumX := x, cumZ := z)]
  }

  /** A new node, holding gap (x, z), linked in after node nodes[k]. */
  function Inserted(nodes: seq<int>, pads: seq<ScrapPad>, k: nat, x: real, z: real): seq<ScrapPad>
    requires Linked(nodes, pads) && k < |nodes|
  {
    var n, j := |pads|, nodes[k];
    var p1 := pads + [ScrapPad(x, z, j, pads[j].post)];
    var p2 := p1[j := p1[j].(post := n)];
    if k + 1 < |nodes| then p2[nodes[k + 1] := p2[nodes[k + 1]].(pre := n)] else p2
  }

  /** Node nodes[k] unlinked: its neighbours are linked to each other. */
  function Unlinked(nodes: seq<int>, pads: seq<ScrapPad>, k: nat): seq<ScrapPad>
    requires Linked(nodes, pads) && 0 < k < |nodes|
  {
    var q := nodes[k - 1];
    var p1 := pads[q := pads[q].(post := pads[nodes[k]].post)];
    if k + 1 < |nodes| then p1[nodes[k + 1] := p1[nodes[k + 1]].(pre := q)] else p1
  }

  /** A new gap for the node at position k changes stretch k of the edge and nothing else. */
  lemma WithGapEffect(nodes: seq<int>, pads: seq<ScrapPad>, k: nat, x: real, z: real)
    requires Linked(nodes, pads) && k < |nodes|
    ensures Linked(nodes, WithGap(pads, nodes[k], x, z))
    ensures SkyOf(nodes, WithGap(pads, nodes[k], x, z)) == SkyOf(nodes, pads)[k := Gap(x, z)]
  {
    var p := WithGap(pads, nodes[k], x, z);
    Distinct(nodes, pads);
    SkyOfAt(nodes, pads);
    SkyOfAt(nodes, p);
    forall i | 0 <= i < |nodes|
      ensures p[nodes[i]].pre == pads[nodes[i]].pre && p[nodes[i]].post == pads[nodes[i]].post
      ensures GapOf(p[nodes[i]]) == if i == k then Gap(x, z) else GapOf(pads[nodes[i]])
    {
    }
  }

  /** Inserting after position k puts the new gap right after stretch k. */
  lemma InsertedEffect(nodes: seq<int>, pads: seq<ScrapPad>, k: nat, x: real, z: real)
    requires Linked(nodes, pads) && k < |nodes|
    ensures Linked(nodes[..k + 1] + [|pads|] + nodes[k + 1..], Inserted(nodes, pads, k, x, z))
    ensures SkyOf(nodes[..k + 1] + [|pads|] + nodes[k + 1..], Inserted(nodes, pads, k, x, z))
      == InsertGap(SkyOf(nodes, pads), k, Gap(x, z))
  {
    InsertedGaps(nodes, pads, k, x, z);
  }

  lemma InsertedList(nodes: seq<int>, pads: seq<ScrapPad>, k: nat)
    requires Linked(nodes, pads) && k < |nodes|
    ensures var ns := nodes[..k + 1] + [|pads|] + nodes[k + 1..];
      && |ns| == |nodes| + 1
      && (forall i :: 0 <= i <= k ==> ns[i] == nodes[i])
      && ns[k + 1] == |pads|
      && (forall i :: k + 1 < i < |ns| ==> ns[i] == nodes[i - 1])
  {
  }

  lemma InsertedLinks(nodes: seq<int>, pads: seq<ScrapPad>, k: nat, x: real, z: real)
    requires Linked(nodes, pads) && k < |nodes|
    ensures Linked(nodes[..k + 1] + [|pads|] + nodes[k + 1..], Inserted(nodes, pads, k, x, z))
  {
    var n := |pads|;
    var ns := nodes[..k + 1] + [n] + nodes[k + 1..];
    var p := Inserted(nodes, pads, k, x, z);
    InsertedNodes(nodes, pads, k, x, z);
    InsertedList(nodes, pads, k);
    forall i | 0 < i < |ns| ensures p[ns[i]].pre == ns[i - 1] {
      if i <= k {
        assert p[ns[i]].pre == pads[nodes[i]].pre;
      } else if i > k + 2 {
        assert p[ns[i]] == pads[nodes[i - 1]];
      }
    }
    forall i | 0 <= i < |ns| - 1 ensures p[ns[i]].post == ns[i + 1] {
      if i < k {
        assert p[ns[i]] == pads[nodes[i]];
      } else if i > k + 1 {
        assert p[ns[i]].post == pads[nodes[i - 1]].post;
      }
    }
    if k + 1 < |nodes| {
      assert p[ns[|ns| - 1]].post == pads[nodes[|nodes| - 1]].post;
    }
    assert p[Head].pre == Null by {
      assert p[Head].pre == pads[Head].pre;
    }
  }

  lemma InsertedGaps(nodes: seq<int>, pads: seq<ScrapPad>, k: nat, x: real, z: real)
    requires Linked(nodes, pads) && k < |nodes|
    ensures Linked(nodes[..k + 1] + [|pads|] + nodes[k + 1..], Inserted(nodes, pads, k, x, z))
    ensures SkyOf(nodes[..k + 1] + [|pads|] + nodes[k + 1..], Inserted(nodes, pads, k, x, z))
      == SkyOf(nodes, pads)[..k + 1] + [Gap(x, z)] + SkyOf(nodes, pads)[k + 1..]
  {
    var ns := nodes[..k + 1] + [|pads|] + nodes[k + 1..];
    var p := Inserted(nodes, pads, k, x, z);
    InsertedLinks(nodes, pads, k, x, z);
    InsertedNodes(nodes, pads, k, x, z);
    InsertedList(nodes, pads, k);
    var sky, sky' := SkyOf(nodes, pads), SkyOf(ns, p);
    SkyOfAt(nodes, pads);
    SkyOfAt(ns, p);
    forall i | 0 <= i < |ns|
      ensures sky'[i] == (sky[..k + 1] + [Gap(x, z)] + sky[k + 1..])[i]
    {
      if i <= k {
        assert GapOf(p[nodes[i]]) == GapOf(pads[nodes[i]]);
      } else if i > k + 1 {
        assert GapOf(p[nodes[i - 1]]) == GapOf(pads[nodes[i - 1]]);
      }
    }
  }

  /** Where the insertion puts each node of the old list and the new one. */
  lemma InsertedNodes(nodes: seq<int>, pads: seq<ScrapPad>, k: nat, x: real, z: real)
    requires Linked(nodes, pads) && k < |nodes|
    ensures var p := Inserted(nodes, pads, k, x, z);
      && |p| == |pads| + 1
      && p[|pads|] == ScrapPad(x, z, nodes[k], pads[nodes[k]].post)
      && p[nodes[k]] == pads[nodes[k]].(post := |pads|)
      && (k + 1 < |nodes| ==> p[nodes[k + 1]] == pads[nodes[k + 1]].(pre := |pads|))
      && (forall i :: 0 <= i < |nodes| && i != k && i != k + 1 ==> p[nodes[i]] == pads[nodes[i]])
  {
    Distinct(nodes, pads);
  }

  /** Unlinking position k removes stretch k from the edge. */
  lemma UnlinkedEffect(nodes: seq<int>, pads: seq<ScrapPad>, k: nat)
    requires Linked(nodes, pads) && 0 < k < |nodes|
    ensures Linked(nodes[..k] + nodes[k + 1..], Unlinked(nodes, pads, k))
    ensures SkyOf(nodes[..k] + nodes[k + 1..], Unlinked(nodes, pads, k))
      == RemoveGap(SkyOf(nodes, pads), k)
  {
    UnlinkedGaps(nodes, pads, k);
  }

  lemma UnlinkedList(nodes: seq<int>, k: nat)
    requires 0 < k < |nodes|
    ensures var ns := nodes[..k] + nodes[k + 1..];
      && |ns| == |nodes| - 1
      && (forall i :: 0 <= i < k ==> ns[i] == nodes[i])
      && (forall i :: k <= i < |ns| ==> ns[i] == nodes[i + 1])
  {
  }

  lemma UnlinkedLinks(nodes: seq<int>, pads: seq<ScrapPad>, k: nat)
    requires Linked(nodes, pads) && 0 < k < |nodes|
    ensures Linked(nodes[..k] + nodes[k + 1..], Unlinked(nodes, pads, k))
  {
    var ns := nodes[..k] + nodes[k + 1..];
    var p := Unlinked(nodes, pads, k);
    UnlinkedNodes(nodes, pads, k);
    UnlinkedList(nodes, k);
    forall i | 0 < i < |ns| ensures p[ns[i]].pre == ns[i - 1] {
      if i < k {
        assert p[ns[i]].pre == pads[nodes[i]].pre;
      } else if i > k {
        assert p[ns[i]] == pads[nodes[i + 1]];
      }
    }
    forall i | 0 <= i < |ns| - 1 ensures p[ns[i]].post == ns[i + 1] {
      if i < k - 1 {
        assert p[ns[i]] == pads[nodes[i]];
      } else if i >= k {
        assert p[ns[i]].post == pads[nodes[i + 1]].post;
      }
    }
    if k + 1 < |nodes| {
      assert p[ns[|ns| - 1]].post == pads[nodes[|nodes| - 1]].post;
    } else {
      assert ns[|ns| - 1] == nodes[k - 1];
    }
    assert p[Head].pre == Null by {
      assert p[Head].pre == pads[Head].pre;
    }
  }

  lemma UnlinkedGaps(nodes: seq<int>, pads: seq<ScrapPad>, k: nat)
    requires Linked(nodes, pads) && 0 < k < |nodes|
    ensures Linked(nodes[..k] + nodes[k + 1..], Unlinked(nodes, pads, k))
    ensures SkyOf(nodes[..k] + nodes[k + 1..], Unlinked(nodes, pads, k))
      == SkyOf(nodes, pads)[..k] + SkyOf(nodes, pads)[k + 1..]
  {
    var ns := nodes[..k] + nodes[k + 1..];
    var p := Unlinked(nodes, pads, k);
    UnlinkedLinks(nodes, pads, k);
    UnlinkedNodes(nodes, pads, k);
    UnlinkedList(nodes, k);
    var sky, sky' := SkyOf(nodes, pads), SkyOf(ns, p);
    SkyOfAt(nodes, pads);
    SkyOfAt(ns, p);
    forall i | 0 <= i < |ns|
      ensures sky'[i] == (sky[..k] + sky[k + 1..])[i]
    {
      if i < k {
        assert GapOf(p[nodes[i]]) == GapOf(pads[nodes[i]]);
      } else {
        assert GapOf(p[nodes[i + 1]]) == GapOf(pads[nodes[i + 1]]);
      }
    }
  }

  /** Where the unlinking leaves each node of the old list. */
  lemma UnlinkedNodes(nodes: seq<int>, pads: seq<ScrapPad>, k: nat)
    requires Linked(nodes, pads) && 0 < k < |nodes|
    ensures var p := Unlinked(nodes, pads, k);
      && |p| == |pads|
      && p[nodes[k - 1]] == pads[nodes[k - 1]].(post := pads[nodes[k]].post)
      && (k + 1 < |nodes| ==> p[nodes[k + 1]] == pads[nodes[k + 1]].(pre := nodes[k - 1]))
      && (forall i :: 0 <= i < |nodes| && i != k - 1 && i != k + 1 ==> p[nodes[i]] == pads[nodes[i]])
  {
    Distinct(nodes, pads);
  }

  /** The list holds a well-formed edge over width px, or, for a layer of no width, its single gap. */
  ghost predicate EdgeOk(nodes: seq<int>, pads: seq<ScrapPad>, px: real)
  {
    && Linked(nodes, pads)
    && (WellFormed(SkyOf(nodes, pads), px) || (px <= 0.0 && SkyOf(nodes, pads) == Initial(px)))
  }

  /** Node j at position k holds the gap of a well-formed edge that a box x wide and z deep, both positive, fits across. */
  ghost predicate GapFits(nodes: seq<int>, pads: seq<ScrapPad>, px: real, k: nat, j: int, x: real, z: real)
  {
    && Linked(nodes, pads) && WellFormed(SkyOf(nodes, pads), px) && k < |nodes| && j == nodes[k]
    && 0.0 < x <= Width(SkyOf(nodes, pads), k) && 0.0 < z
  }

  /** A gap that a box of positive width fits across lies on a well-formed edge: the single gap of a layer of no width has no room. */
  lemma RoomyEdge(nodes: seq<int>, pads: seq<ScrapPad>, px: real, k: nat, x: real)
    requires EdgeOk(nodes, pads, px) && k < |nodes| && 0.0 < x <= Width(SkyOf(nodes, pads), k)
    ensures GapFits(nodes, pads, px, k, nodes[k], x, 1.0)
  {
  }
}
