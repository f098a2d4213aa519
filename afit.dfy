/**
 * The layer packer EB-AFIT as the object it is: one run fills the fields
 * step by step. Initialize lays out one unit per requested copy between two
 * sentinels; ExecuteIterations packs the container in each of its six
 * orientations, starting from each candidate layer thickness, layer by
 * layer, and remembers the best packed volume; Report packs the best
 * arrangement once more and records the packed units in order.
 *
 * A layer is packed along its edge, a doubly linked list of scrap pads held
 * here in an arena (pads) with the ghost list of the reachable nodes
 * (nodes); Sky() is that edge as a value of module Skyline.
 */
module Afit {
  import opened Entities
  import opened StableSort
  import opened Skyline
  import opened ScrapPads
  import opened AfitSpec

  class EbAfit {
    const container: Container
    /** Index 0 and index itemsToPackCount + 1 hold sentinels; the units are 1..itemsToPackCount. */
    var itemsToPack: seq<Item>
    const itemsToPackCount: nat
    /** The units placed while packing the best arrangement, by index, in placement order. */
    var itemsPackedInOrder: seq<int>
    var layers: seq<Layer>

    /** The scrap-pad arena; scrapfirst is pads[Head]. */
    var pads: seq<ScrapPad>
    var smallestZ: int
    ghost var nodes: seq<int>
    /** The units as Initialize laid them out; packing changes placement fields only. */
    ghost const units: seq<Item>

    /** boxi, boxx, boxy, boxz with bfx, bfy, bfz; and bboxi, bboxx, bboxy, bboxz with bbfx, bbfy, bbfz. */
    var best: Fit
    var overflow: Fit

    var evened: bool
    var hundredPercentPacked: bool
    var layerDone: bool
    var packing: bool
    var packingBest: bool

    var bestIteration: int
    var bestPackedItemCount: int
    var bestVariant: int
    var cboxi: int
    var itelayer: int
    var iterationsCount: int
    var layerListLen: int
    var packedItemCount: int
    /** packedItemCount when the units were last unpacked: Report replays without resetting the count. */
    ghost var packedBase: int

    var bestVolume: real
    var cboxx: real
    var cboxy: real
    var cboxz: real
    var layerinlayer: real
    var layerThickness: real
    var lilz: real
    var packedVolume: real
    var packedy: real
    var prelayer: real
    var px: real
    var py: real
    var pz: real
    var remainpy: real
    var remainpz: real
    var totalItemVolume: real
    /** The container volume, as Initialize computes it. */
    const totalContainerVolume: real := container.length * container.height * container.width

    /**
     * Initialize, for a fresh packer: one unit per requested copy, laid out
     * item by item between two sentinels, each carrying its item's id,
     * dimensions and quantity; the volumes of the container and of all
     * units; a single scrap pad; nothing packed and no best yet.
     */
    constructor Initialize(c: Container, items: seq<Item>)
      requires NonNegativeQuantities(items) && PositiveDimensions(items)
      ensures container == c && itemsToPackCount == TotalQuantity(items)
      ensures units == [Sentinel] + UnitsFor(items) + [Sentinel] && itemsToPack == units
      ensures itemsPackedInOrder == [] && layers == []
      ensures totalItemVolume == TotalVolume(itemsToPack, itemsToPackCount)
      ensures Searching() && BestOk() && Best() == Standing(0, 0, 0.0) && bestPackedItemCount == 0
      ensures !hundredPercentPacked && iterationsCount == 0
    {
      container := c;
      units := [Sentinel] + UnitsFor(items) + [Sentinel];
      itemsToPackCount := |UnitsFor(items)|;
      itemsPackedInOrder := [];
      layers := [];
      new;
      Load(items);
      Clear();
    }

    /** Initialize's units and their total volume. */
    method Load(items: seq<Item>)
      requires NonNegativeQuantities(items) && PositiveDimensions(items)
      requires units == [Sentinel] + UnitsFor(items) + [Sentinel] && itemsToPackCount == |UnitsFor(items)|
      modifies this`itemsToPack, this`totalItemVolume
      ensures itemsToPack == units && UnitsMatch(itemsToPack, units, itemsToPackCount)
      ensures forall i :: 0 <= i < |itemsToPack| ==> !itemsToPack[i].isPacked
      ensures totalItemVolume == TotalVolume(itemsToPack, itemsToPackCount)
    {
      LayOut(items);
      UnitsLaidOut(items);
      SumVolumes();
    }

    /** The rest of Initialize: a single scrap pad, nothing packed, no best yet, no iteration done. */
    method Clear()
      requires UnitsMatch(itemsToPack, units, itemsToPackCount) && itemsPackedInOrder == []
      requires forall i :: 0 <= i < |itemsToPack| ==> !itemsToPack[i].isPacked
      modifies this`pads, this`nodes, this`bestVolume, this`bestVariant, this`bestIteration, this`bestPackedItemCount,
        this`packedVolume, this`packedItemCount, this`packedBase, this`packingBest, this`hundredPercentPacked, this`iterationsCount
      ensures Searching() && BestOk() && Best() == Standing(0, 0, 0.0) && bestPackedItemCount == 0
      ensures !hundredPercentPacked && iterationsCount == 0
    {
      ClearTotals();
      ClearEdge();
      hundredPercentPacked, iterationsCount := false, 0;
      SetBest(Standing(0, 0, 0.0), 0);
    }

    /** Nothing packed and the search not yet replaying. */
    method ClearTotals()
      requires forall i :: 0 <= i < |itemsToPack| ==> !itemsToPack[i].isPacked
      requires itemsToPackCount < |itemsToPack| && itemsPackedInOrder == []
      modifies this`packedVolume, this`packedItemCount, this`packedBase, this`packingBest
      ensures Tally() && !packingBest
    {
      packedVolume, packedItemCount, packedBase := 0.0, 0, 0;
      packingBest := false;
      FreshTotals(itemsToPack, itemsToPackCount);
    }

    /** A single scrap pad, at depth 0 and no width. */
    method ClearEdge()
      modifies this`pads, this`nodes
      ensures Single()
    {
      pads, nodes := [ScrapPad(0.0, 0.0, Null, Null)], [Head];
      SinglePad();
    }

    /** Initialize's unit list: a sentinel, one new unit per requested copy, item by item, and a sentinel. */
    method LayOut(items: seq<Item>)
      requires NonNegativeQuantities(items)
      modifies this`itemsToPack
      ensures itemsToPack == [Sentinel] + UnitsFor(items) + [Sentinel]
    {
      itemsToPack := [Sentinel];
      var count := 0;
      for n := 0 to |items|
        invariant NonNegativeQuantities(items[..n])
        invariant itemsToPack == [Sentinel] + UnitsFor(items[..n]) && count == TotalQuantity(items[..n])
      {
        var item := items[n];
        ghost var unit := NewItem(item.id, item.length, item.width, item.height, item.quantity);
        UnitsForSnoc(items, n);
        for i := 1 to item.quantity + 1
          invariant itemsToPack == [Sentinel] + UnitsFor(items[..n]) + Repeat(unit, i - 1)
        {
          itemsToPack := itemsToPack + [NewItem(item.id, item.length, item.width, item.height, item.quantity)];
        }
        count := count + item.quantity;
      }
      assert items[..|items|] == items;
      itemsToPack := itemsToPack + [Sentinel];
    }

    /** Initialize's total item volume: the volumes of units 1..itemsToPackCount, summed. */
    method SumVolumes()
      requires itemsToPackCount < |itemsToPack|
      modifies this`totalItemVolume
      ensures totalItemVolume == TotalVolume(itemsToPack, itemsToPackCount)
    {
      totalItemVolume := 0.0;
      for x := 1 to itemsToPackCount + 1
        invariant totalItemVolume == TotalVolume(itemsToPack, x - 1)
      {
        totalItemVolume := totalItemVolume + itemsToPack[x].Volume();
      }
    }

    /** The unit array matches the units laid out, and the closing sentinel is never packed. */
    ghost predicate Valid()
      reads this`itemsToPack
    {
      UnitsMatch(itemsToPack, units, itemsToPackCount)
    }

    /** The layer edge the scrap pads hold. */
    ghost function Sky(): seq<Gap>
      reads this`nodes, this`pads
    {
      SkyOf(nodes, pads)
    }

    // -------------------------------------------------------------------
    // The three link updates of the edge
    // -------------------------------------------------------------------

    /** Node j, at position k of the edge, gets gap (x, z). */
    method SetGap(ghost k: nat, j: int, x: real, z: real)
      requires Linked(nodes, pads) && k < |nodes| && j == nodes[k]
      modifies this`pads
      ensures pads == WithGap(old(pads), j, x, z)
      ensures Linked(nodes, pads) && Sky() == old(Sky())[k := Gap(x, z)]
    {
      WithGapEffect(nodes, pads, k, x, z);
      pads := pads[j := pads[j].(cumX := x, cumZ := z)];
    }

    /** Node j, at position k > 0, is unlinked; it keeps its own fields. */
    method Unlink(ghost k: nat, j: int)
      requires Linked(nodes, pads) && 0 < k < |nodes| && j == nodes[k]
      modifies this`pads, this`nodes
      ensures nodes == old(nodes[..k] + nodes[k + 1..])
      ensures |pads| == old(|pads|) && pads[j] == old(pads[j])
      ensures Linked(nodes, pads) && Sky() == RemoveGap(old(Sky()), k)
    {
      Ends(nodes, pads, k);
      UnlinkedEffect(nodes, pads, k);
      ghost var expected := Unlinked(nodes, pads, k);
      var q, p := pads[j].pre, pads[j].post;
      pads := pads[q := pads[q].(post := p)];
      if p != Null {
        pads := pads[p := pads[p].(pre := q)];
      }
      assert pads == expected;
      nodes := nodes[..k] + nodes[k + 1..];
    }

    /** A new node holding gap (x, z) is linked in after node j, at position k. */
    method InsertAfter(ghost k: nat, j: int, x: real, z: real)
      requires Linked(nodes, pads) && k < |nodes| && j == nodes[k]
      modifies this`pads, this`nodes
      ensures nodes == old(nodes[..k + 1] + [|pads|] + nodes[k + 1..])
      ensures Linked(nodes, pads) && Sky() == InsertGap(old(Sky()), k, Gap(x, z))
    {
      Ends(nodes, pads, k);
      InsertedEffect(nodes, pads, k, x, z);
      ghost var expected := Inserted(nodes, pads, k, x, z);
      var n := |pads|;
      var p := pads[j].post;
      pads := pads + [ScrapPad(x, z, j, p)];
      pads := pads[j := pads[j].(post := n)];
      if p != Null {
        pads := pads[p := pads[p].(pre := n)];
      }
      assert pads == expected;
      nodes := nodes[..k + 1] + [n] + nodes[k + 1..];
    }

    /**
     * The node at position k and the one after it are unlinked and the node
     * before takes the right end of the second: three gaps become one.
     */
    method MergeThree(ghost k: nat, q: int, j: int, p: int)
      requires Linked(nodes, pads) && 0 < k < |nodes| - 1
      requires q == nodes[k - 1] && j == nodes[k] && p == nodes[k + 1]
      modifies this`pads, this`nodes
      ensures Linked(nodes, pads)
      ensures Sky() == RemoveGap(RemoveGap(old(Sky()), k), k)[k - 1 := Gap(old(Sky())[k + 1].cumX, old(Sky())[k - 1].cumZ)]
    {
      Neighbours(nodes, pads, k);
      var x, z := pads[p].cumX, pads[q].cumZ;
      Unlink(k, j);
      Unlink(k, p);
      SetGap(k - 1, q, x, z);
    }

    /** Gap k is split in two: its right end moves to a new node after it, and it keeps (x, z). */
    method SplitGap(ghost k: nat, j: int, x: real, z: real, x2: real, z2: real)
      requires Linked(nodes, pads) && k < |nodes| && j == nodes[k]
      modifies this`pads, this`nodes
      ensures Linked(nodes, pads)
      ensures Sky() == InsertGap(old(Sky()), k, Gap(x2, z2))[k := Gap(x, z)]
    {
      InsertAfter(k, j, x2, z2);
      SetGap(k, j, x, z);
    }

    /** Node j, at position k > 0, is unlinked and the node q before it takes gap (x, z). */
    method MergeTwo(ghost k: nat, q: int, j: int, x: real, z: real)
      requires Linked(nodes, pads) && 0 < k < |nodes| && q == nodes[k - 1] && j == nodes[k]
      modifies this`pads, this`nodes
      ensures Linked(nodes, pads)
      ensures Sky() == RemoveGap(old(Sky()), k)[k - 1 := Gap(x, z)]
    {
      Unlink(k, j);
      SetGap(k - 1, q, x, z);
    }

    // -------------------------------------------------------------------
    // FindSmallestZ
    // -------------------------------------------------------------------

    /** smallestZ is the first node, from the head, of least depth. */
    method FindSmallestZ()
      requires Linked(nodes, pads)
      modifies this`smallestZ
      ensures smallestZ == nodes[FirstMinZ(Sky())]
    {
      ghost var sky := Sky();
      Neighbours(nodes, pads, 0);
      var scrapmemb := Head;
      smallestZ := scrapmemb;
      ghost var i := 0;
      ghost var k := 0;
      while pads[scrapmemb].post != Null
        invariant 0 <= i < |nodes| && scrapmemb == nodes[i]
        invariant k == FirstMinZ(sky[..i + 1]) && smallestZ == nodes[k] && pads[smallestZ].cumZ == sky[k].cumZ
        decreases |nodes| - i
      {
        Neighbours(nodes, pads, i);
        var next := pads[scrapmemb].post;
        assert next == nodes[i + 1] && pads[next].cumZ == sky[i + 1].cumZ;
        assert sky[..i + 2] == sky[..i + 1] + [sky[i + 1]];
        FirstMinZAppend(sky[..i + 1], sky[i + 1]);
        if pads[next].cumZ < pads[smallestZ].cumZ {
          smallestZ := next;
          k := i + 1;
        }
        scrapmemb := next;
        i := i + 1;
      }
      Neighbours(nodes, pads, i);
      assert sky[..i + 1] == sky;
    }

    // -------------------------------------------------------------------
    // AnalyzeBox and FindBox
    // -------------------------------------------------------------------

    /**
     * Orientation (dim1, dim2, dim3) of unit x is weighed against the space
     * hmx by hmy by hmz: when it fits, it replaces the in-layer fit (no
     * taller than hy) or the overflow fit (taller) exactly when its key is
     * lexicographically smaller.
     */
    method AnalyzeBox(hmx: real, hy: real, hmy: real, hz: real, hmz: real, dim1: real, dim2: real, dim3: real, x: int)
      modifies this`best, this`overflow
      ensures FitsSpace((dim1, dim2, dim3), hmx, hmy, hmz) && dim2 <= hy ==>
        best == Improve(old(best), x, (dim1, dim2, dim3), InLayerKey((dim1, dim2, dim3), hmx, hy, hz)) && overflow == old(overflow)
      ensures FitsSpace((dim1, dim2, dim3), hmx, hmy, hmz) && dim2 > hy ==>
        best == old(best) && overflow == Improve(old(overflow), x, (dim1, dim2, dim3), OverflowKey((dim1, dim2, dim3), hmx, hy, hz))
      ensures !FitsSpace((dim1, dim2, dim3), hmx, hmy, hmz) ==> best == old(best) && overflow == old(overflow)
    {
      if dim1 <= hmx && dim2 <= hmy && dim3 <= hmz {
        if dim2 <= hy {
          if hy - dim2 < best.key.0 {
            best := Fit(x, (dim1, dim2, dim3), (hy - dim2, hmx - dim1, Abs(hz - dim3)));
          } else if hy - dim2 == best.key.0 && hmx - dim1 < best.key.1 {
            best := Fit(x, (dim1, dim2, dim3), (hy - dim2, hmx - dim1, Abs(hz - dim3)));
          } else if hy - dim2 == best.key.0 && hmx - dim1 == best.key.1 && Abs(hz - dim3) < best.key.2 {
            best := Fit(x, (dim1, dim2, dim3), (hy - dim2, hmx - dim1, Abs(hz - dim3)));
          }
        } else {
          if dim2 - hy < overflow.key.0 {
            overflow := Fit(x, (dim1, dim2, dim3), (dim2 - hy, hmx - dim1, Abs(hz - dim3)));
          } else if dim2 - hy == overflow.key.0 && hmx - dim1 < overflow.key.1 {
            overflow := Fit(x, (dim1, dim2, dim3), (dim2 - hy, hmx - dim1, Abs(hz - dim3)));
          } else if dim2 - hy == overflow.key.0 && hmx - dim1 == overflow.key.1 && Abs(hz - dim3) < overflow.key.2 {
            overflow := Fit(x, (dim1, dim2, dim3), (dim2 - hy, hmx - dim1, Abs(hz - dim3)));
          }
        }
      }
    }

    /**
     * Orientation o of unit x, in FindBox's order, weighed by AnalyzeBox:
     * neither fit gets worse, both stay well formed, and each is now no worse
     * than the orientations of x up to o that fit its slot.
     */
    method AnalyzeOrientation(hmx: real, hy: real, hmy: real, hz: real, hmz: real, x: int, o: int)
      requires itemsToPackCount < |itemsToPack| && 1 <= x <= itemsToPackCount && !itemsToPack[x].isPacked && 0 <= o < 6
      requires FitOk(itemsToPack, itemsToPackCount, best, hmx, hy, hmy, hz, hmz, true)
      requires FitOk(itemsToPack, itemsToPackCount, overflow, hmx, hy, hmy, hz, hmz, false)
      requires Covered(itemsToPack[x], best.key, hmx, hy, hmy, hz, hmz, true, o)
      requires Covered(itemsToPack[x], overflow.key, hmx, hy, hmy, hz, hmz, false, o)
      modifies this`best, this`overflow
      ensures FitOk(itemsToPack, itemsToPackCount, best, hmx, hy, hmy, hz, hmz, true)
      ensures FitOk(itemsToPack, itemsToPackCount, overflow, hmx, hy, hmy, hz, hmz, false)
      ensures !LexLess(old(best).key, best.key) && !LexLess(old(overflow).key, overflow.key)
      ensures Covered(itemsToPack[x], best.key, hmx, hy, hmy, hz, hmz, true, o + 1)
      ensures Covered(itemsToPack[x], overflow.key, hmx, hy, hmy, hz, hmz, false, o + 1)
      ensures KeptOrTaken(old(best), best, x) && KeptOrTaken(old(overflow), overflow, x)
    {
      ghost var s := itemsToPack;
      ghost var b, v := best, overflow;
      assert s[x] == itemsToPack[x];
      var d := BoxOrientation(itemsToPack[x], o);
      AnalyzeBox(hmx, hy, hmy, hz, hmz, d.0, d.1, d.2, x);
      AnalyzeStep(s, itemsToPackCount, x, o, b, best, v, overflow, hmx, hy, hmy, hz, hmz);
    }

    /**
     * The orientations of unit x FindBox weighs: all six, or only the first
     * for a cube. Afterwards neither fit is worse than before, and each is no
     * worse than every orientation of x that fits its slot.
     */
    method AnalyzeUnit(hmx: real, hy: real, hmy: real, hz: real, hmz: real, x: int)
      requires itemsToPackCount < |itemsToPack| && 1 <= x <= itemsToPackCount && !itemsToPack[x].isPacked
      requires FitOk(itemsToPack, itemsToPackCount, best, hmx, hy, hmy, hz, hmz, true)
      requires FitOk(itemsToPack, itemsToPackCount, overflow, hmx, hy, hmy, hz, hmz, false)
      modifies this`best, this`overflow
      ensures FitOk(itemsToPack, itemsToPackCount, best, hmx, hy, hmy, hz, hmz, true)
      ensures FitOk(itemsToPack, itemsToPackCount, overflow, hmx, hy, hmy, hz, hmz, false)
      ensures !LexLess(old(best).key, best.key) && !LexLess(old(overflow).key, overflow.key)
      ensures Covered(itemsToPack[x], best.key, hmx, hy, hmy, hz, hmz, true, 6)
      ensures Covered(itemsToPack[x], overflow.key, hmx, hy, hmy, hz, hmz, false, 6)
      ensures KeptOrTaken(old(best), best, x) && KeptOrTaken(old(overflow), overflow, x)
    {
      var u := itemsToPack[x];
      ghost var b, v := best, overflow;
      AnalyzeOrientation(hmx, hy, hmy, hz, hmz, x, 0);
      if u.length == u.height && u.height == u.width {
        CoveredCube(u, best.key, hmx, hy, hmy, hz, hmz, true);
        CoveredCube(u, overflow.key, hmx, hy, hmy, hz, hmz, false);
        return;
      }
      ghost var b1, v1 := best, overflow;
      AnalyzeOrientation(hmx, hy, hmy, hz, hmz, x, 1);
      ghost var b2, v2 := best, overflow;
      AnalyzeOrientation(hmx, hy, hmy, hz, hmz, x, 2);
      ghost var b3, v3 := best, overflow;
      AnalyzeOrientation(hmx, hy, hmy, hz, hmz, x, 3);
      ghost var b4, v4 := best, overflow;
      AnalyzeOrientation(hmx, hy, hmy, hz, hmz, x, 4);
      ghost var b5, v5 := best, overflow;
      AnalyzeOrientation(hmx, hy, hmy, hz, hmz, x, 5);
      NotBelowPersists(b.key, b1.key, b2.key);
      NotBelowPersists(b.key, b2.key, b3.key);
      NotBelowPersists(b.key, b3.key, b4.key);
      NotBelowPersists(b.key, b4.key, b5.key);
      NotBelowPersists(b.key, b5.key, best.key);
      NotBelowPersists(v.key, v1.key, v2.key);
      NotBelowPersists(v.key, v2.key, v3.key);
      NotBelowPersists(v.key, v3.key, v4.key);
      NotBelowPersists(v.key, v4.key, v5.key);
      NotBelowPersists(v.key, v5.key, overflow.key);
      KeptOrTakenTransitive(b, b1, b2, x);
      KeptOrTakenTransitive(b, b2, b3, x);
      KeptOrTakenTransitive(b, b3, b4, x);
      KeptOrTakenTransitive(b, b4, b5, x);
      KeptOrTakenTransitive(b, b5, best, x);
      KeptOrTakenTransitive(v, v1, v2, x);
      KeptOrTakenTransitive(v, v2, v3, x);
      KeptOrTakenTransitive(v, v3, v4, x);
      KeptOrTakenTransitive(v, v4, v5, x);
      KeptOrTakenTransitive(v, v5, overflow, x);
    }

    /**
     * The scan over the units of group y: the first unit not yet packed, or
     * y itself when the group has a single unit. The closing sentinel, never
     * packed, stops the scan.
     */
    method FirstUnpacked(y: int) returns (x: int)
      requires |itemsToPack| == itemsToPackCount + 2 && !itemsToPack[itemsToPackCount + 1].isPacked
      requires 1 <= y <= itemsToPackCount
      ensures y <= x <= itemsToPackCount + 1
      ensures forall i :: y <= i < x ==> itemsToPack[i].isPacked
      ensures itemsToPack[y].quantity <= 1 ==> x == y
      ensures itemsToPack[y].quantity > 1 ==> !itemsToPack[x].isPacked
    {
      x := y;
      while x < x + itemsToPack[y].quantity - 1
        invariant y <= x <= itemsToPackCount + 1
        invariant forall i :: y <= i < x ==> itemsToPack[i].isPacked
        invariant itemsToPack[y].quantity <= 1 ==> x == y
        decreases itemsToPackCount + 1 - x
      {
        if !itemsToPack[x].isPacked {
          return;
        }
        x := x + 1;
      }
    }

    /**
     * The best unpacked unit and orientation for the gap: hmx wide, hmz deep
     * at most, hz the depth to match, within the layer thickness hy or, as
     * the overflow fit, above it but within hmy. Each fit is none, or an
     * unpacked unit turned to fit its slot, and no orientation of any
     * unpacked unit that fits the slot has a smaller key. A tie goes to the
     * earliest unit: every unpacked unit before a fit's own has only larger
     * keys in that slot.
     */
    method FindBox(hmx: real, hy: real, hmy: real, hz: real, hmz: real)
      requires |itemsToPack| == itemsToPackCount + 2 && !itemsToPack[itemsToPackCount + 1].isPacked
      requires Groups(itemsToPack, itemsToPackCount, 1)
      modifies this`best, this`overflow
      ensures FitOk(itemsToPack, itemsToPackCount, best, hmx, hy, hmy, hz, hmz, true)
      ensures FitOk(itemsToPack, itemsToPackCount, overflow, hmx, hy, hmy, hz, hmz, false)
      ensures Dominates(itemsToPack, itemsToPackCount, best.key, hmx, hy, hmy, hz, hmz, true, itemsToPackCount + 1)
      ensures Dominates(itemsToPack, itemsToPackCount, overflow.key, hmx, hy, hmy, hz, hmz, false, itemsToPackCount + 1)
      ensures FirstOfKey(itemsToPack, itemsToPackCount, best, hmx, hy, hmy, hz, hmz, true)
      ensures FirstOfKey(itemsToPack, itemsToPackCount, overflow, hmx, hy, hmy, hz, hmz, false)
    {
      ghost var s := itemsToPack;
      ghost var count := itemsToPackCount;
      best := best.(index := 0, key := KeyLimit);
      overflow := overflow.(index := 0, key := KeyLimit);
      ScannedStart(s, count, best, overflow, hmx, hy, hmy, hz, hmz);
      var y := 1;
      while y <= itemsToPackCount
        invariant 1 <= y <= count + 1
        invariant Groups(s, count, y)
        invariant Scanned(s, count, best, overflow, hmx, hy, hmy, hz, hmz, y)
        decreases count + 1 - y
      {
        GroupAt(s, count, y);
        var done := ScanGroup(hmx, hy, hmy, hz, hmz, y);
        if done {
          return;
        }
        y := y + itemsToPack[y].quantity;
      }
    }

    /**
     * One pass of FindBox's outer loop: the first unpacked unit of group y
     * is weighed. The scan is done when that unit is the closing sentinel.
     */
    method ScanGroup(hmx: real, hy: real, hmy: real, hz: real, hmz: real, y: int) returns (done: bool)
      requires |itemsToPack| == itemsToPackCount + 2 && !itemsToPack[itemsToPackCount + 1].isPacked
      requires 1 <= y <= itemsToPackCount
      requires 1 <= itemsToPack[y].quantity && y + itemsToPack[y].quantity <= itemsToPackCount + 1
      requires forall i :: y <= i < y + itemsToPack[y].quantity ==> itemsToPack[i].Dims() == itemsToPack[y].Dims()
      requires Scanned(itemsToPack, itemsToPackCount, best, overflow, hmx, hy, hmy, hz, hmz, y)
      modifies this`best, this`overflow
      ensures done ==> Scanned(itemsToPack, itemsToPackCount, best, overflow, hmx, hy, hmy, hz, hmz, itemsToPackCount + 1)
      ensures !done ==> Scanned(itemsToPack, itemsToPackCount, best, overflow, hmx, hy, hmy, hz, hmz, y + itemsToPack[y].quantity)
    {
      ghost var s := itemsToPack;
      ghost var count := itemsToPackCount;
      ghost var q := itemsToPack[y].quantity;
      assert forall i :: y <= i < y + q ==> s[i].Dims() == s[y].Dims();
      var x := FirstUnpacked(y);
      ghost var b, v := best, overflow;
      done := false;
      if !itemsToPack[x].isPacked {
        if x > itemsToPackCount {
          assert forall i :: y <= i <= count ==> s[i].isPacked;
          ScannedRest(s, count, best, overflow, hmx, hy, hmy, hz, hmz, y);
          return true;
        }
        AnalyzeUnit(hmx, hy, hmy, hz, hmz, x);
      }
      ScannedStep(s, count, b, v, best, overflow, hmx, hy, hmy, hz, hmz, y, q, x);
    }

    // -------------------------------------------------------------------
    // CheckFound
    // -------------------------------------------------------------------

    /**
     * The evening step: no box fits gap k, which is merged into a neighbour
     * by relinking the list.
     */
    method EvenOut(ghost k: nat)
      requires Linked(nodes, pads) && 1 < |nodes| && k < |nodes| && smallestZ == nodes[k]
      modifies this`pads, this`nodes
      ensures Linked(nodes, pads) && Sky() == Even(old(Sky()), k)
    {
      Neighbours(nodes, pads, k);
      EvenSteps(Sky(), k);
      if pads[smallestZ].pre == Null {
        var p := pads[smallestZ].post;
        SetGap(0, smallestZ, pads[p].cumX, pads[p].cumZ);
        Unlink(1, p);
      } else if pads[smallestZ].post == Null {
        var q := pads[smallestZ].pre;
        MergeTwo(k, q, smallestZ, pads[smallestZ].cumX, pads[q].cumZ);
      } else {
        var q, p := pads[smallestZ].pre, pads[smallestZ].post;
        if pads[q].cumZ == pads[p].cumZ {
          MergeThree(k, q, smallestZ, p);
        } else {
          var x, z := pads[smallestZ].cumX, pads[q].cumZ;
          var shallowerLeft := z < pads[p].cumZ;
          Unlink(k, smallestZ);
          if shallowerLeft {
            SetGap(k - 1, q, x, z);
          }
        }
      }
    }

    /**
     * CheckFound at gap k, given the fits FindBox offered for it: the fit
     * within the layer is taken when there is one; otherwise the overflow
     * fit, raising the layer to its height, when the layer is already raised
     * or the edge is a single gap; otherwise the layer is done when the edge
     * is a single gap, and the gap is evened out when not.
     */
    method Decide(ghost k: nat, ghost before: LayerState)
      requires Packing() && !layerDone && k < |nodes| && smallestZ == nodes[k] && State() == before
      requires FitsGap(itemsToPack, itemsToPackCount, best, Width(Sky(), k), layerThickness, true)
      requires FitsGap(itemsToPack, itemsToPackCount, overflow, Width(Sky(), k), layerThickness, false)
      modifies this`evened, this`cboxi, this`cboxx, this`cboxy, this`cboxz,
        this`prelayer, this`lilz, this`layerinlayer, this`layerThickness, this`layerDone, this`pads, this`nodes
      ensures Packing() && Decided(k, before, Found())
      ensures Found() == CheckFoundRule(best.index, overflow.index, old(layerinlayer), |old(nodes)| == 1)
      ensures Found() == LayerDone <==> best.index == 0 && overflow.index <= 0 && |old(nodes)| == 1
      ensures Found() == Boxed ==> cboxi == TakenFit(best, overflow).index && (cboxx, cboxy, cboxz) == TakenFit(best, overflow).dims
      ensures Found() == Boxed && best.index == 0 ==>
        layerThickness == overflow.dims.1 && layerinlayer == old(layerinlayer) + overflow.dims.1 - old(layerThickness)
      ensures Sky() == if Found() == Evened then Even(old(Sky()), k) else old(Sky())
    {
      Ends(nodes, pads, k);
      assert |nodes| == 1 <==> pads[smallestZ].pre == Null && pads[smallestZ].post == Null;
      if best.index != 0 {
        TakeBestFit(k, before);
      } else if overflow.index > 0 && (layerinlayer != 0.0 || (pads[smallestZ].pre == Null && pads[smallestZ].post == Null)) {
        TakeOverflowFit(k, before);
      } else if pads[smallestZ].pre == Null && pads[smallestZ].post == Null {
        FinishLayer(k, before);
      } else {
        EvenGap(k, before);
      }
    }

    /** CheckFound as a pass of PackLayer's loop relies on it: one of the three outcomes, the state consistent. */
    method CheckFound(ghost k: nat, ghost before: LayerState)
      requires Packing() && !layerDone && k < |nodes| && smallestZ == nodes[k] && State() == before
      requires FitsGap(itemsToPack, itemsToPackCount, best, Width(Sky(), k), layerThickness, true)
      requires FitsGap(itemsToPack, itemsToPackCount, overflow, Width(Sky(), k), layerThickness, false)
      modifies this`evened, this`cboxi, this`cboxx, this`cboxy, this`cboxz,
        this`prelayer, this`lilz, this`layerinlayer, this`layerThickness, this`layerDone, this`pads, this`nodes
      ensures Packing() && Decided(k, before, Found())
    {
      Decide(k, before);
    }

    /** The fit within the layer is chosen: a box for gap k, the state kept. */
    method TakeBestFit(ghost k: nat, ghost before: LayerState)
      requires Packing() && !layerDone && k < |nodes| && smallestZ == nodes[k] && State() == before && best.index != 0
      requires FitsGap(itemsToPack, itemsToPackCount, best, Width(Sky(), k), layerThickness, true)
      modifies this`evened, this`cboxi, this`cboxx, this`cboxy, this`cboxz
      ensures Packing() && Decided(k, before, Found())
      ensures Found() == Boxed && cboxi == best.index && (cboxx, cboxy, cboxz) == best.dims
    {
      ghost var sky := Sky();
      ChooseFit(best);
      assert Sky() == sky;
    }

    /** The box chosen is fit f's unit, turned as f says, and the gap is not evened out. */
    method ChooseFit(f: Fit)
      modifies this`evened, this`cboxi, this`cboxx, this`cboxy, this`cboxz
      ensures cboxi == f.index && (cboxx, cboxy, cboxz) == f.dims && !evened
    {
      evened := false;
      cboxi := f.index;
      cboxx, cboxy, cboxz := f.dims.0, f.dims.1, f.dims.2;
    }

    /**
     * The overflow fit is chosen and the layer raised to its height: a box
     * for gap k, the state kept.
     */
    method TakeOverflowFit(ghost k: nat, ghost before: LayerState)
      requires Packing() && !layerDone && k < |nodes| && smallestZ == nodes[k] && State() == before && overflow.index > 0
      requires FitsGap(itemsToPack, itemsToPackCount, overflow, Width(Sky(), k), layerThickness, false)
      modifies this`evened, this`cboxi, this`cboxx, this`cboxy, this`cboxz, this`prelayer, this`lilz,
        this`layerinlayer, this`layerThickness
      ensures Packing() && Decided(k, before, Found())
      ensures Found() == Boxed && cboxi == overflow.index && (cboxx, cboxy, cboxz) == overflow.dims
      ensures layerThickness == overflow.dims.1 && layerinlayer == old(layerinlayer) + overflow.dims.1 - old(layerThickness)
    {
      ghost var sky := Sky();
      RaiseLayer(overflow);
      assert Sky() == sky;
      assert Keeps(before, State()) && Chosen(k);
    }

    /**
     * Fit f is chosen and the layer raised to its height, layerinlayer
     * growing by as much; the first raise remembers the layer it interrupts
     * and the depth of the gap of least depth.
     */
    method RaiseLayer(f: Fit)
      requires 0 <= smallestZ < |pads|
      modifies this`evened, this`cboxi, this`cboxx, this`cboxy, this`cboxz, this`prelayer, this`lilz,
        this`layerinlayer, this`layerThickness
      ensures cboxi == f.index && (cboxx, cboxy, cboxz) == f.dims && !evened
      ensures layerinlayer == old(layerinlayer) + f.dims.1 - old(layerThickness) && layerThickness == f.dims.1
      ensures old(layerinlayer) == 0.0 ==> prelayer == old(layerThickness) && lilz == pads[smallestZ].cumZ
      ensures old(layerinlayer) != 0.0 ==> prelayer == old(prelayer) && lilz == old(lilz)
    {
      if layerinlayer == 0.0 {
        prelayer := layerThickness;
        lilz := pads[smallestZ].cumZ;
      }
      ChooseFit(f);
      layerinlayer := layerinlayer + f.dims.1 - layerThickness;
      layerThickness := f.dims.1;
    }

    /** No box fits the edge's single gap: the layer is done, the state kept. */
    method FinishLayer(ghost k: nat, ghost before: LayerState)
      requires Packing() && |nodes| == 1 && State() == before
      modifies this`evened, this`layerDone
      ensures Packing() && Decided(k, before, Found())
      ensures layerDone && !evened && Found() == LayerDone
    {
      evened, layerDone := false, true;
    }

    /** Gap k, for which no box fits, is evened out: the edge is shorter and stays well formed. */
    method EvenGap(ghost k: nat, ghost before: LayerState)
      requires Packing() && !layerDone && 1 < |nodes| && k < |nodes| && smallestZ == nodes[k] && State() == before
      modifies this`evened, this`pads, this`nodes
      ensures Packing() && Decided(k, before, Found())
      ensures Found() == Evened && Sky() == Even(old(Sky()), k)
    {
      evened := true;
      ghost var sky := Sky();
      EvenOut(k);
      EvenShrinks(sky, k);
      if WellFormed(sky, px) {
        EvenWellFormed(sky, px, k);
      }
    }

    // -------------------------------------------------------------------
    // Placing the chosen box (PackLayer's five situations)
    // -------------------------------------------------------------------

    /** Situation 1: the edge is one gap. */
    method Situation1Edge() returns (coordLength: real)
      requires Linked(nodes, pads) && |nodes| == 1 && smallestZ == nodes[0]
      modifies this`pads, this`nodes
      ensures Linked(nodes, pads)
      ensures Placement(Sky(), coordLength) == Situation1(old(Sky()), cboxx, cboxz)
    {
      Neighbours(nodes, pads, 0);
      ghost var sky := Sky();
      Situation1Steps(sky, cboxx, cboxz);
      var s := pads[smallestZ];
      coordLength := 0.0;
      if cboxx == s.cumX {
        SetGap(0, smallestZ, s.cumX, s.cumZ + cboxz);
        assert Placement(Sky(), coordLength) == Situation1(sky, cboxx, cboxz);
      } else {
        SplitGap(0, smallestZ, cboxx, s.cumZ + cboxz, s.cumX, s.cumZ);
        assert Placement(Sky(), coordLength) == Situation1(sky, cboxx, cboxz);
      }
    }

    /** Situation 2: the gap is the first of several. */
    method Situation2Edge() returns (coordLength: real)
      requires Linked(nodes, pads) && |nodes| > 1 && smallestZ == nodes[0]
      modifies this`pads, this`nodes
      ensures Linked(nodes, pads)
      ensures Placement(Sky(), coordLength) == Situation2(old(Sky()), cboxx, cboxz)
    {
      Neighbours(nodes, pads, 0);
      if cboxx == pads[smallestZ].cumX {
        coordLength := Situation2Whole();
      } else {
        coordLength := Situation2Part();
      }
    }

    /** Situation 2 with a box as wide as the gap. */
    method Situation2Whole() returns (coordLength: real)
      requires Linked(nodes, pads) && |nodes| > 1 && smallestZ == nodes[0]
      requires cboxx == pads[smallestZ].cumX
      modifies this`pads, this`nodes
      ensures Linked(nodes, pads)
      ensures Placement(Sky(), coordLength) == Situation2(old(Sky()), cboxx, cboxz)
    {
      Neighbours(nodes, pads, 0);
      ghost var sky := Sky();
      Situation2Steps(sky, cboxx, cboxz);
      var s := pads[smallestZ];
      var p := pads[s.post];
      assert sky[0] == GapOf(s) && sky[1] == GapOf(p);
      coordLength := 0.0;
      if s.cumZ + cboxz == p.cumZ {
        SetGap(0, smallestZ, p.cumX, p.cumZ);
        Unlink(1, s.post);
        assert Placement(Sky(), coordLength) == Situation2(sky, cboxx, cboxz);
      } else {
        SetGap(0, smallestZ, s.cumX, s.cumZ + cboxz);
        assert Placement(Sky(), coordLength) == Situation2(sky, cboxx, cboxz);
      }
    }

    /** Situation 2 with a narrower box, which goes at the gap's right end. */
    method Situation2Part() returns (coordLength: real)
      requires Linked(nodes, pads) && |nodes| > 1 && smallestZ == nodes[0]
      requires cboxx != pads[smallestZ].cumX
      modifies this`pads, this`nodes
      ensures Linked(nodes, pads)
      ensures Placement(Sky(), coordLength) == Situation2(old(Sky()), cboxx, cboxz)
    {
      Neighbours(nodes, pads, 0);
      ghost var sky := Sky();
      Situation2Steps(sky, cboxx, cboxz);
      var s := pads[smallestZ];
      var p := pads[s.post];
      assert sky[0] == GapOf(s) && sky[1] == GapOf(p);
      coordLength := s.cumX - cboxx;
      if s.cumZ + cboxz == p.cumZ {
        SetGap(0, smallestZ, s.cumX - cboxx, s.cumZ);
        assert Placement(Sky(), coordLength) == Situation2(sky, cboxx, cboxz);
      } else {
        SplitGap(0, smallestZ, s.cumX - cboxx, s.cumZ, s.cumX, s.cumZ + cboxz);
        assert Placement(Sky(), coordLength) == Situation2(sky, cboxx, cboxz);
      }
    }

    /** Situation 3: the gap is the last of several. */
    method Situation3Edge(ghost k: nat) returns (coordLength: real)
      requires Linked(nodes, pads) && 0 < k == |nodes| - 1 && smallestZ == nodes[k]
      modifies this`pads, this`nodes
      ensures Linked(nodes, pads)
      ensures Placement(Sky(), coordLength) == Situation3(old(Sky()), k, cboxx, cboxz)
    {
      Neighbours(nodes, pads, k);
      ghost var sky := Sky();
      Situation3Steps(sky, k, cboxx, cboxz);
      var s := pads[smallestZ];
      var qi := s.pre;
      var q := pads[qi];
      assert sky[k - 1] == GapOf(q) && sky[k] == GapOf(s);
      coordLength := q.cumX;
      if cboxx == s.cumX - q.cumX {
        if s.cumZ + cboxz == q.cumZ {
          MergeTwo(k, qi, smallestZ, s.cumX, q.cumZ);
          assert Placement(Sky(), coordLength) == Situation3(sky, k, cboxx, cboxz);
        } else {
          SetGap(k, smallestZ, s.cumX, s.cumZ + cboxz);
          assert Sky() == sky[k := Gap(s.cumX, s.cumZ + cboxz)];
          assert Placement(Sky(), coordLength) == Situation3(sky, k, cboxx, cboxz);
        }
      } else {
        if s.cumZ + cboxz == q.cumZ {
          SetGap(k - 1, qi, q.cumX + cboxx, q.cumZ);
          assert Sky() == sky[k - 1 := Gap(q.cumX + cboxx, q.cumZ)];
          assert Placement(Sky(), coordLength) == Situation3(sky, k, cboxx, cboxz);
        } else {
          InsertAfter(k - 1, qi, q.cumX + cboxx, s.cumZ + cboxz);
          assert Sky() == InsertGap(sky, k - 1, Gap(q.cumX + cboxx, s.cumZ + cboxz));
          assert Placement(Sky(), coordLength) == Situation3(sky, k, cboxx, cboxz);
        }
      }
    }

    /** Sub-situation 4A: a middle gap whose neighbours have equal depth. */
    method Situation4AEdge(ghost k: nat) returns (coordLength: real)
      requires Linked(nodes, pads) && 0 < k < |nodes| - 1 && smallestZ == nodes[k]
      modifies this`pads, this`nodes
      ensures Linked(nodes, pads)
      ensures Placement(Sky(), coordLength) == Situation4A(old(Sky()), k, px, cboxx, cboxz)
    {
      Neighbours(nodes, pads, k);
      var s := pads[smallestZ];
      var q := pads[s.pre];
      if cboxx == s.cumX - q.cumX {
        coordLength := Situation4AWhole(k);
      } else if q.cumX < px - s.cumX {
        coordLength := Situation4ARight(k);
      } else {
        coordLength := Situation4ALeft(k);
      }
    }

    /** Sub-situation 4A with a box as wide as the gap. */
    method Situation4AWhole(ghost k: nat) returns (coordLength: real)
      requires Linked(nodes, pads) && 0 < k < |nodes| - 1 && smallestZ == nodes[k]
      requires cboxx == pads[smallestZ].cumX - pads[nodes[k - 1]].cumX
      modifies this`pads, this`nodes
      ensures Linked(nodes, pads)
      ensures Placement(Sky(), coordLength) == Situation4A(old(Sky()), k, px, cboxx, cboxz)
    {
      Neighbours(nodes, pads, k);
      ghost var sky := Sky();
      Situation4ASteps(sky, k, px, cboxx, cboxz);
      var s := pads[smallestZ];
      var qi, pi := s.pre, s.post;
      var q, p := pads[qi], pads[pi];
      assert sky[k - 1] == GapOf(q) && sky[k] == GapOf(s) && sky[k + 1] == GapOf(p);
      coordLength := q.cumX;
      if s.cumZ + cboxz == p.cumZ {
        MergeThree(k, qi, smallestZ, pi);
        assert Placement(Sky(), coordLength) == Situation4A(sky, k, px, cboxx, cboxz);
      } else {
        SetGap(k, smallestZ, s.cumX, s.cumZ + cboxz);
        assert Sky() == sky[k := Gap(s.cumX, s.cumZ + cboxz)];
        assert Placement(Sky(), coordLength) == Situation4A(sky, k, px, cboxx, cboxz);
      }
    }

    /** Sub-situation 4A, a narrower box nearer the right wall: it goes at the gap's right end. */
    method Situation4ARight(ghost k: nat) returns (coordLength: real)
      requires Linked(nodes, pads) && 0 < k < |nodes| - 1 && smallestZ == nodes[k]
      requires cboxx != pads[smallestZ].cumX - pads[nodes[k - 1]].cumX
      requires pads[nodes[k - 1]].cumX < px - pads[smallestZ].cumX
      modifies this`pads, this`nodes
      ensures Linked(nodes, pads)
      ensures Placement(Sky(), coordLength) == Situation4A(old(Sky()), k, px, cboxx, cboxz)
    {
      Neighbours(nodes, pads, k);
      ghost var sky := Sky();
      Situation4ASteps(sky, k, px, cboxx, cboxz);
      var s := pads[smallestZ];
      var qi := s.pre;
      var q := pads[qi];
      assert sky[k - 1] == GapOf(q) && sky[k] == GapOf(s);
      if s.cumZ + cboxz == q.cumZ {
        SetGap(k, smallestZ, s.cumX - cboxx, s.cumZ);
        assert Sky() == sky[k := Gap(s.cumX - cboxx, s.cumZ)];
        coordLength := pads[smallestZ].cumX - cboxx;
        assert Placement(Sky(), coordLength) == Situation4A(sky, k, px, cboxx, cboxz);
      } else {
        coordLength := q.cumX;
        InsertAfter(k - 1, qi, q.cumX + cboxx, s.cumZ + cboxz);
        assert Sky() == InsertGap(sky, k - 1, Gap(q.cumX + cboxx, s.cumZ + cboxz));
        assert Placement(Sky(), coordLength) == Situation4A(sky, k, px, cboxx, cboxz);
      }
    }

    /** Sub-situation 4A, a narrower box nearer the left wall: it goes at the gap's left end. */
    method Situation4ALeft(ghost k: nat) returns (coordLength: real)
      requires Linked(nodes, pads) && 0 < k < |nodes| - 1 && smallestZ == nodes[k]
      requires cboxx != pads[smallestZ].cumX - pads[nodes[k - 1]].cumX
      requires !(pads[nodes[k - 1]].cumX < px - pads[smallestZ].cumX)
      modifies this`pads, this`nodes
      ensures Linked(nodes, pads)
      ensures Placement(Sky(), coordLength) == Situation4A(old(Sky()), k, px, cboxx, cboxz)
    {
      Neighbours(nodes, pads, k);
      ghost var sky := Sky();
      Situation4ASteps(sky, k, px, cboxx, cboxz);
      var s := pads[smallestZ];
      var qi := s.pre;
      var q := pads[qi];
      assert sky[k - 1] == GapOf(q) && sky[k] == GapOf(s);
      if s.cumZ + cboxz == q.cumZ {
        SetGap(k - 1, qi, q.cumX + cboxx, q.cumZ);
        assert Sky() == sky[k - 1 := Gap(q.cumX + cboxx, q.cumZ)];
        coordLength := pads[qi].cumX;
        assert Placement(Sky(), coordLength) == Situation4A(sky, k, px, cboxx, cboxz);
      } else {
        coordLength := s.cumX - cboxx;
        SplitGap(k, smallestZ, s.cumX - cboxx, s.cumZ, s.cumX, s.cumZ + cboxz);
        assert Placement(Sky(), coordLength) == Situation4A(sky, k, px, cboxx, cboxz);
      }
    }

    /** Sub-situation 4B: a middle gap whose neighbours differ in depth. */
    method Situation4BEdge(ghost k: nat) returns (coordLength: real)
      requires Linked(nodes, pads) && 0 < k < |nodes| - 1 && smallestZ == nodes[k]
      modifies this`pads, this`nodes
      ensures Linked(nodes, pads)
      ensures Placement(Sky(), coordLength) == Situation4B(old(Sky()), k, cboxx, cboxz)
    {
      Neighbours(nodes, pads, k);
      ghost var sky := Sky();
      Situation4BSteps(sky, k, cboxx, cboxz);
      var s := pads[smallestZ];
      var qi := s.pre;
      var q := pads[qi];
      assert sky[k - 1] == GapOf(q) && sky[k] == GapOf(s);
      coordLength := q.cumX;
      if cboxx == s.cumX - q.cumX {
        if s.cumZ + cboxz == q.cumZ {
          MergeTwo(k, qi, smallestZ, s.cumX, q.cumZ);
          assert Placement(Sky(), coordLength) == Situation4B(sky, k, cboxx, cboxz);
        } else {
          SetGap(k, smallestZ, s.cumX, s.cumZ + cboxz);
          assert Sky() == sky[k := Gap(s.cumX, s.cumZ + cboxz)];
          assert Placement(Sky(), coordLength) == Situation4B(sky, k, cboxx, cboxz);
        }
      } else {
        coordLength := Situation4BPart(k);
      }
    }

    /** Sub-situation 4B with a box narrower than the gap. */
    method Situation4BPart(ghost k: nat) returns (coordLength: real)
      requires Linked(nodes, pads) && 0 < k < |nodes| - 1 && smallestZ == nodes[k]
      requires cboxx != pads[smallestZ].cumX - pads[nodes[k - 1]].cumX
      modifies this`pads, this`nodes
      ensures Linked(nodes, pads)
      ensures Placement(Sky(), coordLength) == Situation4B(old(Sky()), k, cboxx, cboxz)
    {
      Neighbours(nodes, pads, k);
      ghost var sky := Sky();
      Situation4BSteps(sky, k, cboxx, cboxz);
      var s := pads[smallestZ];
      var qi := s.pre;
      var q := pads[qi];
      assert sky[k - 1] == GapOf(q) && sky[k] == GapOf(s);
      if s.cumZ + cboxz == q.cumZ {
        coordLength := q.cumX;
        SetGap(k - 1, qi, q.cumX + cboxx, q.cumZ);
        assert Sky() == sky[k - 1 := Gap(q.cumX + cboxx, q.cumZ)];
        assert Placement(Sky(), coordLength) == Situation4B(sky, k, cboxx, cboxz);
      } else {
        coordLength := Situation4BUnlevel(k);
      }
    }

    /** Sub-situation 4B, a narrower box that does not bring the gap level with its left neighbour. */
    method Situation4BUnlevel(ghost k: nat) returns (coordLength: real)
      requires Linked(nodes, pads) && 0 < k < |nodes| - 1 && smallestZ == nodes[k]
      requires cboxx != pads[smallestZ].cumX - pads[nodes[k - 1]].cumX
      requires pads[smallestZ].cumZ + cboxz != pads[nodes[k - 1]].cumZ
      modifies this`pads, this`nodes
      ensures Linked(nodes, pads)
      ensures Placement(Sky(), coordLength) == Situation4B(old(Sky()), k, cboxx, cboxz)
    {
      Neighbours(nodes, pads, k);
      ghost var sky := Sky();
      Situation4BSteps(sky, k, cboxx, cboxz);
      var s := pads[smallestZ];
      var qi, pi := s.pre, s.post;
      var q, p := pads[qi], pads[pi];
      assert sky[k - 1] == GapOf(q) && sky[k] == GapOf(s) && sky[k + 1] == GapOf(p);
      if s.cumZ + cboxz == p.cumZ {
        coordLength := s.cumX - cboxx;
        SetGap(k, smallestZ, s.cumX - cboxx, s.cumZ);
        assert Sky() == sky[k := Gap(s.cumX - cboxx, s.cumZ)];
        assert Placement(Sky(), coordLength) == Situation4B(sky, k, cboxx, cboxz);
      } else {
        coordLength := q.cumX;
        InsertAfter(k - 1, qi, q.cumX + cboxx, s.cumZ + cboxz);
        assert Sky() == InsertGap(sky, k - 1, Gap(q.cumX + cboxx, s.cumZ + cboxz));
        assert Placement(Sky(), coordLength) == Situation4B(sky, k, cboxx, cboxz);
      }
    }

    /**
     * The chosen box goes into gap k: the edge becomes the placement's and
     * the unit's coordinates are set, x from the placement, y at the packed
     * height and z at the gap's depth.
     */
    method PlaceBox(ghost k: nat)
      requires Linked(nodes, pads) && WellFormed(Sky(), px) && k < |nodes| && smallestZ == nodes[k]
      requires 0.0 < cboxx <= Width(Sky(), k) && 0.0 < cboxz
      requires 1 <= cboxi < |itemsToPack|
      modifies this`pads, this`nodes, this`itemsToPack
      ensures Linked(nodes, pads) && WellFormed(Sky(), px)
      ensures Sky() == Place(old(Sky()), k, px, cboxx, cboxz).sky
      ensures itemsToPack == old(itemsToPack)[cboxi := old(itemsToPack[cboxi]).(
        coordLength := Place(old(Sky()), k, px, cboxx, cboxz).coordLength,
        coordWidth := packedy, coordHeight := old(Sky())[k].cumZ)]
    {
      ghost var sky := Sky();
      Neighbours(nodes, pads, k);
      var sz := pads[smallestZ];
      var coordLength;
      if sz.pre == Null && sz.post == Null {
        coordLength := Situation1Edge();
      } else if sz.pre == Null {
        coordLength := Situation2Edge();
      } else if sz.post == Null {
        coordLength := Situation3Edge(k);
      } else if pads[sz.pre].cumZ == pads[sz.post].cumZ {
        coordLength := Situation4AEdge(k);
      } else {
        coordLength := Situation4BEdge(k);
      }
      PlaceWellFormed(sky, k, px, cboxx, cboxz);
      itemsToPack := itemsToPack[cboxi := itemsToPack[cboxi].(coordLength := coordLength, coordWidth := packedy, coordHeight := sz.cumZ)];
    }

    // -------------------------------------------------------------------
    // VolumeCheck and OutputBoxList
    // -------------------------------------------------------------------

    /** The placed unit's coordinates and extents are moved to the container's axes, and it joins the packing order. */
    method OutputBoxList()
      requires 1 <= cboxi < |itemsToPack|
      modifies this`itemsToPack, this`itemsPackedInOrder
      ensures itemsToPack == old(itemsToPack)[cboxi := Reoriented(old(itemsToPack[cboxi]), bestVariant)]
      ensures itemsPackedInOrder == old(itemsPackedInOrder) + [cboxi]
    {
      var u := itemsToPack[cboxi];
      var x, y, z, bx, bh, bz := 0.0, 0.0, 0.0, 0.0, 0.0, 0.0;
      if bestVariant == 1 {
        x, y, z, bx, bh, bz := u.coordLength, u.coordWidth, u.coordHeight, u.packLength, u.packWidth, u.packHeight;
      } else if bestVariant == 2 {
        x, y, z, bx, bh, bz := u.coordHeight, u.coordWidth, u.coordLength, u.packHeight, u.packWidth, u.packLength;
      } else if bestVariant == 3 {
        x, y, z, bx, bh, bz := u.coordWidth, u.coordHeight, u.coordLength, u.packWidth, u.packHeight, u.packLength;
      } else if bestVariant == 4 {
        x, y, z, bx, bh, bz := u.coordWidth, u.coordLength, u.coordHeight, u.packWidth, u.packLength, u.packHeight;
      } else if bestVariant == 5 {
        x, y, z, bx, bh, bz := u.coordLength, u.coordHeight, u.coordWidth, u.packLength, u.packHeight, u.packWidth;
      } else if bestVariant == 6 {
        x, y, z, bx, bh, bz := u.coordHeight, u.coordLength, u.coordWidth, u.packHeight, u.packLength, u.packWidth;
      }
      itemsToPack := itemsToPack[cboxi := u.(coordLength := x, coordWidth := y, coordHeight := z, packLength := bx, packHeight := bh, packWidth := bz)];
      itemsPackedInOrder := itemsPackedInOrder + [cboxi];
    }

    /**
     * The placed unit is marked packed with its extents along (px, py, pz)
     * and its volume is added. While packing the best arrangement it is
     * reported; otherwise packing stops when the packed volume equals the
     * container's or that of all units.
     */
    method VolumeCheck()
      requires 1 <= cboxi < |itemsToPack|
      modifies this`itemsToPack, this`packedVolume, this`packedItemCount, this`packing, this`hundredPercentPacked, this`itemsPackedInOrder
      ensures var m := old(itemsToPack[cboxi]).(isPacked := true, packLength := cboxx, packWidth := cboxy, packHeight := cboxz);
        itemsToPack == old(itemsToPack)[cboxi := if packingBest then Reoriented(m, bestVariant) else m]
      ensures packedVolume == old(packedVolume) + old(itemsToPack[cboxi]).Volume()
      ensures packedItemCount == old(packedItemCount) + 1
      ensures packingBest ==>
        itemsPackedInOrder == old(itemsPackedInOrder) + [cboxi]
        && packing == old(packing) && hundredPercentPacked == old(hundredPercentPacked)
      ensures !packingBest ==> itemsPackedInOrder == old(itemsPackedInOrder)
      ensures !packingBest && (packedVolume == totalContainerVolume || packedVolume == totalItemVolume) ==>
        !packing && hundredPercentPacked
      ensures !packingBest && !(packedVolume == totalContainerVolume || packedVolume == totalItemVolume) ==>
        packing == old(packing) && hundredPercentPacked == old(hundredPercentPacked)
    {
      itemsToPack := itemsToPack[cboxi := itemsToPack[cboxi].(isPacked := true, packLength := cboxx, packWidth := cboxy, packHeight := cboxz)];
      packedVolume := packedVolume + itemsToPack[cboxi].Volume();
      packedItemCount := packedItemCount + 1;
      if packingBest {
        OutputBoxList();
      } else if packedVolume == totalContainerVolume || packedVolume == totalItemVolume {
        packing := false;
        hundredPercentPacked := true;
      }
    }
  
    // -------------------------------------------------------------------
    // Layer thicknesses: ListCanditLayers and FindLayer
    // -------------------------------------------------------------------

    /**
     * The evaluation of thickness exdim for unit x: over the units other
     * than x (the unpacked ones only, when asked), the distance from exdim
     * to the nearest of their dimensions, summed.
     */
    method EvaluateThickness(x: int, exdim: real, onlyUnpacked: bool) returns (layereval: real)
      requires itemsToPackCount < |itemsToPack|
      ensures layereval == EvalUpTo(itemsToPack, x, exdim, itemsToPackCount + 1, onlyUnpacked)
    {
      ghost var s := itemsToPack;
      layereval := 0.0;
      for z := 1 to itemsToPackCount + 1
        invariant layereval == EvalUpTo(s, x, exdim, z, onlyUnpacked)
      {
        if x != z && !(onlyUnpacked && itemsToPack[z].isPacked) {
          var u := itemsToPack[z];
          assert u == s[z];
          var dimdif := Abs(exdim - u.length);
          if Abs(exdim - u.width) < dimdif {
            dimdif := Abs(exdim - u.width);
          }
          if Abs(exdim - u.height) < dimdif {
            dimdif := Abs(exdim - u.height);
          }
          layereval := layereval + dimdif;
        }
      }
    }

    /** Whether exdim is already the thickness of one of the entries 1..layerListLen. */
    method AlreadyListed(exdim: real) returns (same: bool)
      requires 0 <= layerListLen < |layers|
      ensures same <==> HasDim(layers[1..layerListLen + 1], exdim)
    {
      same := false;
      for k := 1 to layerListLen + 1
        invariant same <==> exists j :: 1 <= j < k && layers[j].layerDim == exdim
      {
        if exdim == layers[k].layerDim {
          same := true;
        }
      }
      ghost var l := layers[1..layerListLen + 1];
      if same {
        var j :| 1 <= j <= layerListLen && layers[j].layerDim == exdim;
        assert l[j - 1] == layers[j];
      } else {
        forall j | 0 <= j < |l| ensures l[j].layerDim != exdim {
          assert l[j] == layers[j + 1];
        }
      }
    }

    /**
     * The candidate thicknesses: for every unit and each of its three
     * choices whose thickness fits under py and whose footprint fits the
     * floor, a new entry (thickness, evaluation) unless that thickness is
     * already listed. The entries go to indexes 1, 2, ... of the list as it
     * was, one blank being added at its end for each.
     */
    method ListCanditLayers()
      requires itemsToPackCount < |itemsToPack| && |layers| >= 1
      modifies this`layers, this`layerListLen
      ensures Listed(old(layers), 3 * itemsToPackCount)
    {
      ghost var l := layers;
      layerListLen := 0;
      assert Listed(l, 0) by {
        assert Recorded(l, []) == l;
      }
      ghost var t := 0;
      for x := 1 to itemsToPackCount + 1
        invariant t == 3 * (x - 1)
        invariant Listed(l, t)
      {
        ListUnit(l, x, t);
        t := t + 3;
      }
    }

    /** The three choices of unit x in ListCanditLayers, in order. */
    method ListUnit(ghost l: seq<Layer>, x: int, ghost t: nat)
      requires 1 <= x <= itemsToPackCount && t == 3 * (x - 1) && Listed(l, t)
      modifies this`layers, this`layerListLen
      ensures Listed(l, t + 3)
    {
      ListSlot(l, x, 1, t);
      ListSlot(l, x, 2, t + 1);
      ListSlot(l, x, 3, t + 2);
    }

    /** The list holds the entries recorded from the slots before t over the list l it started from. */
    ghost predicate Listed(l: seq<Layer>, t: nat)
      reads this`layers, this`layerListLen, this`itemsToPack, this`px, this`py, this`pz
    {
      ListedOver(layers, layerListLen, itemsToPack, itemsToPackCount, px, py, pz, l, t)
    }

    /** Choice y of unit x in ListCanditLayers: recorded when it fits and its thickness is not listed yet. */
    method ListSlot(ghost l: seq<Layer>, x: int, y: int, ghost t: nat)
      requires 1 <= x <= itemsToPackCount && 1 <= y <= 3 && t == 3 * (x - 1) + (y - 1) && Listed(l, t)
      modifies this`layers, this`layerListLen
      ensures Listed(l, t + 1)
    {
      ghost var s := itemsToPack;
      ghost var prev := CandidatesUpTo(s, itemsToPackCount, px, py, pz, t);
      SlotNumbering(x, y);
      assert s[x] == itemsToPack[x];
      var c := LayerChoice(itemsToPack[x], y);
      if c.0 > py || ((c.1 > px || c.2 > pz) && (c.2 > px || c.1 > pz)) {
        return;
      }
      RecordedEntries(l, prev);
      var same := AlreadyListed(c.0);
      if same {
        return;
      }
      var layereval := EvaluateThickness(x, c.0, false);
      RecordedStep(l, prev, Layer(c.0, layereval));
      layerListLen := layerListLen + 1;
      layers := layers + [Blank];
      layers := layers[layerListLen := Layer(c.0, layereval)];
    }

    /**
     * The thickness of the next layer: among the three choices of every
     * unpacked unit whose thickness is within the given one and whose
     * footprint fits the floor, the first of smallest evaluation, or 0 when
     * there is none. Packing stops when that is 0 or more than is left.
     */
    method FindLayer(thickness: real)
      requires itemsToPackCount < |itemsToPack|
      modifies this`layerThickness, this`packing
      ensures layerThickness == PickUpTo(itemsToPack, itemsToPackCount, thickness, px, pz, 3 * itemsToPackCount).thickness
      ensures packing == (old(packing) && layerThickness != 0.0 && layerThickness <= remainpy)
    {
      layerThickness := 0.0;
      var eval := 1000000.0;
      ghost var t := 0;
      for x := 1 to itemsToPackCount + 1
        invariant t == 3 * (x - 1) && packing == old(packing)
        invariant Picked(thickness, eval, t)
      {
        if itemsToPack[x].isPacked {
          PackedUnitSkipped(itemsToPack, itemsToPackCount, thickness, px, pz, x);
        } else {
          eval := PickUnit(thickness, x, eval, t);
        }
        t := t + 3;
      }
      if layerThickness == 0.0 || layerThickness > remainpy {
        packing := false;
      }
    }

    /** The thickness and evaluation held are the pick over the slots before t. */
    ghost predicate Picked(thickness: real, eval: real, t: nat)
      reads this`layerThickness, this`itemsToPack, this`px, this`pz
    {
      && itemsToPackCount < |itemsToPack| && t <= 3 * itemsToPackCount
      && LayerPick(layerThickness, eval) == PickUpTo(itemsToPack, itemsToPackCount, thickness, px, pz, t)
    }

    /** The three choices of unpacked unit x in FindLayer. */
    method PickUnit(thickness: real, x: int, eval: real, ghost t: nat) returns (eval': real)
      requires 1 <= x <= itemsToPackCount && t == 3 * (x - 1) && Picked(thickness, eval, t)
      requires !itemsToPack[x].isPacked
      modifies this`layerThickness
      ensures Picked(thickness, eval', t + 3)
    {
      eval' := PickSlot(thickness, x, 1, eval, t);
      eval' := PickSlot(thickness, x, 2, eval', t + 1);
      eval' := PickSlot(thickness, x, 3, eval', t + 2);
    }

    /** Choice y of unit x in FindLayer: it becomes the pick when it is eligible and scores strictly below it. */
    method PickSlot(thickness: real, x: int, y: int, eval: real, ghost t: nat) returns (eval': real)
      requires 1 <= x <= itemsToPackCount && 1 <= y <= 3 && t == 3 * (x - 1) + (y - 1)
      requires Picked(thickness, eval, t) && !itemsToPack[x].isPacked
      modifies this`layerThickness
      ensures Picked(thickness, eval', t + 1)
    {
      ghost var s := itemsToPack;
      SlotNumbering(x, y);
      assert s[x] == itemsToPack[x];
      eval' := eval;
      var c := LayerChoice(itemsToPack[x], y);
      var layereval := 0.0;
      if c.0 <= thickness && ((c.1 <= px && c.2 <= pz) || (c.2 <= px && c.1 <= pz)) {
        layereval := EvaluateThickness(x, c.0, true);
        if layereval < eval {
          eval' := layereval;
          layerThickness := c.0;
        }
      }
    }

    // -------------------------------------------------------------------
    // PackLayer
    // -------------------------------------------------------------------

    /** The edge is linked, and well formed over the layer width or the single gap of a layer of no width. */
    ghost predicate Edge()
      reads this`nodes, this`pads, this`px
    {
      EdgeOk(nodes, pads, px)
    }

    /**
     * The running totals agree with the units: the packed volume and count
     * are those of the units marked packed, and while the best arrangement is
     * packed the packing order lists exactly the packed units.
     */
    ghost predicate Tally()
      reads this`itemsToPack, this`packedVolume, this`packedItemCount, this`packedBase,
        this`packingBest, this`itemsPackedInOrder
    {
      Totals(itemsToPack, itemsToPackCount, packedVolume, packedItemCount - packedBase, packingBest, itemsPackedInOrder)
    }

    /** What PackLayer's loop tracks. */
    ghost function State(): LayerState
      reads this`packedItemCount, this`nodes, this`layerThickness, this`layerinlayer
    {
      LayerState(packedItemCount, |nodes|, layerThickness, layerinlayer)
    }

    /**
     * The space PackLayer offers FindBox at gap k: its width, the depth up
     * to its neighbour (the one on the left, or the right one for the first
     * gap, or all that is left for a single gap) and the depth left.
     */
    method GapSpace(ghost k: nat) returns (lenx: real, lenz: real, lpz: real)
      requires Linked(nodes, pads) && k < |nodes| && smallestZ == nodes[k]
      ensures lenx == Width(Sky(), k) && lpz == remainpz - Sky()[k].cumZ
      ensures |nodes| == 1 ==> lenz == lpz
      ensures |nodes| > 1 && k == 0 ==> lenz == Sky()[1].cumZ - Sky()[0].cumZ
      ensures k > 0 ==> lenz == Sky()[k - 1].cumZ - Sky()[k].cumZ
    {
      Neighbours(nodes, pads, k);
      var s := pads[smallestZ];
      lpz := remainpz - s.cumZ;
      if s.pre == Null && s.post == Null {
        lenx, lenz := s.cumX, lpz;
      } else if s.pre == Null {
        lenx, lenz := s.cumX, pads[s.post].cumZ - s.cumZ;
      } else {
        lenx, lenz := s.cumX - pads[s.pre].cumX, pads[s.pre].cumZ - s.cumZ;
      }
    }

    /**
     * The chosen box, an unpacked unit turned to fit gap k, is placed: the
     * edge becomes the placement's, the unit is marked packed and the totals
     * follow, so one unit more is packed.
     */
    method PlaceChosen(ghost k: nat, ghost before: LayerState)
      requires Packing() && Decided(k, before, Boxed)
      modifies this`pads, this`nodes, this`itemsToPack, this`packedVolume, this`packedItemCount, this`packing,
        this`hundredPercentPacked, this`itemsPackedInOrder
      ensures Packing() && Advanced(before, State(), false)
      ensures packedItemCount == old(packedItemCount) + 1
      ensures PackedStay(old(itemsToPack), itemsToPack)
    {
      PlaceUnit(k);
      MarkChosen();
    }

    /** PlaceBox for the chosen box: the edge stays well formed, and the unit, now placed, is still to be marked packed. */
    method PlaceUnit(ghost k: nat)
      requires Packing() && Chosen(k)
      modifies this`pads, this`nodes, this`itemsToPack
      ensures Packing() && 1 <= cboxi <= itemsToPackCount && !itemsToPack[cboxi].isPacked
      ensures Sky() == Place(old(Sky()), k, px, cboxx, cboxz).sky
      ensures itemsToPack == old(itemsToPack)[cboxi := old(itemsToPack[cboxi]).(
        coordLength := Place(old(Sky()), k, px, cboxx, cboxz).coordLength,
        coordWidth := packedy, coordHeight := old(Sky())[k].cumZ)]
    {
      RoomyEdge(nodes, pads, px, k, cboxx);
      ghost var s := itemsToPack;
      PlaceBox(k);
      Relabelled(s, itemsToPack, itemsToPackCount, cboxi, itemsPackedInOrder);
      forall i | 0 <= i < |itemsToPack| ensures SameUnit(itemsToPack[i], units[i]) {
        assert SameUnit(s[i], units[i]);
      }
    }

    /** VolumeCheck on an unpacked unit: it becomes packed and the totals keep track. */
    method MarkChosen()
      requires Valid() && Tally() && 1 <= cboxi <= itemsToPackCount && !itemsToPack[cboxi].isPacked
      modifies this`itemsToPack, this`packedVolume, this`packedItemCount, this`packing, this`hundredPercentPacked, this`itemsPackedInOrder
      ensures Valid() && Tally()
      ensures Keeps(old(State()), State()) && packedItemCount == old(packedItemCount) + 1
      ensures itemsToPack == old(itemsToPack)[cboxi := Marked(old(itemsToPack[cboxi]), (cboxx, cboxy, cboxz), packingBest, bestVariant)]
      ensures packedVolume == old(packedVolume) + old(itemsToPack[cboxi]).Volume()
    {
      ghost var s := itemsToPack;
      ghost var order := itemsPackedInOrder;
      VolumeCheck();
      ghost var s' := itemsToPack;
      assert s'[cboxi].Dims() == s[cboxi].Dims() && s'[cboxi].isPacked;
      MarkPacked(s, s', itemsToPackCount, cboxi);
      forall i | 0 <= i < |itemsToPack| ensures SameUnit(itemsToPack[i], units[i]) {
        assert SameUnit(s[i], units[i]);
      }
      if packingBest {
        OneMoreInOrder(s, s', itemsToPackCount, cboxi, order);
      }
    }

    /** The state PackLayer works in: the units, the totals and the edge all consistent. */
    ghost predicate Packing()
      reads this`itemsToPack, this`packedVolume, this`packedItemCount, this`packedBase,
        this`packingBest, this`itemsPackedInOrder, this`nodes, this`pads, this`px
    {
      Valid() && Tally() && Edge()
    }

    /**
     * One pass of PackLayer's loop: the gap of least depth is found, FindBox
     * weighs the units for it and CheckFound decides; unless the layer is
     * done or the gap was evened out, the chosen box is placed. Each pass
     * that does not finish the layer packs a unit or shortens the edge.
     */
    method PackGap() returns (ghost k: nat)
      requires Packing() && !layerDone
      modifies this`smallestZ, this`best, this`overflow, this`evened, this`cboxi, this`cboxx, this`cboxy, this`cboxz,
        this`prelayer, this`lilz, this`layerinlayer, this`layerThickness, this`layerDone, this`pads, this`nodes,
        this`itemsToPack, this`packedVolume, this`packedItemCount, this`packing, this`hundredPercentPacked, this`itemsPackedInOrder
      ensures Packing() && Advanced(old(State()), State(), layerDone)
      ensures PackedStay(old(itemsToPack), itemsToPack)
    {
      ghost var before := State();
      k := FindGap();
      CheckFound(k, before);
      if Found() != Boxed {
        return;
      }
      PlaceChosen(k, before);
    }

    /** A box is chosen for gap k: an unpacked unit turned to a positive size that fits within the gap's width. */
    ghost predicate Chosen(k: nat)
      reads this`nodes, this`pads, this`smallestZ, this`cboxi, this`cboxx, this`cboxz,
        this`itemsToPack
    {
      && k < |nodes| && smallestZ == nodes[k] && 0.0 < cboxx <= Width(Sky(), k) && 0.0 < cboxz
      && 1 <= cboxi <= itemsToPackCount < |itemsToPack| && !itemsToPack[cboxi].isPacked
    }

    /** How CheckFound ended, read off its two flags. */
    function Found(): Outcome
      reads this`layerDone, this`evened
    {
      if layerDone then LayerDone else if evened then Evened else Boxed
    }

    /**
     * From state before, CheckFound at gap k ended in one of three ways: the
     * layer done on a single gap or the gap evened out, either of which
     * advances the pass, or a box chosen for the gap with the state kept and
     * no unit packed yet.
     */
    ghost predicate Decided(k: nat, before: LayerState, found: Outcome)
      reads this`packedItemCount, this`nodes, this`layerThickness, this`layerinlayer,
        this`pads, this`smallestZ, this`cboxi, this`cboxx, this`cboxz, this`itemsToPack
    {
      || (found == LayerDone && Advanced(before, State(), true))
      || (found == Evened && Advanced(before, State(), false))
      || (found == Boxed && Keeps(before, State()) && packedItemCount == before.packed && Chosen(k))
    }

    /** FindSmallestZ, then FindBox for the gap of least depth k. */
    method FindGap() returns (ghost k: nat)
      requires Packing()
      modifies this`smallestZ, this`best, this`overflow
      ensures Packing() && State() == old(State())
      ensures k < |nodes| && smallestZ == nodes[k]
      ensures FitsGap(itemsToPack, itemsToPackCount, best, Width(Sky(), k), layerThickness, true)
      ensures FitsGap(itemsToPack, itemsToPackCount, overflow, Width(Sky(), k), layerThickness, false)
    {
      FindSmallestZ();
      k := FirstMinZ(Sky());
      Offer(k);
    }

    /** FindBox for gap k: both fits it offers are none or fit within the gap's width. */
    method Offer(ghost k: nat)
      requires Packing() && k < |nodes| && smallestZ == nodes[k]
      modifies this`best, this`overflow
      ensures Packing() && State() == old(State())
      ensures FitsGap(itemsToPack, itemsToPackCount, best, Width(Sky(), k), layerThickness, true)
      ensures FitsGap(itemsToPack, itemsToPackCount, overflow, Width(Sky(), k), layerThickness, false)
    {
      var lenx, lenz, lpz := GapSpace(k);
      GroupsOfUnits(itemsToPack, units, itemsToPackCount, 1);
      FindBox(lenx, layerThickness, remainpy, lenz, lpz);
      FitOkFitsGap(itemsToPack, units, itemsToPackCount, best, lenx, layerThickness, remainpy, lenz, lpz, true);
      FitOkFitsGap(itemsToPack, units, itemsToPackCount, overflow, lenx, layerThickness, remainpy, lenz, lpz, false);
    }

    // -------------------------------------------------------------------
    // The layer loop of ExecuteIterations and Report
    // -------------------------------------------------------------------

    /** The edge is a single gap, as between layers. */
    ghost predicate Single()
      reads this`nodes, this`pads
    {
      Linked(nodes, pads) && |nodes| == 1
    }

    /** Between layers: the units and totals agree, and the edge is a single gap. */
    ghost predicate Settled()
      reads this`itemsToPack, this`packedVolume, this`packedItemCount, this`packedBase,
        this`packingBest, this`itemsPackedInOrder, this`nodes, this`pads
    {
      Valid() && Tally() && Single()
    }

    /** The edge of a new layer: a single gap over the floor's width, at depth 0. */
    method StartEdge()
      requires Single()
      modifies this`pads
      ensures Edge() && Sky() == Initial(px)
    {
      SetGap(0, Head, px, 0.0);
      WithGapEffect(nodes, old(pads), 0, px, 0.0);
      if px > 0.0 {
        InitialWellFormed(px);
      }
    }

    /**
     * A layer of no thickness stops packing. Otherwise the edge starts as a
     * single empty gap and passes are made until the layer is done: it ends
     * on an edge of a single gap, thicker or as thick as it began, with
     * layerinlayer grown by as much.
     */
    method PackLayer()
      requires Settled() && !layerDone
      modifies this`smallestZ, this`best, this`overflow, this`evened, this`cboxi, this`cboxx, this`cboxy, this`cboxz,
        this`prelayer, this`lilz, this`layerinlayer, this`layerThickness, this`layerDone, this`pads, this`nodes,
        this`itemsToPack, this`packedVolume, this`packedItemCount, this`packing, this`hundredPercentPacked, this`itemsPackedInOrder
      ensures Settled()
      ensures Keeps(old(State()), State())
      ensures old(layerThickness) == 0.0 ==> !packing
      ensures PackedStay(old(itemsToPack), itemsToPack)
    {
      if layerThickness == 0.0 {
        packing := false;
        return;
      }
      StartEdge();
      while !layerDone
        invariant Packing() && Keeps(old(State()), State())
        invariant layerDone ==> |nodes| == 1
        invariant PackedStay(old(itemsToPack), itemsToPack)
        decreases !layerDone, itemsToPackCount + packedBase - packedItemCount, |nodes|
      {
        ghost var s := itemsToPack;
        ghost var k := PackGap();
        PackedStayTransitive(old(itemsToPack), s, itemsToPack);
      }
    }


    /**
     * One round of the layer loop, in ExecuteIterations (replay false) or
     * Report (replay true): the layer is packed and stacked, the layer in
     * layer beside a box that raised it is packed, and the next thickness
     * is looked up for the height left. Packing goes on only with a
     * thickness, at least the smallest side of the units, that fits what
     * is left, and the height left has gone down by at least the thickness
     * the round began with.
     */
    method LayerPass(replay: bool)
      requires Settled() && remainpy == py - packedy && remainpz == pz
      modifies this`smallestZ, this`best, this`overflow, this`evened, this`cboxi, this`cboxx, this`cboxy, this`cboxz,
        this`prelayer, this`lilz, this`layerinlayer, this`layerThickness, this`layerDone, this`pads, this`nodes,
        this`itemsToPack, this`packedVolume, this`packedItemCount, this`packing, this`hundredPercentPacked, this`itemsPackedInOrder,
        this`packedy, this`remainpy, this`remainpz
      ensures Settled() && remainpy == py - packedy && remainpz == pz
      ensures packing ==> SmallestDim(units, itemsToPackCount) <= layerThickness <= remainpy
      ensures packing ==> remainpy + old(layerThickness) <= old(remainpy)
      ensures PackedStay(old(itemsToPack), itemsToPack)
    {
      ghost var r, t := remainpy, layerThickness;
      StackLayer();
      assert remainpy + t <= r;
      ghost var s := itemsToPack;
      LayerInLayer(replay);
      PackedStayTransitive(old(itemsToPack), s, itemsToPack);
      NextLayer();
    }

    /** The layer is packed and stacked on what was packed: the height packed grows by its thickness, which only rose. */
    method StackLayer()
      requires Settled()
      modifies this`smallestZ, this`best, this`overflow, this`evened, this`cboxi, this`cboxx, this`cboxy, this`cboxz,
        this`prelayer, this`lilz, this`layerinlayer, this`layerThickness, this`layerDone, this`pads, this`nodes,
        this`itemsToPack, this`packedVolume, this`packedItemCount, this`packing, this`hundredPercentPacked, this`itemsPackedInOrder,
        this`packedy, this`remainpy
      ensures Settled()
      ensures layerThickness >= old(layerThickness) && packedy == old(packedy) + layerThickness && remainpy == py - packedy
      ensures PackedStay(old(itemsToPack), itemsToPack)
    {
      BeginLayer();
      PackLayer();
      RaiseFloor();
    }

    /** A layer begins: nothing raised yet, and not done. */
    method BeginLayer()
      modifies this`layerinlayer, this`layerDone
      ensures layerinlayer == 0.0 && !layerDone
    {
      layerinlayer := 0.0;
      layerDone := false;
    }

    /** The layer just packed is stacked: the height packed grows by its thickness, and the height left is what remains of py. */
    method RaiseFloor()
      modifies this`packedy, this`remainpy
      ensures packedy == old(packedy) + layerThickness && remainpy == py - packedy
    {
      packedy := packedy + layerThickness;
      remainpy := py - packedy;
    }

    /**
     * When a box raised the layer, the layer in layer: the room beside it,
     * as high as the rise and as deep as lilz, is packed as a layer of its
     * own, after which the height packed and the height and depth left are
     * restored.
     */
    method LayerInLayer(replay: bool)
      requires Settled() && remainpz == pz
      modifies this`smallestZ, this`best, this`overflow, this`evened, this`cboxi, this`cboxx, this`cboxy, this`cboxz,
        this`prelayer, this`lilz, this`layerinlayer, this`layerThickness, this`layerDone, this`pads, this`nodes,
        this`itemsToPack, this`packedVolume, this`packedItemCount, this`packing, this`hundredPercentPacked, this`itemsPackedInOrder,
        this`packedy, this`remainpy, this`remainpz
      ensures Settled()
      ensures packedy == old(packedy) && remainpy == old(remainpy) && remainpz == pz
      ensures PackedStay(old(itemsToPack), itemsToPack)
    {
      if (if replay then layerinlayer > 0.0001 else layerinlayer != 0.0) {
        var prepackedy, preremainpy := packedy, remainpy;
        EnterRise();
        PackLayer();
        LeaveRise(prepackedy, preremainpy);
      }
    }

    /** Leaving the layer in layer: the heights saved before it are restored, with the full depth left. */
    method LeaveRise(prepackedy: real, preremainpy: real)
      modifies this`packedy, this`remainpy, this`remainpz
      ensures packedy == prepackedy && remainpy == preremainpy && remainpz == pz
    {
      packedy, remainpy, remainpz := prepackedy, preremainpy, pz;
    }

    /** The layer in layer is framed: as high as the rise, as deep as lilz, as thick as layerinlayer. */
    method EnterRise()
      modifies this`remainpy, this`packedy, this`remainpz, this`layerThickness, this`layerDone
      ensures remainpy == old(layerThickness) - prelayer && packedy == old(packedy) - old(layerThickness) + prelayer
      ensures remainpz == lilz && layerThickness == layerinlayer && !layerDone
    {
      remainpy := layerThickness - prelayer;
      packedy := packedy - layerThickness + prelayer;
      remainpz := lilz;
      layerThickness := layerinlayer;
      layerDone := false;
    }

    /** FindLayer for the height left: packing goes on only with a thickness, at least the smallest side of the units, within it. */
    method NextLayer()
      requires Valid()
      modifies this`layerThickness, this`packing
      ensures packing ==> SmallestDim(units, itemsToPackCount) <= layerThickness <= remainpy
    {
      FindLayer(remainpy);
      SmallestSide(itemsToPack, units, itemsToPackCount);
      PickBounds(itemsToPack, itemsToPackCount, remainpy, px, pz, 3 * itemsToPackCount, SmallestDim(units, itemsToPackCount));
    }

    /**
     * The layer loop: rounds are made while packing goes on. Each round
     * lowers the height left by at least the smallest side of the units,
     * so the loop ends.
     */
    method PackLayers(replay: bool)
      requires Settled() && remainpy == py - packedy && remainpz == pz
      modifies this`smallestZ, this`best, this`overflow, this`evened, this`cboxi, this`cboxx, this`cboxy, this`cboxz,
        this`prelayer, this`lilz, this`layerinlayer, this`layerThickness, this`layerDone, this`pads, this`nodes,
        this`itemsToPack, this`packedVolume, this`packedItemCount, this`packing, this`hundredPercentPacked, this`itemsPackedInOrder,
        this`packedy, this`remainpy, this`remainpz
      ensures Settled() && !packing
      ensures PackedStay(old(itemsToPack), itemsToPack)
    {
      LayerPass(replay);
      ghost var m := SmallestDim(units, itemsToPackCount);
      SmallestSide(itemsToPack, units, itemsToPackCount);
      while packing
        invariant Settled() && remainpy == py - packedy && remainpz == pz
        invariant packing ==> m <= layerThickness <= remainpy
        invariant PackedStay(old(itemsToPack), itemsToPack)
        decreases if packing then (remainpy / m).Floor + 1 else 0
      {
        ghost var r, s := remainpy, itemsToPack;
        LayerPass(replay);
        PackedStayTransitive(old(itemsToPack), s, itemsToPack);
        if packing {
          FloorStep(r, remainpy, m);
        } else {
          FloorStep(r, 0.0, m);
        }
      }
    }

    // -------------------------------------------------------------------
    // ExecuteIterations
    // -------------------------------------------------------------------

    /** Every unit is marked unpacked, as each iteration and the replay begin. */
    method UnpackAll()
      requires itemsToPackCount < |itemsToPack|
      modifies this`itemsToPack
      ensures itemsToPack == Unpacked(old(itemsToPack), itemsToPackCount)
    {
      ghost var s := itemsToPack;
      for x := 1 to itemsToPackCount + 1
        invariant |itemsToPack| == |s|
        invariant forall i :: 0 <= i < |s| ==> itemsToPack[i] == if 1 <= i < x then s[i].(isPacked := false) else s[i]
      {
        itemsToPack := itemsToPack[x := itemsToPack[x].(isPacked := false)];
      }
    }

    /** How many thicknesses ListCanditLayers records for the container in variant v. */
    ghost function CandidateCount(v: int): nat
      requires 1 <= v <= 6 && itemsToPackCount < |units|
    {
      CandidatesFor(container, units, itemsToPackCount, v)
    }

    /** The best so far is none yet, or an entry 1.. of the thickness list of a variant. */
    ghost predicate BestOk()
      reads this`bestVariant, this`bestIteration, this`bestVolume
    {
      BestAmong(Best(), container, units, itemsToPackCount)
    }

    /** Between iterations: the units and totals agree, no packing order is kept, and the edge is a single gap. */
    ghost predicate Searching()
      reads this`itemsToPack, this`packedVolume, this`packedItemCount, this`packedBase,
        this`packingBest, this`itemsPackedInOrder, this`nodes, this`pads
    {
      Settled() && !packingBest
    }

    /**
     * The start of a variant: the container turned to the variant's axes, a
     * pad added to the layer list, the candidate thicknesses recorded and the
     * list sorted by evaluation; there are as many candidates as the units
     * give in that variant.
     */
    method StartVariant(variant: int)
      requires Valid() && 1 <= variant <= 6
      modifies this`px, this`py, this`pz, this`layers, this`layerListLen
      ensures (px, py, pz) == VariantDims(container, variant)
      ensures layerListLen == CandidateCount(variant) < |layers|
      ensures layers == SortBy(Recorded(old(layers) + [Pad],
        CandidatesUpTo(itemsToPack, itemsToPackCount, px, py, pz, 3 * itemsToPackCount)), LayerEvalKey)
    {
      var d := VariantDims(container, variant);
      px, py, pz := d.0, d.1, d.2;
      layers := layers + [Pad];
      ghost var l := layers;
      ListCanditLayers();
      assert Listed(l, 3 * itemsToPackCount);
      CandidatesUseDimensions(itemsToPack, units, itemsToPackCount, px, py, pz, 3 * itemsToPackCount);
      layers := SortBy(layers, LayerEvalKey);
    }

    /**
     * The start of an iteration: the search counts it, and it begins with
     * nothing packed, the whole height and depth left and the thickness of
     * entry index of the layer list.
     */
    method StartIteration(index: int)
      requires Valid() && itemsPackedInOrder == [] && 0 <= index < |layers|
      modifies this`iterationsCount, this`packedVolume, this`packedy, this`packing, this`layerThickness, this`itelayer,
        this`remainpy, this`remainpz, this`packedItemCount, this`packedBase, this`itemsToPack
      ensures Valid() && Tally() && packing && remainpy == py - packedy && remainpz == pz && packedItemCount == 0
      ensures layerThickness == layers[index].layerDim && itelayer == index && iterationsCount == old(iterationsCount) + 1
      ensures itemsToPack == Unpacked(old(itemsToPack), itemsToPackCount)
    {
      iterationsCount := iterationsCount + 1;
      Restart(index);
      itelayer := index;
      packedItemCount := 0;
      packedBase := 0;
      ClearUnits();
    }

    /** What an iteration and the replay reset: nothing packed, the whole height and depth left, the thickness of entry index. */
    method Restart(index: int)
      requires 0 <= index < |layers|
      modifies this`packedVolume, this`packedy, this`packing, this`layerThickness, this`remainpy, this`remainpz
      ensures packedVolume == 0.0 && packedy == 0.0 && packing && remainpy == py && remainpz == pz
      ensures layerThickness == layers[index].layerDim
    {
      packedVolume := 0.0;
      packedy := 0.0;
      packing := true;
      layerThickness := layers[index].layerDim;
      remainpy := py;
      remainpz := pz;
    }

    /** UnpackAll with nothing counted as packed: the totals agree with the units again. */
    method ClearUnits()
      requires Valid() && packedVolume == 0.0 && packedItemCount == packedBase && itemsPackedInOrder == []
      modifies this`itemsToPack
      ensures Valid() && Tally() && itemsToPack == Unpacked(old(itemsToPack), itemsToPackCount)
    {
      UnpackedAll(itemsToPack, units, itemsToPackCount);
      UnpackAll();
    }

    /** The best so far, as the search compares it: variant, entry of the layer list, packed volume. */
    ghost function Best(): Standing
      reads this`bestVariant, this`bestIteration, this`bestVolume
    {
      Standing(bestVariant, bestIteration, bestVolume)
    }

    /** An iteration packs from entry index of the layer list until packing stops, counted by the search. */
    method PackFrom(index: int)
      requires Searching() && 0 <= index < |layers|
      modifies this`smallestZ, this`best, this`overflow, this`evened, this`cboxi, this`cboxx, this`cboxy, this`cboxz,
        this`prelayer, this`lilz, this`layerinlayer, this`layerThickness, this`layerDone, this`pads, this`nodes,
        this`itemsToPack, this`packedVolume, this`packedItemCount, this`packing, this`hundredPercentPacked, this`itemsPackedInOrder,
        this`packedy, this`remainpy, this`remainpz, this`iterationsCount, this`itelayer, this`packedBase
      ensures Searching() && !packing && itelayer == index && iterationsCount == old(iterationsCount) + 1
    {
      StartIteration(index);
      PackLayers(false);
    }

    /** A run of trials of variant v: the entries 1, 2, ... of its layer list in order, only the last one packing a hundred percent. */
    ghost predicate Swept(trials: seq<Trial>, v: int, full: bool)
      requires 1 <= v <= 6 && itemsToPackCount < |units|
    {
      && (if full then 0 < |trials| <= CandidateCount(v) else |trials| == CandidateCount(v))
      && forall i :: 0 <= i < |trials| ==> trials[i] == Trial(v, i + 1, trials[i].volume, full && i == |trials| - 1)
    }

    /** A complete run of the next variant extends the complete runs before it. */
    lemma SweptSnoc(sweeps: seq<seq<Trial>>, trials: seq<Trial>)
      requires itemsToPackCount < |units| && |sweeps| < 6
      requires forall v :: 0 <= v < |sweeps| ==> Swept(sweeps[v], v + 1, false)
      requires Swept(trials, |sweeps| + 1, false)
      ensures forall v :: 0 <= v <= |sweeps| ==> Swept((sweeps + [trials])[v], v + 1, false)
    {
      forall v | 0 <= v <= |sweeps|
        ensures Swept((sweeps + [trials])[v], v + 1, false)
      {
        if v < |sweeps| {
          assert (sweeps + [trials])[v] == sweeps[v];
        }
      }
    }

    /** A run that packs a hundred percent, after complete runs of the variants before it, ends the search. */
    lemma RanStopped(sweeps: seq<seq<Trial>>, trials: seq<Trial>)
      requires itemsToPackCount < |units| && |sweeps| < (if Cube(container) then 1 else 6)
      requires forall v :: 0 <= v < |sweeps| ==> Swept(sweeps[v], v + 1, false)
      requires Swept(trials, |sweeps| + 1, true)
      ensures Ran(sweeps + [trials], true)
    {
      var all := sweeps + [trials];
      forall v | 0 <= v < |all|
        ensures Swept(all[v], v + 1, v == |all| - 1)
      {
        if v < |sweeps| {
          assert all[v] == sweeps[v];
        }
      }
    }

    /**
     * The iterations of one variant: the container turned to its axes and
     * its thickness list made, then one iteration from each entry in order,
     * stopping after one that packs a hundred percent. The best so far is
     * updated by each trial, from start.
     */
    method TryVariant(variant: int, start: Standing, startCount: int) returns (b: Standing, count: int, ghost trials: seq<Trial>)
      requires Searching() && !hundredPercentPacked && 1 <= variant <= 6 && BestAmong(start, container, units, itemsToPackCount)
      modifies this`smallestZ, this`best, this`overflow, this`evened, this`cboxi, this`cboxx, this`cboxy, this`cboxz,
        this`prelayer, this`lilz, this`layerinlayer, this`layerThickness, this`layerDone, this`pads, this`nodes,
        this`itemsToPack, this`packedVolume, this`packedItemCount, this`packing, this`hundredPercentPacked, this`itemsPackedInOrder,
        this`packedy, this`remainpy, this`remainpz, this`iterationsCount, this`itelayer, this`packedBase,
        this`px, this`py, this`pz, this`layers, this`layerListLen
      ensures Searching() && BestAmong(b, container, units, itemsToPackCount)
      ensures itemsToPackCount < |units| && Swept(trials, variant, hundredPercentPacked)
      ensures b == BestTrial(trials, start)
    {
      StartVariant(variant);
      b, count, trials := Sweep(variant, start, startCount);
    }

    /** The iterations of one variant, over entries 1.. of its sorted layer list. */
    method Sweep(variant: int, start: Standing, startCount: int) returns (b: Standing, count: int, ghost trials: seq<Trial>)
      requires Searching() && !hundredPercentPacked && 1 <= variant <= 6 && BestAmong(start, container, units, itemsToPackCount)
      requires itemsToPackCount < |units| && layerListLen == CandidateCount(variant) < |layers|
      modifies this`smallestZ, this`best, this`overflow, this`evened, this`cboxi, this`cboxx, this`cboxy, this`cboxz,
        this`prelayer, this`lilz, this`layerinlayer, this`layerThickness, this`layerDone, this`pads, this`nodes,
        this`itemsToPack, this`packedVolume, this`packedItemCount, this`packing, this`hundredPercentPacked, this`itemsPackedInOrder,
        this`packedy, this`remainpy, this`remainpz, this`iterationsCount, this`itelayer, this`packedBase
      ensures Searching() && BestAmong(b, container, units, itemsToPackCount)
      ensures Swept(trials, variant, hundredPercentPacked)
      ensures b == BestTrial(trials, start)
    {
      b, count, trials := start, startCount, [];
      var layersIndex := 1;
      while layersIndex <= layerListLen
        invariant Searching() && !hundredPercentPacked && BestAmong(b, container, units, itemsToPackCount)
        invariant 1 <= layersIndex <= layerListLen + 1 && |trials| == layersIndex - 1
        invariant forall i :: 0 <= i < |trials| ==> trials[i] == Trial(variant, i + 1, trials[i].volume, false)
        invariant b == BestTrial(trials, start)
      {
        ghost var t;
        b, count, t := TryIteration(variant, layersIndex, b, count);
        BestTrialSnoc(trials, t, start);
        trials := trials + [t];
        if hundredPercentPacked {
          return;
        }
        layersIndex := layersIndex + 1;
      }
    }

    /**
     * One iteration of the search, from entry index of the layer list: the
     * trial it makes replaces the best so far when it packed strictly more
     * volume, and then its packed count is the best count.
     */
    method TryIteration(variant: int, index: int, b: Standing, count: int) returns (b': Standing, count': int, ghost t: Trial)
      requires Searching() && !hundredPercentPacked && BestAmong(b, container, units, itemsToPackCount)
      requires 1 <= variant <= 6 && itemsToPackCount < |units| && 1 <= index <= CandidateCount(variant) && index < |layers|
      modifies this`smallestZ, this`best, this`overflow, this`evened, this`cboxi, this`cboxx, this`cboxy, this`cboxz,
        this`prelayer, this`lilz, this`layerinlayer, this`layerThickness, this`layerDone, this`pads, this`nodes,
        this`itemsToPack, this`packedVolume, this`packedItemCount, this`packing, this`hundredPercentPacked, this`itemsPackedInOrder,
        this`packedy, this`remainpy, this`remainpz, this`iterationsCount, this`itelayer, this`packedBase
      ensures Searching() && BestAmong(b', container, units, itemsToPackCount)
      ensures t == Trial(variant, index, packedVolume, hundredPercentPacked) && b' == Keep(b, t)
      ensures count' == if b' == b then count else packedItemCount
      ensures iterationsCount == old(iterationsCount) + 1
    {
      PackFrom(index);
      t := Trial(variant, index, packedVolume, hundredPercentPacked);
      b', count' := b, count;
      if packedVolume > b.volume {
        b', count' := Standing(variant, index, packedVolume), packedItemCount;
      }
    }

    /**
     * The variants searched, one run of trials each: 1 alone when the
     * container is a cube, else 1 to 6, unless a trial packs a hundred
     * percent, which ends the search as the last trial of the last run.
     */
    ghost predicate Ran(sweeps: seq<seq<Trial>>, full: bool)
      requires itemsToPackCount < |units|
    {
      && (if full then 0 < |sweeps| <= (if Cube(container) then 1 else 6)
          else |sweeps| == (if Cube(container) then 1 else 6))
      && forall v :: 0 <= v < |sweeps| ==> Swept(sweeps[v], v + 1, full && v == |sweeps| - 1)
    }

    /**
     * The search: the runs of the variants, one after the other, from the
     * best as it stood; the best is then the best of all their trials,
     * taken in that order.
     */
    method ExecuteIterations() returns (ghost sweeps: seq<seq<Trial>>)
      requires Searching() && !hundredPercentPacked && itemsToPackCount < |units| && BestOk()
      modifies this`smallestZ, this`best, this`overflow, this`evened, this`cboxi, this`cboxx, this`cboxy, this`cboxz,
        this`prelayer, this`lilz, this`layerinlayer, this`layerThickness, this`layerDone, this`pads, this`nodes,
        this`itemsToPack, this`packedVolume, this`packedItemCount, this`packing, this`hundredPercentPacked, this`itemsPackedInOrder,
        this`packedy, this`remainpy, this`remainpz, this`iterationsCount, this`itelayer, this`packedBase,
        this`px, this`py, this`pz, this`layers, this`layerListLen,
        this`bestVariant, this`bestIteration, this`bestVolume, this`bestPackedItemCount
      ensures Searching() && BestOk() && Ran(sweeps, hundredPercentPacked)
      ensures Best() == BestTrial(Flatten(sweeps), old(Best()))
    {
      var b, count;
      b, count, sweeps := Search(Standing(bestVariant, bestIteration, bestVolume), bestPackedItemCount);
      SetBest(b, count);
    }

    /** The loop over the variants, with the best so far held in b and count. */
    method Search(start: Standing, startCount: int) returns (b: Standing, count: int, ghost sweeps: seq<seq<Trial>>)
      requires Searching() && !hundredPercentPacked && itemsToPackCount < |units| && BestAmong(start, container, units, itemsToPackCount)
      modifies this`smallestZ, this`best, this`overflow, this`evened, this`cboxi, this`cboxx, this`cboxy, this`cboxz,
        this`prelayer, this`lilz, this`layerinlayer, this`layerThickness, this`layerDone, this`pads, this`nodes,
        this`itemsToPack, this`packedVolume, this`packedItemCount, this`packing, this`hundredPercentPacked, this`itemsPackedInOrder,
        this`packedy, this`remainpy, this`remainpz, this`iterationsCount, this`itelayer, this`packedBase,
        this`px, this`py, this`pz, this`layers, this`layerListLen
      ensures Searching() && BestAmong(b, container, units, itemsToPackCount) && Ran(sweeps, hundredPercentPacked)
      ensures b == BestTrial(Flatten(sweeps), start)
    {
      b, count := start, startCount;
      sweeps := [];
      var variant := 1;
      while variant <= 6
        invariant Searching() && !hundredPercentPacked && BestAmong(b, container, units, itemsToPackCount)
        invariant if Cube(container) then (variant == 1 && sweeps == []) || (variant == 7 && |sweeps| == 1)
                  else 1 <= variant <= 7 && |sweeps| == variant - 1
        invariant forall v :: 0 <= v < |sweeps| ==> Swept(sweeps[v], v + 1, false)
        invariant b == BestTrial(Flatten(sweeps), start)
      {
        ghost var trials;
        b, count, trials := TryVariant(variant, b, count);
        FlattenSnoc(sweeps, trials);
        BestTrialAppend(Flatten(sweeps), trials, start);
        if hundredPercentPacked {
          RanStopped(sweeps, trials);
          sweeps := sweeps + [trials];
          break;
        }
        SweptSnoc(sweeps, trials);
        sweeps := sweeps + [trials];
        if Cube(container) {
          variant := 6;
        }
        variant := variant + 1;
      }
    }

    // -------------------------------------------------------------------
    // Report and the end of Run
    // -------------------------------------------------------------------

    /**
     * Report: the container is turned to the best variant's axes (kept as
     * it is when no best was found) and the best arrangement is packed
     * once more, from a fresh layer list and the best iteration's entry,
     * with the units reported as they are placed. The percentages it
     * prints divide by the volume of all units and by the container's:
     * when either is 0 that division fails and nothing more is done (ok is
     * false).
     */
    method Report() returns (ok: bool)
      requires Searching() && BestOk() && itemsToPackCount < |units|
      modifies this`smallestZ, this`best, this`overflow, this`evened, this`cboxi, this`cboxx, this`cboxy, this`cboxz,
        this`prelayer, this`lilz, this`layerinlayer, this`layerThickness, this`layerDone, this`pads, this`nodes,
        this`itemsToPack, this`packedVolume, this`packedItemCount, this`packing, this`hundredPercentPacked, this`itemsPackedInOrder,
        this`packedy, this`remainpy, this`remainpz, this`packedBase, this`packingBest,
        this`px, this`py, this`pz, this`layers, this`layerListLen
      ensures ok == (totalItemVolume != 0.0 && totalContainerVolume != 0.0)
      ensures packingBest
      ensures ok ==> Settled() && !packing
    {
      TurnToBest();
      ok := Divisible();
      if ok {
        Replay();
      }
    }

    /**
     * The container's axes for the best variant (an unknown variant leaves
     * them as they are), and the packer switched to replaying the best.
     */
    method TurnToBest()
      requires Searching()
      modifies this`px, this`py, this`pz, this`packingBest
      ensures Valid() && Single() && packingBest && itemsPackedInOrder == []
      ensures 1 <= bestVariant <= 6 ==> (px, py, pz) == VariantDims(container, bestVariant)
    {
      if 1 <= bestVariant <= 6 {
        var d := VariantDims(container, bestVariant);
        px, py, pz := d.0, d.1, d.2;
      }
      packingBest := true;
    }

    /** Whether both percentages can be computed: neither total volume is 0. */
    method Divisible() returns (ok: bool)
      ensures ok <==> totalItemVolume != 0.0 && totalContainerVolume != 0.0
    {
      ok := totalItemVolume != 0.0 && totalContainerVolume != 0.0;
    }

    /** The replay: from the best iteration's entry of a fresh list, with every unit unpacked, layers are packed until packing stops. */
    method Replay()
      requires Valid() && Single() && BestOk() && itemsToPackCount < |units| && packingBest && itemsPackedInOrder == []
      requires 1 <= bestVariant <= 6 ==> (px, py, pz) == VariantDims(container, bestVariant)
      modifies this`smallestZ, this`best, this`overflow, this`evened, this`cboxi, this`cboxx, this`cboxy, this`cboxz,
        this`prelayer, this`lilz, this`layerinlayer, this`layerThickness, this`layerDone, this`pads, this`nodes,
        this`itemsToPack, this`packedVolume, this`packedItemCount, this`packing, this`hundredPercentPacked, this`itemsPackedInOrder,
        this`packedy, this`remainpy, this`remainpz, this`packedBase, this`layers, this`layerListLen
      ensures Settled() && !packing
    {
      ReplayLayers();
      StartReplay();
      PackLayers(true);
    }

    /** The start of the replay: nothing packed, the whole height and depth left, the thickness of the best iteration's entry. */
    method StartReplay()
      requires Valid() && 0 <= bestIteration < |layers| && packingBest && itemsPackedInOrder == []
      modifies this`packedVolume, this`packedy, this`packing, this`layerThickness,
        this`remainpy, this`remainpz, this`packedBase, this`itemsToPack
      ensures Valid() && Tally() && remainpy == py - packedy && remainpz == pz
      ensures 0 <= bestIteration < |layers| && layerThickness == layers[bestIteration].layerDim
      ensures itemsToPack == Unpacked(old(itemsToPack), itemsToPackCount)
    {
      Restart(bestIteration);
      packedBase := packedItemCount;
      ClearUnits();
    }

    /**
     * The replay's layer list: a fresh list, the best iteration one of its
     * entries.
     */
    method ReplayLayers()
      requires Valid() && BestOk() && itemsToPackCount < |units|
      requires 1 <= bestVariant <= 6 ==> (px, py, pz) == VariantDims(container, bestVariant)
      modifies this`layers, this`layerListLen
      ensures 0 <= bestIteration < |layers|
    {
      FreshLayers();
      if Best() != Standing(0, 0, 0.0) {
        forall i | 1 <= i <= itemsToPackCount ensures itemsToPack[i].Dims() == units[i].Dims() {
          assert SameUnit(itemsToPack[i], units[i]);
        }
        CandidatesUseDimensions(itemsToPack, units, itemsToPackCount, px, py, pz, 3 * itemsToPackCount);
      }
    }

    /**
     * The layer list cleared, the pad added, the candidates recorded and
     * the list sorted: unlike a variant's list it holds no entry of an
     * earlier variant, and the pad sorts first.
     */
    method FreshLayers()
      requires Valid()
      modifies this`layers, this`layerListLen
      ensures layers == SortBy([Pad] + CandidatesUpTo(itemsToPack, itemsToPackCount, px, py, pz, 3 * itemsToPackCount), LayerEvalKey)
      ensures layers[0] == Pad
      ensures layerListLen == |CandidatesUpTo(itemsToPack, itemsToPackCount, px, py, pz, 3 * itemsToPackCount)|
    {
      ghost var c := CandidatesUpTo(itemsToPack, itemsToPackCount, px, py, pz, 3 * itemsToPackCount);
      ghost var list := [Pad] + c;
      layers := [Pad];
      ListCanditLayers();
      assert layers == list by {
        RecordedFresh(c);
      }
      SmallestSide(itemsToPack, units, itemsToPackCount);
      FreshListStartsWithPad(itemsToPack, itemsToPackCount, px, py, pz, SmallestDim(units, itemsToPackCount));
      layers := SortBy(layers, LayerEvalKey);
    }

    /**
     * The end of Run: every unit is given quantity 1; the units left
     * unpacked, in index order, and the packed ones, in the order they
     * were placed, are reported, and the pack is complete when none is
     * left unpacked. Each unit is reported exactly once.
     */
    method Collect() returns (result: AlgorithmPackingResult)
      requires Settled() && packingBest
      modifies this`itemsToPack
      ensures itemsToPack == QuantityOne(old(itemsToPack), itemsToPackCount)
      ensures InOrder(itemsToPack, itemsToPackCount, itemsPackedInOrder)
      ensures result == AlgorithmPackingResult("EB-AFIT", UnpackedUnits(itemsToPack, itemsToPackCount) == [],
        OrderedUnits(itemsToPack, itemsPackedInOrder), UnpackedUnits(itemsToPack, itemsToPackCount))
      ensures |result.packedItems| + |result.unpackedItems| == itemsToPackCount
    {
      ghost var s := itemsToPack;
      var unpackedItems := MarkUnits();
      QuantityOneKeepsOrder(s, itemsToPackCount, itemsPackedInOrder);
      UnpackedUnitsCount(itemsToPack, itemsToPackCount);
      var packedItems := OrderedUnits(itemsToPack, itemsPackedInOrder);
      result := AlgorithmPackingResult("EB-AFIT", unpackedItems == [], packedItems, unpackedItems);
    }

    /** Collect's loop: every unit's quantity set to 1, and the unpacked ones gathered in order. */
    method MarkUnits() returns (unpackedItems: seq<Item>)
      requires itemsToPackCount < |itemsToPack|
      modifies this`itemsToPack
      ensures itemsToPack == QuantityOne(old(itemsToPack), itemsToPackCount)
      ensures unpackedItems == UnpackedUnits(itemsToPack, itemsToPackCount)
    {
      ghost var s := itemsToPack;
      ghost var t := QuantityOne(s, itemsToPackCount);
      unpackedItems := [];
      for i := 1 to itemsToPackCount + 1
        invariant |itemsToPack| == |s|
        invariant forall j :: 0 <= j < |s| ==> itemsToPack[j] == if j < i then t[j] else s[j]
        invariant unpackedItems == UnpackedUnits(t, i - 1)
      {
        itemsToPack := itemsToPack[i := itemsToPack[i].(quantity := 1)];
        if !itemsToPack[i].isPacked {
          unpackedItems := unpackedItems + [itemsToPack[i]];
        }
      }
      assert itemsToPack == t;
    }

    /** The last steps of Run: Report, then the result, unless Report divided by zero; the units are items' units. */
    method Finish(ghost items: seq<Item>) returns (outcome: RunOutcome)
      requires NonNegativeQuantities(items) && Searching() && BestOk() && units == [Sentinel] + UnitsFor(items) + [Sentinel]
      modifies this`smallestZ, this`best, this`overflow, this`evened, this`cboxi, this`cboxx, this`cboxy, this`cboxz,
        this`prelayer, this`lilz, this`layerinlayer, this`layerThickness, this`layerDone, this`pads, this`nodes,
        this`itemsToPack, this`packedVolume, this`packedItemCount, this`packing, this`hundredPercentPacked, this`itemsPackedInOrder,
        this`packedy, this`remainpy, this`remainpz, this`packedBase, this`packingBest,
        this`px, this`py, this`pz, this`layers, this`layerListLen
      ensures outcome == DivideByZero <==> totalItemVolume == 0.0 || totalContainerVolume == 0.0
      ensures outcome.Completed? ==> Reported(items, itemsToPackCount, itemsToPack, itemsPackedInOrder, outcome.result)
    {
      var ok := Report();
      if !ok {
        return DivideByZero;
      }
      ghost var before := itemsToPack;
      var result := Collect();
      forall i | 1 <= i <= itemsToPackCount
        ensures var u := UnitsFor(items)[i - 1]; itemsToPack[i].id == u.id && itemsToPack[i].Dims() == u.Dims() && itemsToPack[i].quantity == 1
      {
        assert SameUnit(before[i], units[i]) && units[i] == UnitsFor(items)[i - 1];
      }
      outcome := Completed(result);
    }

    /** The best found by the search is recorded. */
    method SetBest(b: Standing, count: int)
      modifies this`bestVariant, this`bestIteration, this`bestVolume, this`bestPackedItemCount
      ensures Best() == b && bestPackedItemCount == count
    {
      bestVariant, bestIteration, bestVolume, bestPackedItemCount := b.variant, b.iteration, b.volume, count;
    }
  }

  /** What EB-AFIT's Run ends in: the packing result, or the division by zero Report hits when there are no units or the container has no volume. */
  datatype RunOutcome = Completed(result: AlgorithmPackingResult) | DivideByZero

  /**
   * The first two steps of Run: a fresh packer is initialized with the
   * items and runs the search; the best is then among the iterations, and
   * the volume of all units is 0 exactly when there are none.
   */
  method Searched(container: Container, items: seq<Item>) returns (packer: EbAfit)
    requires NonNegativeQuantities(items) && PositiveDimensions(items)
    ensures fresh(packer) && packer.container == container && packer.itemsToPackCount == TotalQuantity(items)
    ensures packer.units == [Sentinel] + UnitsFor(items) + [Sentinel]
    ensures packer.Searching() && packer.BestOk()
    ensures packer.totalItemVolume == 0.0 <==> TotalQuantity(items) == 0
  {
    packer := new EbAfit.Initialize(container, items);
    UnitsLaidOut(items);
    TotalVolumePositive(packer.itemsToPack, packer.itemsToPackCount);
    ghost var sweeps := packer.ExecuteIterations();
  }

  /**
   * EB-AFIT's Run on a fresh packer: Initialize, ExecuteIterations, Report
   * and the result. It fails exactly when there is no unit or the container
   * has no volume. Otherwise the result is Reported for the items, with
   * final the unit records as Run leaves them and order the units placed
   * during the replay, in placement order.
   */
  method Run(container: Container, items: seq<Item>) returns (outcome: RunOutcome, ghost final: seq<Item>, ghost order: seq<int>)
    requires NonNegativeQuantities(items) && PositiveDimensions(items)
    ensures var n := TotalQuantity(items);
      outcome == DivideByZero <==> n == 0 || container.length * container.height * container.width == 0.0
    ensures outcome.Completed? ==> Reported(items, TotalQuantity(items), final, order, outcome.result)
  {
    var packer := Searched(container, items);
    outcome, final, order := Conclude(packer, container, items);
  }

  /** Report and the result, on a packer the search has just run. */
  method Conclude(packer: EbAfit, container: Container, items: seq<Item>)
    returns (outcome: RunOutcome, ghost final: seq<Item>, ghost order: seq<int>)
    requires NonNegativeQuantities(items)
    requires packer.container == container && packer.itemsToPackCount == TotalQuantity(items)
    requires packer.units == [Sentinel] + UnitsFor(items) + [Sentinel]
    requires packer.Searching() && packer.BestOk()
    requires packer.totalItemVolume == 0.0 <==> TotalQuantity(items) == 0
    modifies packer
    ensures var n := TotalQuantity(items);
      outcome == DivideByZero <==> n == 0 || container.length * container.height * container.width == 0.0
    ensures outcome.Completed? ==> Reported(items, TotalQuantity(items), final, order, outcome.result)
  {
    assert packer.totalContainerVolume == container.length * container.height * container.width;
    outcome := packer.Finish(items);
    final, order := packer.itemsToPack, packer.itemsPackedInOrder;
  }
}
