/**
 * AK_PACK: a brute-force recursive packer. Every requested item is split
 * into units of quantity one, largest volume first; then, unit by unit, all
 * six orientations are tried, each unit is put at the first free integral
 * position of a height / width / length scan, and the branch with the
 * highest fill rank wins (the first one on ties).
 */
module AkPack {
  import opened Entities
  import StableSort

  // ---------------------------------------------------------------------
  // Orientations
  // ---------------------------------------------------------------------

  /** The six orientations, named by the raw dimension laid along length, width and height. */
  datatype Orientation = LWH | LHW | WLH | WHL | HLW | HWL

  /** The orientations in declaration order: the order the search tries them in. */
  const Orientations: seq<Orientation> := [LWH, LHW, WLH, WHL, HLW, HWL]

  function Name(o: Orientation): (s: string)
    ensures |s| == 3
  {
    match o
    case LWH => "LWH"
    case LHW => "LHW"
    case WLH => "WLH"
    case WHL => "WHL"
    case HLW => "HLW"
    case HWL => "HWL"
  }

  /** The raw dimension a letter of an orientation name stands for. */
  function Dim(it: Item, letter: char): real
  {
    if letter == 'L' then it.length else if letter == 'W' then it.width else it.height
  }

  /**
   * Sets the packed extents for an orientation. The packed length, width and
   * height are the raw dimensions named by the first, second and third letter
   * of the orientation's name; nothing else changes.
   */
  function SetOrientation(itemToPack: Item, orientation: Orientation): (r: Item)
    ensures r.packLength == Dim(itemToPack, Name(orientation)[0])
    ensures r.packWidth == Dim(itemToPack, Name(orientation)[1])
    ensures r.packHeight == Dim(itemToPack, Name(orientation)[2])
    ensures r.Oriented()
    ensures r == itemToPack.(packLength := r.packLength, packWidth := r.packWidth, packHeight := r.packHeight)
  {
    var o := orientation;
    itemToPack.(
      packLength :=
        if o == LWH || o == LHW then itemToPack.length
        else if o == WHL || o == WLH then itemToPack.width
        else itemToPack.height,
      packWidth :=
        if o == HLW || o == WLH then itemToPack.length
        else if o == LWH || o == HWL then itemToPack.width
        else itemToPack.height,
      packHeight :=
        if o == HWL || o == WHL then itemToPack.length
        else if o == HLW || o == LHW then itemToPack.width
        else itemToPack.height)
  }

  /** The six orientations are six different axis assignments. */
  lemma OrientationsDistinct()
    ensures forall i, j :: 0 <= i < j < |Orientations| ==> Name(Orientations[i]) != Name(Orientations[j])
  {
  }

  /** Trying the six orientations tries every permutation of the raw dimensions. */
  lemma OrientationsCoverPermutations(it: Item, a: real, b: real, c: real)
    requires IsPermutation(a, b, c, it.length, it.width, it.height)
    ensures exists k :: 0 <= k < |Orientations| && SetOrientation(it, Orientations[k]).PackDims() == (a, b, c)
  {
    var l, w, h := it.length, it.width, it.height;
    var k :=
      if a == l && b == w && c == h then 0
      else if a == l && b == h && c == w then 1
      else if a == w && b == l && c == h then 2
      else if a == w && b == h && c == l then 3
      else if a == h && b == l && c == w then 4
      else 5;
    assert SetOrientation(it, Orientations[k]).PackDims() == (a, b, c);
  }

  // ---------------------------------------------------------------------
  // Boxes and the overlap test
  // ---------------------------------------------------------------------

  /** An axis-aligned box: its origin and its extents along length, width and height. */
  datatype Box = Box(l: real, w: real, h: real, dl: real, dw: real, dh: real)

  /** The box a packed item occupies. */
  function PlacedBox(it: Item): Box
  {
    Box(it.coordLength, it.coordWidth, it.coordHeight, it.packLength, it.packWidth, it.packHeight)
  }

  /**
   * The overlap test of the placement scan: two boxes do not overlap when
   * one lies entirely on one side of the other along some axis; boxes may
   * touch.
   */
  predicate Separated(a: Box, b: Box)
  {
    || a.l >= b.l + b.dl || b.l >= a.l + a.dl
    || a.w >= b.w + b.dw || b.w >= a.w + a.dw
    || a.h >= b.h + b.dh || b.h >= a.h + a.dh
  }

  predicate PositiveExtents(a: Box)
  {
    a.dl > 0.0 && a.dw > 0.0 && a.dh > 0.0
  }

  /** The point (x, y, z) lies strictly inside the box. */
  predicate Inside(a: Box, x: real, y: real, z: real)
  {
    a.l < x < a.l + a.dl && a.w < y < a.w + a.dw && a.h < z < a.h + a.dh
  }

  function Max(a: real, b: real): real { if a < b then b else a }
  function Min(a: real, b: real): real { if a < b then a else b }

  /** The overlap test is symmetric. */
  lemma SeparatedSymmetric(a: Box, b: Box)
    ensures Separated(a, b) <==> Separated(b, a)
  {
  }

  /**
   * For boxes of positive extent the test is exact: two boxes are separated
   * if and only if no point lies inside both of them.
   */
  lemma SeparatedIffDisjoint(a: Box, b: Box)
    requires PositiveExtents(a) && PositiveExtents(b)
    ensures Separated(a, b) <==> !exists x, y, z :: Inside(a, x, y, z) && Inside(b, x, y, z)
  {
    if !Separated(a, b) {
      var x := (Max(a.l, b.l) + Min(a.l + a.dl, b.l + b.dl)) / 2.0;
      var y := (Max(a.w, b.w) + Min(a.w + a.dw, b.w + b.dw)) / 2.0;
      var z := (Max(a.h, b.h) + Min(a.h + a.dh, b.h + b.dh)) / 2.0;
      assert Inside(a, x, y, z) && Inside(b, x, y, z);
    }
  }

  /** The box lies inside the container. */
  predicate Contained(c: Container, b: Box)
  {
    0.0 <= b.l && b.l + b.dl <= c.length
    && 0.0 <= b.w && b.w + b.dw <= c.width
    && 0.0 <= b.h && b.h + b.dh <= c.height
  }

  // ---------------------------------------------------------------------
  // Placement: first fit over integral positions
  // ---------------------------------------------------------------------

  /** Rounding up, as the platform's ceiling of a decimal. */
  function Ceil(x: real): int
  {
    -((-x).Floor)
  }

  lemma CeilBelow(x: real, n: int)
    ensures (n as real) < x <==> n < Ceil(x)
  {
    var f := (-x).Floor;
    assert (f as real) <= -x < (f as real) + 1.0;
  }

  /** A start position of the scan. */
  datatype Pos = Pos(l: int, w: int, h: int)

  /** The scan order: by height, then by width, then by length. */
  predicate Before(p: Pos, q: Pos)
  {
    p.h < q.h || (p.h == q.h && (p.w < q.w || (p.w == q.w && p.l < q.l)))
  }

  /** A position the scan visits: integral, non-negative and below each container extent. */
  predicate Candidate(c: Container, p: Pos)
  {
    0 <= p.l && 0 <= p.w && 0 <= p.h
    && (p.l as real) < c.length && (p.w as real) < c.width && (p.h as real) < c.height
  }

  /** The box the item would occupy with its origin at p. */
  function At(it: Item, p: Pos): Box
  {
    Box(p.l as real, p.w as real, p.h as real, it.packLength, it.packWidth, it.packHeight)
  }

  /** A packed item that the box would overlap. */
  predicate Obstructs(q: Item, b: Box)
  {
    q.isPacked && !Separated(b, PlacedBox(q))
  }

  /** The item fits in the container at p and overlaps no packed item. */
  predicate Feasible(c: Container, it: Item, packed: seq<Item>, p: Pos)
  {
    && (p.l as real) + it.packLength <= c.length
    && (p.w as real) + it.packWidth <= c.width
    && (p.h as real) + it.packHeight <= c.height
    && forall i :: 0 <= i < |packed| ==> !Obstructs(packed[i], At(it, p))
  }

  /**
   * The reference scan: every position from p onwards in scan order, one
   * step of length at a time, until a feasible one is found.
   */
  function ScanFrom(c: Container, it: Item, packed: seq<Item>, p: Pos): Option<Pos>
    requires 0 <= p.l && 0 <= p.w && 0 <= p.h
    decreases Ceil(c.height) - p.h, Ceil(c.width) - p.w, Ceil(c.length) - p.l
  {
    CeilBelow(c.height, p.h);
    CeilBelow(c.width, p.w);
    CeilBelow(c.length, p.l);
    if (p.h as real) >= c.height then None
    else if (p.w as real) >= c.width then ScanFrom(c, it, packed, Pos(0, 0, p.h + 1))
    else if (p.l as real) >= c.length then ScanFrom(c, it, packed, Pos(0, p.w + 1, p.h))
    else if Feasible(c, it, packed, p) then Some(p)
    else ScanFrom(c, it, packed, Pos(p.l + 1, p.w, p.h))
  }

  /** The item at the first feasible position, marked packed; unchanged when there is none. */
  function Place(c: Container, it: Item, packed: seq<Item>): Item
  {
    match ScanFrom(c, it, packed, Pos(0, 0, 0))
    case Some(p) => it.(coordLength := p.l as real, coordWidth := p.w as real, coordHeight := p.h as real, isPacked := true)
    case None => it
  }

  /** The reference scan returns the first feasible position at or after its start. */
  lemma {:induction false} ScanFromIsFirst(c: Container, it: Item, packed: seq<Item>, p: Pos)
    requires 0 <= p.l && 0 <= p.w && 0 <= p.h
    ensures var r := ScanFrom(c, it, packed, p);
      && (r.Some? ==> Candidate(c, r.value) && Feasible(c, it, packed, r.value) && !Before(r.value, p))
      && (forall q :: Candidate(c, q) && !Before(q, p) && (r.None? || Before(q, r.value)) ==> !Feasible(c, it, packed, q))
    decreases Ceil(c.height) - p.h, Ceil(c.width) - p.w, Ceil(c.length) - p.l
  {
    CeilBelow(c.height, p.h);
    CeilBelow(c.width, p.w);
    CeilBelow(c.length, p.l);
    if (p.h as real) >= c.height {
    } else if (p.w as real) >= c.width {
      ScanFromIsFirst(c, it, packed, Pos(0, 0, p.h + 1));
    } else if (p.l as real) >= c.length {
      ScanFromIsFirst(c, it, packed, Pos(0, p.w + 1, p.h));
    } else if Feasible(c, it, packed, p) {
    } else {
      ScanFromIsFirst(c, it, packed, Pos(p.l + 1, p.w, p.h));
    }
  }

  /**
   * Placement is first fit: a placed item sits at a feasible integral
   * position (inside the container, overlapping no packed item) and no
   * position earlier in scan order is feasible; an item left unplaced comes
   * back unchanged, and then no position is feasible at all.
   */
  lemma PlaceIsFirstFit(c: Container, it: Item, packed: seq<Item>)
    requires !it.isPacked
    ensures var r := Place(c, it, packed);
      && r.(coordLength := it.coordLength, coordWidth := it.coordWidth, coordHeight := it.coordHeight, isPacked := false) == it
      && (r.isPacked ==>
            exists p :: Candidate(c, p) && Feasible(c, it, packed, p) && PlacedBox(r) == At(it, p)
                        && forall q :: Candidate(c, q) && Before(q, p) ==> !Feasible(c, it, packed, q))
      && (!r.isPacked ==> r == it && forall q :: Candidate(c, q) ==> !Feasible(c, it, packed, q))
  {
    ScanFromIsFirst(c, it, packed, Pos(0, 0, 0));
    match ScanFrom(c, it, packed, Pos(0, 0, 0))
    case Some(p) =>
      assert PlacedBox(Place(c, it, packed)) == At(it, p);
    case None =>
  }

  /** A placed item lies inside the container and is separated from every packed item. */
  lemma PlaceIsSound(c: Container, it: Item, packed: seq<Item>)
    requires !it.isPacked
    ensures var r := Place(c, it, packed);
      r.isPacked ==>
        Contained(c, PlacedBox(r))
        && forall i :: 0 <= i < |packed| && packed[i].isPacked ==> Separated(PlacedBox(r), PlacedBox(packed[i]))
  {
    PlaceIsFirstFit(c, it, packed);
  }

  /** Moving right along length stays obstructed while the start lies before the obstacle's far face. */
  lemma ObstructionPersists(it: Item, q: Item, p: Pos, k: int)
    requires Obstructs(q, At(it, p))
    requires p.l <= k && (k as real) < q.coordLength + q.packLength
    ensures Obstructs(q, At(it, Pos(k, p.w, p.h)))
  {
  }

  /** The reference scan passes over a run of infeasible positions in a row. */
  lemma {:induction false} ScanSkips(c: Container, it: Item, packed: seq<Item>, p: Pos, j: int)
    requires 0 <= p.l <= j && 0 <= p.w && 0 <= p.h
    requires (p.h as real) < c.height && (p.w as real) < c.width
    requires forall k :: p.l <= k < j && (k as real) < c.length ==> !Feasible(c, it, packed, Pos(k, p.w, p.h))
    ensures ScanFrom(c, it, packed, p) == ScanFrom(c, it, packed, Pos(j, p.w, p.h))
    decreases j - p.l
  {
    if p.l < j {
      if (p.l as real) >= c.length {
        assert (j as real) >= c.length;
      } else {
        ScanSkips(c, it, packed, Pos(p.l + 1, p.w, p.h), j);
      }
    }
  }

  /**
   * Scans height, width and length for the first integral position where the
   * item fits the container and overlaps no packed item; when a packed item
   * is in the way, the length jumps past its far face.
   */
  method PlaceItemInContainer(container: Container, itemToPlace: Item, packedItems: seq<Item>) returns (r: Item)
    ensures r == Place(container, itemToPlace, packedItems)
  {
    ghost var target := ScanFrom(container, itemToPlace, packedItems, Pos(0, 0, 0));
    var placeHeight := 0;
    while (placeHeight as real) < container.height
      invariant 0 <= placeHeight
      invariant ScanFrom(container, itemToPlace, packedItems, Pos(0, 0, placeHeight)) == target
      decreases Ceil(container.height) - placeHeight
    {
      CeilBelow(container.height, placeHeight);
      var placeWidth := 0;
      while (placeWidth as real) < container.width
        invariant 0 <= placeWidth
        invariant ScanFrom(container, itemToPlace, packedItems, Pos(0, placeWidth, placeHeight)) == target
        decreases Ceil(container.width) - placeWidth
      {
        CeilBelow(container.width, placeWidth);
        var placeLength := 0;
        while (placeLength as real) < container.length
          invariant 0 <= placeLength
          invariant ScanFrom(container, itemToPlace, packedItems, Pos(placeLength, placeWidth, placeHeight)) == target
          decreases Ceil(container.length) - placeLength
        {
          CeilBelow(container.length, placeLength);
          ghost var here := Pos(placeLength, placeWidth, placeHeight);
          var obstructed := false;
          if (placeLength as real) + itemToPlace.packLength <= container.length
             && (placeWidth as real) + itemToPlace.packWidth <= container.width
             && (placeHeight as real) + itemToPlace.packHeight <= container.height
          {
            var i := 0;
            while i < |packedItems|
              invariant 0 <= i <= |packedItems|
              invariant forall j :: 0 <= j < i ==> !Obstructs(packedItems[j], At(itemToPlace, here))
            {
              var itemToCheck := packedItems[i];
              if itemToCheck.isPacked {
                if !(
                  || (placeLength as real) >= itemToCheck.coordLength + itemToCheck.packLength
                  || itemToCheck.coordLength >= (placeLength as real) + itemToPlace.packLength
                  || (placeWidth as real) >= itemToCheck.coordWidth + itemToCheck.packWidth
                  || itemToCheck.coordWidth >= (placeWidth as real) + itemToPlace.packWidth
                  || (placeHeight as real) >= itemToCheck.coordHeight + itemToCheck.packHeight
                  || itemToCheck.coordHeight >= (placeHeight as real) + itemToPlace.packHeight)
                {
                  obstructed := true;
                  var farFace := itemToCheck.coordLength + itemToCheck.packLength;
                  if (placeLength as real) < farFace {
                    placeLength := Ceil(farFace) - 1;
                    forall k | here.l <= k < placeLength + 1
                      ensures !Feasible(container, itemToPlace, packedItems, Pos(k, here.w, here.h))
                    {
                      CeilBelow(farFace, k);
                      ObstructionPersists(itemToPlace, itemToCheck, here, k);
                    }
                    ScanSkips(container, itemToPlace, packedItems, here, placeLength + 1);
                  }
                  break;
                }
              }
              i := i + 1;
            }
            if !obstructed {
              assert Feasible(container, itemToPlace, packedItems, here);
              r := itemToPlace.(coordLength := placeLength as real, coordWidth := placeWidth as real,
                                coordHeight := placeHeight as real, isPacked := true);
              return;
            }
          }
          placeLength := placeLength + 1;
        }
        placeWidth := placeWidth + 1;
      }
      placeHeight := placeHeight + 1;
    }
    r := itemToPlace;
  }

  // ---------------------------------------------------------------------
  // Fill rank
  // ---------------------------------------------------------------------

  predicate AllPacked(items: seq<Item>)
  {
    forall i :: 0 <= i < |items| ==> items[i].isPacked
  }

  /** The total volume of the packed items. */
  function PackedVolume(items: seq<Item>): real
  {
    if items == [] then 0.0
    else (if items[0].isPacked then items[0].Volume() else 0.0) + PackedVolume(items[1..])
  }

  /**
   * The rank of a branch: 0 for a container of no volume; otherwise 100 when
   * every item is packed, plus the packed share of the container volume as
   * a percentage rounded up.
   */
  function GetFillRank(container: Container, items: seq<Item>): int
  {
    var containerVolume := container.length * container.width * container.height;
    if containerVolume == 0.0 then 0
    else (if AllPacked(items) then 100 else 0) + Ceil(PackedVolume(items) / containerVolume * 100.0)
  }

  /**
   * When the packed volume is within the container volume the rank lies in
   * 0..200, and a branch packing everything ranks at least 100 while any
   * other branch ranks at most 100.
   */
  lemma FillRankRange(container: Container, items: seq<Item>)
    requires container.Volume() > 0.0
    requires 0.0 <= PackedVolume(items) <= container.Volume()
    ensures AllPacked(items) ==> 100 <= GetFillRank(container, items) <= 200
    ensures !AllPacked(items) ==> 0 <= GetFillRank(container, items) <= 100
  {
    var cv := container.Volume();
    var pct := PackedVolume(items) / cv * 100.0;
    assert 0.0 <= pct <= 100.0 by {
      ShareAtMostOne(PackedVolume(items), cv);
    }
    CeilBelow(pct, -1);
    CeilBelow(pct, 100);
  }

  lemma ShareAtMostOne(part: real, whole: real)
    requires whole > 0.0 && 0.0 <= part <= whole
    ensures 0.0 <= part / whole <= 1.0
  {
    var q := part / whole;
    assert q * whole == part;
  }

  /** The fill rank of a container of no volume is 0. */
  lemma FillRankEmptyContainer(container: Container, items: seq<Item>)
    requires container.Volume() == 0.0
    ensures GetFillRank(container, items) == 0
  {
  }

  // ---------------------------------------------------------------------
  // The recursive search
  // ---------------------------------------------------------------------

  /** The first index holding the maximum: a later entry replaces the best only when strictly greater. */
  function FirstMax(ranks: seq<int>): (k: nat)
    requires |ranks| > 0
    ensures k < |ranks|
    ensures forall i :: 0 <= i < |ranks| ==> ranks[i] <= ranks[k]
    ensures forall i :: 0 <= i < k ==> ranks[i] < ranks[k]
  {
    if |ranks| == 1 then 0
    else
      var k := FirstMax(ranks[..|ranks| - 1]);
      if ranks[|ranks| - 1] > ranks[k] then |ranks| - 1 else k
  }

  /** Appending a rank moves the first maximum only when the new rank is strictly greater. */
  lemma FirstMaxAppend(ranks: seq<int>, x: int)
    requires |ranks| > 0
    ensures FirstMax(ranks + [x]) == if x > ranks[FirstMax(ranks)] then |ranks| else FirstMax(ranks)
  {
    assert (ranks + [x])[..|ranks|] == ranks;
  }

  function Ranks(container: Container, results: seq<seq<Item>>): (r: seq<int>)
    ensures |r| == |results|
    ensures forall i :: 0 <= i < |results| ==> r[i] == GetFillRank(container, results[i])
  {
    seq(|results|, i requires 0 <= i < |results| => GetFillRank(container, results[i]))
  }

  /**
   * The result of the search: the packed list (the item to pack, if any,
   * appended after placement) and then, if items remain, the branch with the
   * greatest fill rank among the six orientations of the next item, the
   * first on ties.
   */
  function Fill(container: Container, packedItems: seq<Item>, unPackedItems: seq<Item>, itemToPack: Option<Item>): seq<Item>
    decreases |unPackedItems|, 2
  {
    var packed := Packed(container, packedItems, itemToPack);
    if |unPackedItems| == 0 then packed
    else
      var results := Branches(container, packed, unPackedItems);
      results[FirstMax(Ranks(container, results))]
  }

  /** The packed list after the item to pack, if any, has been placed and appended. */
  function Packed(container: Container, packedItems: seq<Item>, itemToPack: Option<Item>): seq<Item>
  {
    if itemToPack.Some? then packedItems + [Place(container, itemToPack.value, packedItems)] else packedItems
  }

  /** The six branches, one per orientation of the next unpacked item. */
  function Branches(container: Container, packed: seq<Item>, unPackedItems: seq<Item>): (r: seq<seq<Item>>)
    requires |unPackedItems| > 0
    ensures |r| == |Orientations|
    ensures forall k :: 0 <= k < |Orientations| ==> r[k] == Branch(container, packed, unPackedItems, k)
    decreases |unPackedItems|, 1
  {
    seq(|Orientations|, k requires 0 <= k < |Orientations| => Branch(container, packed, unPackedItems, k))
  }

  /** The branch that packs a copy of the next item in orientation k, then the rest. */
  function Branch(container: Container, packed: seq<Item>, unPackedItems: seq<Item>, k: int): seq<Item>
    requires |unPackedItems| > 0 && 0 <= k < |Orientations|
    decreases |unPackedItems|, 0
  {
    Fill(container, packed, unPackedItems[1..], Some(SetOrientation(CopyItem(unPackedItems[0]), Orientations[k])))
  }

  /**
   * Packs the item to pack (if any), then tries the six orientations of the
   * next unpacked item recursively and keeps the best-ranked branch.
   */
  method FillContainerItemFirst(container: Container, packedItems: seq<Item>, unPackedItems: seq<Item>, itemToPack: Option<Item>)
    returns (r: seq<Item>)
    ensures r == Fill(container, packedItems, unPackedItems, itemToPack)
    decreases |unPackedItems|, 1
  {
    var packed := packedItems;
    if itemToPack.Some? {
      var placed := PlaceItemInContainer(container, itemToPack.value, packed);
      packed := packed + [placed];
    }
    if |unPackedItems| > 0 {
      packed := TryOrientations(container, packed, unPackedItems);
    }
    r := packed;
  }

  /**
   * The orientation loop of the search: each orientation of a copy of the
   * next item is packed with the rest, and a result replaces the best so far
   * only when its fill rank is strictly greater.
   */
  method TryOrientations(container: Container, packed: seq<Item>, unPackedItems: seq<Item>) returns (best: seq<Item>)
    requires |unPackedItems| > 0
    ensures var results := Branches(container, packed, unPackedItems);
      best == results[FirstMax(Ranks(container, results))]
    decreases |unPackedItems|, 0
  {
    var bestResult: Option<seq<Item>> := None;
    ghost var all := Branches(container, packed, unPackedItems);
    ghost var results: seq<seq<Item>> := [];
    for k := 0 to |Orientations|
      invariant results == all[..k]
      invariant bestResult.None? <==> k == 0
      invariant k > 0 ==> bestResult.value == results[FirstMax(Ranks(container, results))]
    {
      var nextItemToPack := SetOrientation(CopyItem(unPackedItems[0]), Orientations[k]);
      var result := FillContainerItemFirst(container, packed, unPackedItems[1..], Some(nextItemToPack));
      assert result == all[k] by {
        assert all[k] == Branch(container, packed, unPackedItems, k);
      }
      if AllPacked(result) {
        if bestResult.None? || GetFillRank(container, result) > GetFillRank(container, bestResult.value) {
          bestResult := Some(result);
        }
      } else if bestResult.None? || GetFillRank(container, result) > GetFillRank(container, bestResult.value) {
        bestResult := Some(result);
      }
      BestAfterAppend(container, results, result);
      PrefixSnoc(all, k);
      results := results + [result];
    }
    assert results == all;
    best := bestResult.value;
  }

  lemma PrefixSnoc<T>(all: seq<T>, k: nat)
    requires k < |all|
    ensures all[..k + 1] == all[..k] + [all[k]]
  {
  }

  /** The first best-ranked result after one more: the new one when it ranks strictly higher than the best so far. */
  lemma BestAfterAppend(container: Container, results: seq<seq<Item>>, result: seq<Item>)
    ensures var all := results + [result];
      all[FirstMax(Ranks(container, all))]
      == if results == [] || GetFillRank(container, result) > GetFillRank(container, results[FirstMax(Ranks(container, results))])
         then result else results[FirstMax(Ranks(container, results))]
  {
    var all := results + [result];
    if results != [] {
      assert Ranks(container, all) == Ranks(container, results) + [GetFillRank(container, result)];
      FirstMaxAppend(Ranks(container, results), GetFillRank(container, result));
    }
  }

  /**
   * r keeps every unit of a search step: the packed list first unchanged,
   * then the item to pack, then one record per unpacked item in order, each
   * the same unit as before.
   */
  ghost predicate KeepsUnits(r: seq<Item>, packedItems: seq<Item>, unPackedItems: seq<Item>, itemToPack: Option<Item>)
  {
    var n := |packedItems| + (if itemToPack.Some? then 1 else 0);
    && |r| == n + |unPackedItems|
    && r[..|packedItems|] == packedItems
    && (itemToPack.Some? ==> SameUnit(r[|packedItems|], itemToPack.value))
    && forall i :: 0 <= i < |unPackedItems| ==> SameUnit(r[n + i], unPackedItems[i])
  }

  /** The search keeps every unit. */
  lemma {:induction false} FillShape(container: Container, packedItems: seq<Item>, unPackedItems: seq<Item>, itemToPack: Option<Item>)
    ensures KeepsUnits(Fill(container, packedItems, unPackedItems, itemToPack), packedItems, unPackedItems, itemToPack)
    decreases |unPackedItems|
  {
    var packed := Packed(container, packedItems, itemToPack);
    var r := Fill(container, packedItems, unPackedItems, itemToPack);
    PackedShape(container, packedItems, itemToPack);
    if |unPackedItems| == 0 {
      assert r == packed;
      KeepsUnitsEnd(packed, packedItems, itemToPack);
    } else {
      var results := Branches(container, packed, unPackedItems);
      var k := FirstMax(Ranks(container, results));
      var next := SetOrientation(CopyItem(unPackedItems[0]), Orientations[k]);
      assert r == Fill(container, packed, unPackedItems[1..], Some(next)) by {
        assert r == results[k];
      }
      FillShape(container, packed, unPackedItems[1..], Some(next));
      KeepsUnitsStep(r, packed, packedItems, unPackedItems, itemToPack, next);
    }
  }

  /** Placing the item to pack appends one record for the same unit. */
  lemma PackedShape(container: Container, packedItems: seq<Item>, itemToPack: Option<Item>)
    ensures var packed := Packed(container, packedItems, itemToPack);
      && |packed| == |packedItems| + (if itemToPack.Some? then 1 else 0)
      && packed[..|packedItems|] == packedItems
      && (itemToPack.Some? ==> SameUnit(packed[|packedItems|], itemToPack.value))
  {
  }

  /** With nothing left to pack, the packed list keeps every unit. */
  lemma KeepsUnitsEnd(packed: seq<Item>, packedItems: seq<Item>, itemToPack: Option<Item>)
    requires |packed| == |packedItems| + (if itemToPack.Some? then 1 else 0)
    requires packed[..|packedItems|] == packedItems
    requires itemToPack.Some? ==> SameUnit(packed[|packedItems|], itemToPack.value)
    ensures KeepsUnits(packed, packedItems, [], itemToPack)
  {
  }

  /** A branch that keeps the units of the next step keeps the units of this one. */
  lemma KeepsUnitsStep(r: seq<Item>, packed: seq<Item>, packedItems: seq<Item>, unPackedItems: seq<Item>,
                       itemToPack: Option<Item>, next: Item)
    requires |unPackedItems| > 0
    requires |packed| == |packedItems| + (if itemToPack.Some? then 1 else 0)
    requires packed[..|packedItems|] == packedItems
    requires itemToPack.Some? ==> SameUnit(packed[|packedItems|], itemToPack.value)
    requires SameUnit(next, unPackedItems[0])
    requires KeepsUnits(r, packed, unPackedItems[1..], Some(next))
    ensures KeepsUnits(r, packedItems, unPackedItems, itemToPack)
  {
    var n := |packed|;
    assert r[..|packedItems|] == r[..n][..|packedItems|];
    assert itemToPack.Some? ==> r[|packedItems|] == r[..n][|packedItems|];
    forall i | 0 <= i < |unPackedItems|
      ensures SameUnit(r[n + i], unPackedItems[i])
    {
      if i > 0 {
        var j := i - 1;
        assert SameUnit(r[(n + 1) + j], unPackedItems[1..][j]);
      }
    }
  }

  /**
   * The packing is consistent: every packed record lies inside the container
   * in one of the orientations of its raw dimensions, and packed records are
   * pairwise separated.
   */
  predicate Consistent(container: Container, items: seq<Item>)
  {
    && (forall i :: 0 <= i < |items| && items[i].isPacked ==>
          Contained(container, PlacedBox(items[i])) && items[i].Oriented())
    && (forall i, j :: 0 <= i < j < |items| && items[i].isPacked && items[j].isPacked ==>
          Separated(PlacedBox(items[i]), PlacedBox(items[j])))
  }

  predicate Unplaced(items: seq<Item>)
  {
    forall i :: 0 <= i < |items| ==> !items[i].isPacked
  }

  /** The search never breaks a consistent packing. */
  lemma {:induction false} FillConsistent(container: Container, packedItems: seq<Item>, unPackedItems: seq<Item>, itemToPack: Option<Item>)
    requires Consistent(container, packedItems)
    requires itemToPack.Some? ==> !itemToPack.value.isPacked && itemToPack.value.Oriented()
    requires Unplaced(unPackedItems)
    ensures Consistent(container, Fill(container, packedItems, unPackedItems, itemToPack))
    decreases |unPackedItems|
  {
    var packed := Packed(container, packedItems, itemToPack);
    if itemToPack.Some? {
      PlaceIsSound(container, itemToPack.value, packedItems);
      PlaceIsFirstFit(container, itemToPack.value, packedItems);
    }
    assert Consistent(container, packed);
    if |unPackedItems| > 0 {
      var results := Branches(container, packed, unPackedItems);
      var k := FirstMax(Ranks(container, results));
      var next := SetOrientation(CopyItem(unPackedItems[0]), Orientations[k]);
      FillConsistent(container, packed, unPackedItems[1..], Some(next));
    }
  }

  /**
   * The branch kept is one of the six, ranks no lower than any of them, and
   * ranks strictly higher than every earlier one.
   */
  lemma FillKeepsBestBranch(container: Container, packedItems: seq<Item>, unPackedItems: seq<Item>, itemToPack: Option<Item>)
    requires |unPackedItems| > 0
    ensures var packed := Packed(container, packedItems, itemToPack);
      var r := Fill(container, packedItems, unPackedItems, itemToPack);
      exists k :: 0 <= k < |Orientations| && r == Branch(container, packed, unPackedItems, k)
        && (forall j :: 0 <= j < |Orientations| ==> GetFillRank(container, Branch(container, packed, unPackedItems, j)) <= GetFillRank(container, r))
        && (forall j :: 0 <= j < k ==> GetFillRank(container, Branch(container, packed, unPackedItems, j)) < GetFillRank(container, r))
  {
    var packed := Packed(container, packedItems, itemToPack);
    var results := Branches(container, packed, unPackedItems);
    var k := FirstMax(Ranks(container, results));
    assert Fill(container, packedItems, unPackedItems, itemToPack) == Branch(container, packed, unPackedItems, k);
  }

  // ---------------------------------------------------------------------
  // The run: one unit per requested copy, largest first
  // ---------------------------------------------------------------------

  /** The items with a positive quantity, in input order. */
  function Requested(items: seq<Item>): (r: seq<Item>)
    ensures forall i :: 0 <= i < |r| ==> r[i].quantity > 0 && r[i] in items
  {
    if items == [] then []
    else (if items[0].quantity > 0 then [items[0]] else []) + Requested(items[1..])
  }

  /** The sort key for largest volume first. */
  function VolumeKey(it: Item): real
  {
    -it.Volume()
  }

  /** The unit an item expands into: a fresh item of quantity one with the same id and raw dimensions. */
  function UnitOf(it: Item): Item
  {
    NewItem(it.id, it.length, it.width, it.height, 1)
  }

  /** The units one item expands into: as many units as its quantity. */
  function UnitsOf(it: Item): (r: seq<Item>)
    ensures |r| == if it.quantity > 0 then it.quantity else 0
    ensures forall i :: 0 <= i < |r| ==> r[i] == UnitOf(it)
  {
    if it.quantity <= 0 then [] else Repeat(UnitOf(it), it.quantity)
  }

  function Expand(s: seq<Item>): seq<Item>
  {
    if s == [] then [] else UnitsOf(s[0]) + Expand(s[1..])
  }

  /** The total requested quantity: the sum of the positive quantities. */
  function Demand(items: seq<Item>): nat
  {
    if items == [] then 0
    else (if items[0].quantity > 0 then items[0].quantity else 0) + Demand(items[1..])
  }

  /** The units to pack, in packing order. */
  function UnitsToPack(items: seq<Item>): seq<Item>
  {
    Expand(StableSort.SortBy(Requested(items), VolumeKey))
  }

  lemma {:induction false} ExpandAppend(a: seq<Item>, b: seq<Item>)
    ensures Expand(a + b) == Expand(a) + Expand(b)
  {
    if a == [] {
      assert a + b == b;
    } else {
      var ab := a + b;
      assert ab[0] == a[0] && ab[1..] == a[1..] + b;
      ExpandAppend(a[1..], b);
      calc {
        Expand(ab);
        UnitsOf(a[0]) + Expand(a[1..] + b);
        UnitsOf(a[0]) + (Expand(a[1..]) + Expand(b));
        (UnitsOf(a[0]) + Expand(a[1..])) + Expand(b);
      }
    }
  }

  lemma {:induction false} ExpandLength(s: seq<Item>)
    ensures |Expand(s)| == Demand(s)
  {
    if s != [] {
      ExpandLength(s[1..]);
    }
  }

  lemma {:induction false} DemandRequested(s: seq<Item>)
    ensures Demand(Requested(s)) == Demand(s)
  {
    if s != [] {
      DemandRequested(s[1..]);
      var rest := Requested(s[1..]);
      if s[0].quantity > 0 {
        assert Requested(s) == [s[0]] + rest;
        assert ([s[0]] + rest)[1..] == rest;
      } else {
        assert Requested(s) == rest;
      }
    }
  }

  lemma {:induction false} DemandInsert(x: Item, s: seq<Item>)
    ensures Demand(StableSort.Insert(x, s, VolumeKey)) == Demand([x]) + Demand(s)
  {
    if s == [] || VolumeKey(x) <= VolumeKey(s[0]) {
      assert ([x] + s)[1..] == s;
    } else {
      DemandInsert(x, s[1..]);
      var r := StableSort.Insert(x, s, VolumeKey);
      assert r[1..] == StableSort.Insert(x, s[1..], VolumeKey);
    }
  }

  lemma {:induction false} DemandSorted(s: seq<Item>)
    ensures Demand(StableSort.SortBy(s, VolumeKey)) == Demand(s)
  {
    if s != [] {
      DemandSorted(s[1..]);
      DemandInsert(s[0], StableSort.SortBy(s[1..], VolumeKey));
    }
  }

  /** One unit is made for every requested copy: the number of units is the total requested quantity. */
  lemma UnitsCount(items: seq<Item>)
    ensures |UnitsToPack(items)| == Demand(items)
  {
    var sorted := StableSort.SortBy(Requested(items), VolumeKey);
    ExpandLength(sorted);
    DemandSorted(Requested(items));
    DemandRequested(items);
  }

  lemma {:induction false} ExpandMembers(s: seq<Item>)
    ensures forall u :: u in Expand(s) ==>
      exists x :: x in s && x.quantity > 0 && u == NewItem(x.id, x.length, x.width, x.height, 1)
  {
    if s != [] {
      ExpandMembers(s[1..]);
      forall u | u in Expand(s)
        ensures exists x :: x in s && x.quantity > 0 && u == NewItem(x.id, x.length, x.width, x.height, 1)
      {
        assert Expand(s) == UnitsOf(s[0]) + Expand(s[1..]);
        if u in UnitsOf(s[0]) {
          assert s[0] in s;
        } else {
          assert u in Expand(s[1..]);
          var x :| x in s[1..] && x.quantity > 0 && u == NewItem(x.id, x.length, x.width, x.height, 1);
          assert x in s;
        }
      }
    }
  }

  /**
   * Every unit is a fresh copy of a requested item: same id and raw
   * dimensions, quantity one, not packed, at the origin.
   */
  lemma UnitsAreFresh(items: seq<Item>)
    ensures forall u :: u in UnitsToPack(items) ==>
      exists x :: x in items && x.quantity > 0 && u == NewItem(x.id, x.length, x.width, x.height, 1)
  {
    var requested := Requested(items);
    var sorted := StableSort.SortBy(requested, VolumeKey);
    ExpandMembers(sorted);
    forall u | u in UnitsToPack(items)
      ensures exists x :: x in items && x.quantity > 0 && u == NewItem(x.id, x.length, x.width, x.height, 1)
    {
      var x :| x in sorted && x.quantity > 0 && u == NewItem(x.id, x.length, x.width, x.height, 1);
      assert x in multiset(sorted);
      assert x in requested;
    }
  }

  lemma {:induction false} ExpandBounded(s: seq<Item>, bound: real)
    requires forall m :: 0 <= m < |s| ==> s[m].Volume() <= bound
    ensures forall i :: 0 <= i < |Expand(s)| ==> Expand(s)[i].Volume() <= bound
  {
    if s != [] {
      ExpandBounded(s[1..], bound);
      var head, tail := UnitsOf(s[0]), Expand(s[1..]);
      assert Expand(s) == head + tail;
      forall i | 0 <= i < |head|
        ensures head[i].Volume() <= bound
      {
        NewItemVolume(s[0].id, s[0].length, s[0].width, s[0].height, 1);
      }
    }
  }

  lemma {:induction false} ExpandLargestFirst(s: seq<Item>)
    requires StableSort.SortedBy(s, VolumeKey)
    ensures forall i, j :: 0 <= i < j < |Expand(s)| ==> Expand(s)[i].Volume() >= Expand(s)[j].Volume()
  {
    if s != [] {
      ExpandLargestFirst(s[1..]);
      var head, tail := UnitsOf(s[0]), Expand(s[1..]);
      var e := Expand(s);
      assert e == head + tail;
      var top := s[0].Volume();
      assert forall m :: 0 <= m < |s[1..]| ==> s[1..][m].Volume() <= top by {
        forall m | 0 <= m < |s[1..]|
          ensures s[1..][m].Volume() <= top
        {
          assert VolumeKey(s[0]) <= VolumeKey(s[m + 1]);
        }
      }
      ExpandBounded(s[1..], top);
      NewItemVolume(s[0].id, s[0].length, s[0].width, s[0].height, 1);
      assert forall i :: 0 <= i < |head| ==> head[i].Volume() == top;
      forall i, j | 0 <= i < j < |e|
        ensures e[i].Volume() >= e[j].Volume()
      {
        if j < |head| {
          assert e[i] == head[i] && e[j] == head[j];
        } else if i < |head| {
          assert e[i] == head[i] && e[j] == tail[j - |head|];
        } else {
          assert e[i] == tail[i - |head|] && e[j] == tail[j - |head|];
        }
      }
    }
  }

  /** The units come largest volume first. */
  lemma UnitsLargestFirst(items: seq<Item>)
    ensures var units := UnitsToPack(items);
      forall i, j :: 0 <= i < j < |units| ==> units[i].Volume() >= units[j].Volume()
  {
    ExpandLargestFirst(StableSort.SortBy(Requested(items), VolumeKey));
  }

  lemma {:induction false} WithKeyAppend(a: seq<Item>, b: seq<Item>, v: real)
    ensures StableSort.WithKey(a + b, VolumeKey, v) == StableSort.WithKey(a, VolumeKey, v) + StableSort.WithKey(b, VolumeKey, v)
  {
    if a == [] {
      assert a + b == b;
    } else {
      var ab := a + b;
      assert ab[0] == a[0] && ab[1..] == a[1..] + b;
      WithKeyAppend(a[1..], b, v);
      var h := if VolumeKey(a[0]) == v then [a[0]] else [];
      calc {
        StableSort.WithKey(ab, VolumeKey, v);
        h + StableSort.WithKey(a[1..] + b, VolumeKey, v);
        h + (StableSort.WithKey(a[1..], VolumeKey, v) + StableSort.WithKey(b, VolumeKey, v));
        (h + StableSort.WithKey(a[1..], VolumeKey, v)) + StableSort.WithKey(b, VolumeKey, v);
      }
    }
  }

  lemma {:induction false} WithKeyUnits(it: Item, v: real)
    ensures StableSort.WithKey(UnitsOf(it), VolumeKey, v) == if VolumeKey(it) == v then UnitsOf(it) else []
    decreases |UnitsOf(it)|
  {
    var us := UnitsOf(it);
    if us != [] {
      var rest := it.(quantity := it.quantity - 1);
      assert us[1..] == UnitsOf(rest);
      WithKeyUnits(rest, v);
    }
  }

  lemma {:induction false} ExpandWithKey(s: seq<Item>, v: real)
    ensures StableSort.WithKey(Expand(s), VolumeKey, v) == Expand(StableSort.WithKey(s, VolumeKey, v))
  {
    if s != [] {
      ExpandWithKey(s[1..], v);
      WithKeyAppend(UnitsOf(s[0]), Expand(s[1..]), v);
      WithKeyUnits(s[0], v);
      var rest := StableSort.WithKey(s[1..], VolumeKey, v);
      if VolumeKey(s[0]) == v {
        assert StableSort.WithKey(s, VolumeKey, v) == [s[0]] + rest;
        assert ([s[0]] + rest)[1..] == rest;
      } else {
        assert StableSort.WithKey(s, VolumeKey, v) == rest;
      }
    }
  }

  /** Units of equal volume keep the order of the requested items they came from. */
  lemma UnitsStable(items: seq<Item>, v: real)
    ensures StableSort.WithKey(UnitsToPack(items), VolumeKey, v)
         == Expand(StableSort.WithKey(Requested(items), VolumeKey, v))
  {
    var sorted := StableSort.SortBy(Requested(items), VolumeKey);
    ExpandWithKey(sorted, v);
    StableSort.SortIsStable(Requested(items), VolumeKey, v);
  }

  lemma ExpandSnoc(s: seq<Item>, n: nat)
    requires n < |s|
    ensures Expand(s[..n + 1]) == Expand(s[..n]) + UnitsOf(s[n])
  {
    assert s[..n + 1] == s[..n] + [s[n]];
    ExpandAppend(s[..n], [s[n]]);
    assert [s[n]][1..] == [];
  }

  /** The records with the given packed flag, in order. */
  function Where(s: seq<Item>, packed: bool): (r: seq<Item>)
    ensures forall i :: 0 <= i < |r| ==> r[i].isPacked == packed && r[i] in s
  {
    if s == [] then []
    else (if s[0].isPacked == packed then [s[0]] else []) + Where(s[1..], packed)
  }

  /** What AK_PACK returns for a container and the requested items. */
  function Pack(container: Container, items: seq<Item>): AlgorithmPackingResult
  {
    var results := Fill(container, [], UnitsToPack(items), None);
    AlgorithmPackingResult("AK_PACK", AllPacked(results), Where(results, true), Where(results, false))
  }

  /** One unit of quantity one per requested copy, item by item. */
  method SplitIntoUnits(ordered: seq<Item>) returns (itemsToPack: seq<Item>)
    ensures itemsToPack == Expand(ordered)
  {
    itemsToPack := [];
    for n := 0 to |ordered|
      invariant itemsToPack == Expand(ordered[..n])
    {
      var item := ordered[n];
      ghost var done := itemsToPack;
      ghost var unit := UnitOf(item);
      var i := item.quantity;
      while i > 0
        invariant item.quantity <= 0 ==> i == item.quantity && itemsToPack == done
        invariant item.quantity > 0 ==> 0 <= i <= item.quantity && itemsToPack == done + Repeat(unit, item.quantity - i)
      {
        itemsToPack := itemsToPack + [NewItem(item.id, item.length, item.width, item.height, 1)];
        i := i - 1;
      }
      ExpandSnoc(ordered, n);
    }
    assert ordered[..|ordered|] == ordered;
  }

  /**
   * Splits the requested items into units, largest volume first, runs the
   * search from an empty container, and reports the packed and unpacked
   * units.
   */
  method Run(container: Container, items: seq<Item>) returns (result: AlgorithmPackingResult)
    ensures result == Pack(container, items)
  {
    var ordered := StableSort.SortBy(Requested(items), VolumeKey);
    var itemsToPack := SplitIntoUnits(ordered);
    var results := FillContainerItemFirst(container, [], itemsToPack, None);
    result := AlgorithmPackingResult("AK_PACK", AllPacked(results), Where(results, true), Where(results, false));
  }

  // ---------------------------------------------------------------------
  // What the run reports
  // ---------------------------------------------------------------------

  lemma {:induction false} WhereSplits(s: seq<Item>)
    ensures multiset(Kinds(Where(s, true))) + multiset(Kinds(Where(s, false))) == multiset(Kinds(s))
  {
    if s != [] {
      WhereSplits(s[1..]);
      var p, u := Where(s[1..], true), Where(s[1..], false);
      KindsAppend([s[0]], s[1..]);
      assert [s[0]] + s[1..] == s;
      if s[0].isPacked {
        assert Where(s, true) == [s[0]] + p && Where(s, false) == u;
        KindsAppend([s[0]], p);
      } else {
        assert Where(s, true) == p && Where(s, false) == [s[0]] + u;
        KindsAppend([s[0]], u);
      }
    }
  }

  lemma {:induction false} WhereNoneUnpacked(s: seq<Item>)
    ensures AllPacked(s) <==> Where(s, false) == []
  {
    if s != [] {
      WhereNoneUnpacked(s[1..]);
      assert AllPacked(s) <==> s[0].isPacked && AllPacked(s[1..]);
    }
  }

  lemma {:induction false} ConsistentWhere(container: Container, s: seq<Item>)
    requires Consistent(container, s)
    ensures Consistent(container, Where(s, true))
  {
    if s != [] {
      ConsistentWhere(container, s[1..]);
      var rest := Where(s[1..], true);
      if s[0].isPacked {
        var r := Where(s, true);
        assert r == [s[0]] + rest;
        forall j | 0 < j < |r|
          ensures Separated(PlacedBox(r[0]), PlacedBox(r[j]))
        {
          assert r[j] in s[1..];
          var m :| 0 <= m < |s[1..]| && s[1..][m] == r[j];
          assert s[m + 1] == r[j];
        }
      } else {
        assert Where(s, true) == rest;
      }
    }
  }

  lemma {:induction false} KindsExpandInsert(x: Item, s: seq<Item>)
    ensures multiset(Kinds(Expand(StableSort.Insert(x, s, VolumeKey))))
         == multiset(Kinds(UnitsOf(x))) + multiset(Kinds(Expand(s)))
  {
    var r := StableSort.Insert(x, s, VolumeKey);
    if s == [] || VolumeKey(x) <= VolumeKey(s[0]) {
      assert r == [x] + s;
      assert r[0] == x && r[1..] == s;
      KindsAppend(UnitsOf(x), Expand(s));
    } else {
      KindsExpandInsert(x, s[1..]);
      var tail := StableSort.Insert(x, s[1..], VolumeKey);
      assert r == [s[0]] + tail;
      assert r[0] == s[0] && r[1..] == tail;
      KindsAppend(UnitsOf(s[0]), Expand(tail));
      KindsAppend(UnitsOf(s[0]), Expand(s[1..]));
    }
  }

  lemma {:induction false} KindsExpandSorted(s: seq<Item>)
    ensures multiset(Kinds(Expand(StableSort.SortBy(s, VolumeKey)))) == multiset(Kinds(Expand(s)))
  {
    if s != [] {
      KindsExpandSorted(s[1..]);
      KindsExpandInsert(s[0], StableSort.SortBy(s[1..], VolumeKey));
      KindsAppend(UnitsOf(s[0]), Expand(s[1..]));
    }
  }

  lemma {:induction false} ExpandFresh(s: seq<Item>)
    ensures forall i :: 0 <= i < |Expand(s)| ==> Expand(s)[i].quantity == 1 && !Expand(s)[i].isPacked
  {
    if s != [] {
      ExpandFresh(s[1..]);
      assert Expand(s) == UnitsOf(s[0]) + Expand(s[1..]);
    }
  }

  /**
   * What the run reports: every requested copy comes back exactly once, as a
   * unit of quantity one, either packed or unpacked; the pack is complete
   * exactly when nothing is left unpacked; and the packed units lie inside
   * the container, each in an orientation of its raw dimensions, pairwise
   * separated.
   */
  lemma PackReport(container: Container, items: seq<Item>)
    ensures var r := Pack(container, items);
      && r.algorithmName == "AK_PACK"
      && |r.packedItems| + |r.unpackedItems| == Demand(items)
      && multiset(Kinds(r.packedItems)) + multiset(Kinds(r.unpackedItems)) == multiset(Kinds(Expand(Requested(items))))
      && (forall x :: x in r.packedItems ==> x.isPacked && x.quantity == 1)
      && (forall x :: x in r.unpackedItems ==> !x.isPacked && x.quantity == 1)
      && (r.isCompletePack <==> r.unpackedItems == [])
      && Consistent(container, r.packedItems)
  {
    var units := UnitsToPack(items);
    var results := Fill(container, [], units, None);
    UnitsCount(items);
    ExpandFresh(StableSort.SortBy(Requested(items), VolumeKey));
    assert Unplaced(units);
    FillShape(container, [], units, None);
    assert |results| == |units|;
    FillConsistent(container, [], units, None);
    ReportedUnits(container, items);
    SplitReport(container, results);
  }

  lemma SplitReport(container: Container, results: seq<Item>)
    requires Consistent(container, results)
    ensures Consistent(container, Where(results, true))
    ensures AllPacked(results) <==> Where(results, false) == []
    ensures |Where(results, true)| + |Where(results, false)| == |results|
  {
    ConsistentWhere(container, results);
    WhereNoneUnpacked(results);
    WhereSplits(results);
    assert |multiset(Kinds(Where(results, true)))| + |multiset(Kinds(Where(results, false)))| == |multiset(Kinds(results))|;
  }

  lemma ReportedUnits(container: Container, items: seq<Item>)
    ensures var results := Fill(container, [], UnitsToPack(items), None);
      && multiset(Kinds(Where(results, true))) + multiset(Kinds(Where(results, false))) == multiset(Kinds(Expand(Requested(items))))
      && forall x :: x in results ==> x.quantity == 1
  {
    var units := UnitsToPack(items);
    var results := Fill(container, [], units, None);
    FillShape(container, [], units, None);
    assert |results| == |units| && forall i :: 0 <= i < |units| ==> SameUnit(results[i], units[i]);
    ExpandFresh(StableSort.SortBy(Requested(items), VolumeKey));
    SameUnitsReported(units, results);
    KindsExpandSorted(Requested(items));
  }

  lemma SameUnitsReported(units: seq<Item>, results: seq<Item>)
    requires |results| == |units|
    requires forall i :: 0 <= i < |units| ==> SameUnit(results[i], units[i]) && units[i].quantity == 1
    ensures multiset(Kinds(Where(results, true))) + multiset(Kinds(Where(results, false))) == multiset(Kinds(units))
    ensures forall x :: x in results ==> x.quantity == 1
  {
    WhereSplits(results);
    assert Kinds(results) == Kinds(units) by {
      forall i | 0 <= i < |results|
        ensures Kind(results[i]) == Kind(units[i])
      {
        assert SameUnit(results[i], units[i]);
      }
    }
  }
}
