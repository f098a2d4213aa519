/**
 * The values the layer packer (EB-AFIT) computes with, as pure functions:
 * the units Initialize lays out, the orientations and best-fit keys of
 * FindBox and AnalyzeBox, the layer evaluation of FindLayer and
 * ListCanditLayers, and the folds that say what those two loops compute.
 */
module AfitSpec {
  import opened Entities
  import opened StableSort
  import opened ScrapPads

  // ---------------------------------------------------------------------
  // Units
  // ---------------------------------------------------------------------

  /** The record Initialize puts at both ends of the unit list. */
  const Sentinel := NewItem(0, 0.0, 0.0, 0.0, 0)

  predicate NonNegativeQuantities(items: seq<Item>)
  {
    forall i :: 0 <= i < |items| ==> items[i].quantity >= 0
  }

  /** Every requested item has three positive dimensions. */
  predicate PositiveDimensions(items: seq<Item>)
  {
    forall i :: 0 <= i < |items| && items[i].quantity > 0 ==>
      items[i].length > 0.0 && items[i].width > 0.0 && items[i].height > 0.0
  }

  /** The copies Initialize makes of one item: Quantity new units of its id and dimensions, each carrying the item's Quantity. */
  function CopiesOf(it: Item): (r: seq<Item>)
    requires it.quantity >= 0
    ensures |r| == it.quantity
    ensures forall i :: 0 <= i < |r| ==> r[i] == NewItem(it.id, it.length, it.width, it.height, it.quantity)
  {
    Repeat(NewItem(it.id, it.length, it.width, it.height, it.quantity), it.quantity)
  }

  /** The sum of the quantities, which Initialize keeps as the unit count. */
  function TotalQuantity(items: seq<Item>): int
  {
    if items == [] then 0 else items[0].quantity + TotalQuantity(items[1..])
  }

  /** The units of all items, item by item, in input order. */
  function UnitsFor(items: seq<Item>): (r: seq<Item>)
    requires NonNegativeQuantities(items)
    ensures |r| == TotalQuantity(items)
  {
    if items == [] then []
    else
      assert NonNegativeQuantities(items[1..]) by {
        forall i | 0 <= i < |items[1..]| ensures items[1..][i].quantity >= 0 {
          assert items[1..][i] == items[i + 1];
        }
      }
      CopiesOf(items[0]) + UnitsFor(items[1..])
  }

  /** Every unit has quantity at least 1, positive dimensions and the id and dimensions of a requested item. */
  lemma {:induction false} UnitsArePositive(items: seq<Item>)
    requires NonNegativeQuantities(items) && PositiveDimensions(items)
    ensures forall i :: 0 <= i < |UnitsFor(items)| ==>
      var u: Item := UnitsFor(items)[i];
      u.quantity >= 1 && u.length > 0.0 && u.width > 0.0 && u.height > 0.0 && !u.isPacked
  {
    if items != [] {
      var rest := items[1..];
      assert NonNegativeQuantities(rest) && PositiveDimensions(rest) by {
        forall i | 0 <= i < |rest| ensures rest[i] == items[i + 1] { }
      }
      UnitsArePositive(rest);
      var a, b := CopiesOf(items[0]), UnitsFor(rest);
      assert UnitsFor(items) == a + b;
      forall i | 0 <= i < |a + b|
        ensures var u: Item := (a + b)[i]; u.quantity >= 1 && u.length > 0.0 && u.width > 0.0 && u.height > 0.0 && !u.isPacked
      {
        if i < |a| {
          assert (a + b)[i] == a[i];
        } else {
          assert (a + b)[i] == b[i - |a|];
        }
      }
    }
  }

  /**
   * From index y on, s is a run of groups: each group is as many consecutive
   * units as the quantity of its first, all with that quantity and the same
   * dimensions.
   */
  ghost predicate GroupedFrom(s: seq<Item>, y: nat)
    decreases |s| - y
  {
    || y == |s|
    || (&& y < |s|
        && 1 <= s[y].quantity
        && y + s[y].quantity <= |s|
        && (forall i :: y <= i < y + s[y].quantity ==> s[i].Dims() == s[y].Dims() && s[i].quantity == s[y].quantity)
        && GroupedFrom(s, y + s[y].quantity))
  }

  lemma {:induction false} GroupedShift(a: seq<Item>, b: seq<Item>, j: nat)
    requires GroupedFrom(b, j)
    ensures GroupedFrom(a + b, |a| + j)
    decreases |b| - j
  {
    if j < |b| {
      var q := b[j].quantity;
      assert (a + b)[|a| + j] == b[j];
      forall i | |a| + j <= i < |a| + j + q
        ensures (a + b)[i] == b[i - |a|]
      {
      }
      GroupedShift(a, b, j + q);
    }
  }

  /** The units Initialize lays out fall into one group per item with a positive quantity. */
  lemma {:induction false} UnitsAreGrouped(items: seq<Item>)
    requires NonNegativeQuantities(items)
    ensures GroupedFrom(UnitsFor(items), 0)
  {
    if items != [] {
      var rest := items[1..];
      assert NonNegativeQuantities(rest) by {
        forall i | 0 <= i < |rest| ensures rest[i] == items[i + 1] { }
      }
      UnitsAreGrouped(rest);
      var a, b := CopiesOf(items[0]), UnitsFor(rest);
      assert UnitsFor(items) == a + b;
      GroupedShift(a, b, 0);
      if |a| == 0 {
        assert a + b == b;
      } else {
        assert (a + b)[0] == a[0];
        forall i | 0 <= i < |a|
          ensures (a + b)[i] == a[i]
        {
        }
      }
    }
  }

  /** The smallest raw dimension among the units s[1..count], or 1 when there are none. */
  function SmallestDim(s: seq<Item>, count: int): (m: real)
    requires 0 <= count < |s|
    ensures forall i :: 1 <= i <= count ==> m <= s[i].length && m <= s[i].width && m <= s[i].height
    ensures count == 0 ==> m == 1.0
    ensures count > 0 ==> exists i :: 1 <= i <= count && (m == s[i].length || m == s[i].width || m == s[i].height)
  {
    if count == 0 then 1.0
    else
      var u := s[count];
      var d := if u.length <= u.width && u.length <= u.height then u.length
               else if u.width <= u.height then u.width else u.height;
      if count == 1 then d
      else
        var m := SmallestDim(s, count - 1);
        if d < m then d else m
  }

  /** The smallest side of the units is positive, and no side of records matching them is smaller. */
  lemma SmallestSide(s: seq<Item>, units: seq<Item>, count: nat)
    requires UnitsMatch(s, units, count)
    ensures var m := SmallestDim(units, count);
      && 0.0 < m
      && forall i :: 1 <= i <= count ==> m <= s[i].length && m <= s[i].width && m <= s[i].height
  {
    forall i | 1 <= i <= count
      ensures SmallestDim(units, count) <= s[i].length
      ensures SmallestDim(units, count) <= s[i].width
      ensures SmallestDim(units, count) <= s[i].height
    {
      assert SameUnit(s[i], units[i]);
    }
  }

  /** Units 1..count have quantity at least 1 and positive dimensions, and fall into groups from 1 on. */
  ghost predicate UnitsReady(units: seq<Item>, count: nat)
    requires count < |units|
  {
    && (forall i :: 1 <= i <= count ==>
          units[i].quantity >= 1 && units[i].length > 0.0 && units[i].width > 0.0 && units[i].height > 0.0)
    && Groups(units, count, 1)
  }

  /**
   * From unit y on, the unit records fall into groups: each group is as many
   * consecutive units as its first one's quantity, all with the same
   * dimensions, the last group ending at count.
   */
  ghost predicate Groups(s: seq<Item>, count: nat, y: nat)
    requires count < |s|
    decreases count + 1 - y
  {
    || y == count + 1
    || (&& 1 <= y <= count
        && 1 <= s[y].quantity
        && y + s[y].quantity <= count + 1
        && (forall i :: y <= i < y + s[y].quantity ==> s[i].Dims() == s[y].Dims())
        && Groups(s, count, y + s[y].quantity))
  }

  /** Records that match the laid-out units group as the units do. */
  lemma {:induction false} GroupsOfUnits(s: seq<Item>, units: seq<Item>, count: nat, y: nat)
    requires |s| == |units| == count + 2 && 1 <= y
    requires forall i :: 0 <= i < |s| ==> SameUnit(s[i], units[i])
    requires Groups(units, count, y)
    ensures Groups(s, count, y)
    decreases count + 1 - y
  {
    if y < count + 1 {
      var q := units[y].quantity;
      assert SameUnit(s[y], units[y]);
      forall i | y <= i < y + q ensures s[i].Dims() == s[y].Dims() {
        assert SameUnit(s[i], units[i]);
      }
      GroupsOfUnits(s, units, count, y + q);
    }
  }

  /** The groups of the units of the items, between two sentinels, start at 1. */
  lemma {:induction false} GroupsOfLayout(u: seq<Item>, y: nat)
    requires GroupedFrom(u, y)
    ensures Groups([Sentinel] + u + [Sentinel], |u|, y + 1)
    decreases |u| - y
  {
    var l := [Sentinel] + u + [Sentinel];
    if y < |u| {
      var q := u[y].quantity;
      assert l[y + 1] == u[y];
      forall i | y + 1 <= i < y + 1 + q ensures l[i].Dims() == l[y + 1].Dims() {
        assert l[i] == u[i - 1];
      }
      GroupsOfLayout(u, y + q);
    }
  }

  /** The group at y, unfolded. */
  lemma GroupAt(s: seq<Item>, count: nat, y: nat)
    requires count < |s| && Groups(s, count, y) && 1 <= y <= count
    ensures 1 <= s[y].quantity && y + s[y].quantity <= count + 1
    ensures forall i :: y <= i < y + s[y].quantity ==> s[i].Dims() == s[y].Dims()
    ensures Groups(s, count, y + s[y].quantity)
  {
  }

  /**
   * The unit records s match the units laid out: index 0 and count + 1
   * hold the sentinels, each record is its unit with only its packing and
   * placement changed, and the closing sentinel is never packed.
   */
  ghost predicate UnitsMatch(s: seq<Item>, units: seq<Item>, count: nat)
  {
    && |s| == count + 2 && |units| == count + 2
    && UnitsReady(units, count)
    && (forall i :: 0 <= i < |s| ==> SameUnit(s[i], units[i]))
    && !s[count + 1].isPacked
  }

  /**
   * The running totals of the packer agree with the unit records: the
   * packed volume and count are those of the units marked packed, and the
   * packing order lists exactly the packed units, once each, while it is
   * kept.
   */
  ghost predicate Totals(s: seq<Item>, count: nat, volume: real, packedCount: int, keepOrder: bool, order: seq<int>)
  {
    && count < |s|
    && volume == PackedVolume(s, count)
    && packedCount == count - UnpackedCount(s, count)
    && (if keepOrder then InOrder(s, count, order) && |order| == packedCount else order == [])
  }

  // ---------------------------------------------------------------------
  // Orientations and best-fit keys (FindBox, AnalyzeBox)
  // ---------------------------------------------------------------------

  /**
   * The orientations FindBox tries, in its order: (dim1, dim2, dim3) taken
   * from (L, W, H), (L, H, W), (W, L, H), (W, H, L), (H, L, W), (H, W, L).
   */
  function BoxOrientation(u: Item, o: int): (d: (real, real, real))
    requires 0 <= o < 6
    ensures IsPermutation(d.0, d.1, d.2, u.length, u.width, u.height)
  {
    if o == 0 then (u.length, u.width, u.height)
    else if o == 1 then (u.length, u.height, u.width)
    else if o == 2 then (u.width, u.length, u.height)
    else if o == 3 then (u.width, u.height, u.length)
    else if o == 4 then (u.height, u.length, u.width)
    else (u.height, u.width, u.length)
  }

  /** The six orientations are all the permutations of the raw dimensions. */
  lemma OrientationsCoverPermutations(u: Item, a: real, b: real, c: real)
    requires IsPermutation(a, b, c, u.length, u.width, u.height)
    ensures exists o :: 0 <= o < 6 && BoxOrientation(u, o) == (a, b, c)
  {
    var l, w, h := u.length, u.width, u.height;
    var o := if (a, b, c) == (l, w, h) then 0
      else if (a, b, c) == (l, h, w) then 1
      else if (a, b, c) == (w, l, h) then 2
      else if (a, b, c) == (w, h, l) then 3
      else if (a, b, c) == (h, l, w) then 4
      else 5;
    assert BoxOrientation(u, o) == (a, b, c);
  }

  /** A cube has one orientation only, which is why FindBox tries a single one for it. */
  lemma CubeHasOneOrientation(u: Item, o: int)
    requires 0 <= o < 6
    requires u.length == u.height && u.height == u.width
    ensures BoxOrientation(u, o) == BoxOrientation(u, 0)
  {
  }

  function Abs(x: real): (r: real)
    ensures r >= 0.0 && (r == x || r == -x)
  {
    if x < 0.0 then -x else x
  }

  /** Strictly smaller in the order: first component, then second, then third. */
  predicate LexLess(a: (real, real, real), b: (real, real, real))
  {
    || a.0 < b.0
    || (a.0 == b.0 && a.1 < b.1)
    || (a.0 == b.0 && a.1 == b.1 && a.2 < b.2)
  }

  /** The order is strict and total on distinct keys. */
  lemma LexLessIsStrictTotal(a: (real, real, real), b: (real, real, real), c: (real, real, real))
    ensures !LexLess(a, a)
    ensures LexLess(a, b) ==> !LexLess(b, a)
    ensures a != b ==> LexLess(a, b) || LexLess(b, a)
    ensures LexLess(a, b) && LexLess(b, c) ==> LexLess(a, c)
  {
  }

  /** A key not below the old best is not below a new best that is itself not above the old one. */
  lemma NotBelowPersists(k: (real, real, real), old_: (real, real, real), new_: (real, real, real))
    requires !LexLess(k, old_) && !LexLess(old_, new_)
    ensures !LexLess(k, new_)
  {
  }

  /** The orientation fits the space: width, height and depth within hmx, hmy and hmz. */
  predicate FitsSpace(d: (real, real, real), hmx: real, hmy: real, hmz: real)
  {
    d.0 <= hmx && d.1 <= hmy && d.2 <= hmz
  }

  /** The key of an orientation within the layer: height left under the layer, then width left, then depth mismatch. */
  function InLayerKey(d: (real, real, real), hmx: real, hy: real, hz: real): (real, real, real)
  {
    (hy - d.1, hmx - d.0, Abs(hz - d.2))
  }

  /** The key of an orientation taller than the layer: height above the layer, then width left, then depth mismatch. */
  function OverflowKey(d: (real, real, real), hmx: real, hy: real, hz: real): (real, real, real)
  {
    (d.1 - hy, hmx - d.0, Abs(hz - d.2))
  }

  /** The largest key FindBox starts from. */
  const KeyLimit: (real, real, real) := (32767.0, 32767.0, 32767.0)

  // ---------------------------------------------------------------------
  // Layer thicknesses (FindLayer, ListCanditLayers)
  // ---------------------------------------------------------------------

  datatype Layer = Layer(layerDim: real, layerEval: real)

  /** The padding entry put at index 0. */
  const Pad := Layer(0.0, -1.0)

  /** A newly added entry before it is written. */
  const Blank := Layer(0.0, 0.0)

  function LayerEvalKey(l: Layer): real
  {
    l.layerEval
  }

  /**
   * The three ways to stand a unit in a layer, (exdim, dimen2, dimen3) for
   * y = 1, 2, 3: (L, W, H), (W, L, H) and (H, L, W). The layer thickness is
   * exdim; the footprint is the other two.
   */
  function LayerChoice(u: Item, y: int): (c: (real, real, real))
    requires 1 <= y <= 3
    ensures IsPermutation(c.0, c.1, c.2, u.length, u.width, u.height)
  {
    if y == 1 then (u.length, u.width, u.height)
    else if y == 2 then (u.width, u.length, u.height)
    else (u.height, u.length, u.width)
  }

  /** The footprint fits the floor (px by pz) one way or the other. */
  predicate FootprintFits(dimen2: real, dimen3: real, px: real, pz: real)
  {
    (dimen2 <= px && dimen3 <= pz) || (dimen3 <= px && dimen2 <= pz)
  }

  /** How far exdim is from the nearest dimension of u, the smaller difference winning only when strictly smaller. */
  function MinDiff(exdim: real, u: Item): (r: real)
    ensures r >= 0.0
    ensures r <= Abs(exdim - u.length) && r <= Abs(exdim - u.width) && r <= Abs(exdim - u.height)
    ensures r == Abs(exdim - u.length) || r == Abs(exdim - u.width) || r == Abs(exdim - u.height)
  {
    var d1 := Abs(exdim - u.length);
    var d2 := if Abs(exdim - u.width) < d1 then Abs(exdim - u.width) else d1;
    if Abs(exdim - u.height) < d2 then Abs(exdim - u.height) else d2
  }

  /**
   * The evaluation of thickness exdim for unit x: the sum of MinDiff over
   * the units 1..z-1 other than x, counting only unpacked ones when
   * onlyUnpacked holds.
   */
  function EvalUpTo(s: seq<Item>, x: int, exdim: real, z: nat, onlyUnpacked: bool): (r: real)
    requires 1 <= z <= |s|
    ensures r >= 0.0
    decreases z
  {
    if z == 1 then 0.0
    else
      EvalUpTo(s, x, exdim, z - 1, onlyUnpacked)
      + (if z - 1 != x && !(onlyUnpacked && s[z - 1].isPacked) then MinDiff(exdim, s[z - 1]) else 0.0)
  }

  /** The evaluation depends on the dimensions of the units only, and on packing only when asked. */
  lemma {:induction false} EvalUsesDimensions(s: seq<Item>, s': seq<Item>, x: int, exdim: real, z: nat, onlyUnpacked: bool)
    requires 1 <= z <= |s| && |s| == |s'|
    requires forall i :: 1 <= i < z ==> s[i].Dims() == s'[i].Dims()
    requires onlyUnpacked ==> forall i :: 1 <= i < z ==> s[i].isPacked == s'[i].isPacked
    ensures EvalUpTo(s, x, exdim, z, onlyUnpacked) == EvalUpTo(s', x, exdim, z, onlyUnpacked)
  {
    if z > 1 {
      EvalUsesDimensions(s, s', x, exdim, z - 1, onlyUnpacked);
      assert s[z - 1].Dims() == s'[z - 1].Dims();
    }
  }

  /** Candidate slots are numbered t = 0, 1, ...: unit t / 3 + 1, choice t % 3 + 1, units outermost. */
  function SlotUnit(t: nat): nat
  {
    t / 3 + 1
  }

  function SlotChoice(t: nat): int
  {
    t % 3 + 1
  }

  /** The best pick so far in FindLayer: a thickness and its evaluation. */
  datatype LayerPick = LayerPick(thickness: real, eval: real)

  /** FindLayer's starting point: no thickness, evaluation one million. */
  const NoPick := LayerPick(0.0, 1000000.0)

  /** Slot t is one FindLayer may pick: its unit unpacked, its exdim within thickness and its footprint on the floor. */
  predicate PickEligible(s: seq<Item>, t: nat, thickness: real, px: real, pz: real)
    requires SlotUnit(t) < |s|
  {
    var c := LayerChoice(s[SlotUnit(t)], SlotChoice(t));
    !s[SlotUnit(t)].isPacked && c.0 <= thickness && FootprintFits(c.1, c.2, px, pz)
  }

  /** The evaluation FindLayer gives slot t: over the other unpacked units. */
  function PickEval(s: seq<Item>, count: nat, t: nat): real
    requires count < |s| && SlotUnit(t) < |s|
  {
    EvalUpTo(s, SlotUnit(t), LayerChoice(s[SlotUnit(t)], SlotChoice(t)).0, count + 1, true)
  }

  /** What FindLayer holds after the slots before t: an eligible slot replaces the pick when its evaluation is strictly smaller. */
  function PickUpTo(s: seq<Item>, count: nat, thickness: real, px: real, pz: real, t: nat): LayerPick
    requires count < |s| && t <= 3 * count
  {
    if t == 0 then NoPick
    else
      var acc := PickUpTo(s, count, thickness, px, pz, t - 1);
      if PickEligible(s, t - 1, thickness, px, pz) && PickEval(s, count, t - 1) < acc.eval
      then LayerPick(LayerChoice(s[SlotUnit(t - 1)], SlotChoice(t - 1)).0, PickEval(s, count, t - 1))
      else acc
  }

  /** The three choices of a packed unit leave the pick as it was. */
  lemma PackedUnitSkipped(s: seq<Item>, count: nat, thickness: real, px: real, pz: real, x: nat)
    requires count < |s| && 1 <= x <= count && s[x].isPacked
    ensures PickUpTo(s, count, thickness, px, pz, 3 * x) == PickUpTo(s, count, thickness, px, pz, 3 * (x - 1))
  {
    var t := 3 * (x - 1);
    SlotNumbering(x, 1);
    SlotNumbering(x, 2);
    SlotNumbering(x, 3);
    assert PickUpTo(s, count, thickness, px, pz, t + 1) == PickUpTo(s, count, thickness, px, pz, t);
    assert PickUpTo(s, count, thickness, px, pz, t + 2) == PickUpTo(s, count, thickness, px, pz, t + 1);
  }

  /** No eligible slot scores below the pick. */
  lemma {:induction false} PickIsMinimal(s: seq<Item>, count: nat, thickness: real, px: real, pz: real, t: nat)
    requires count < |s| && t <= 3 * count
    ensures forall c :: 0 <= c < t && PickEligible(s, c, thickness, px, pz) ==>
      PickUpTo(s, count, thickness, px, pz, t).eval <= PickEval(s, count, c)
    ensures PickUpTo(s, count, thickness, px, pz, t).eval <= 1000000.0
  {
    if t > 0 {
      var acc := PickUpTo(s, count, thickness, px, pz, t - 1);
      var p := PickUpTo(s, count, thickness, px, pz, t);
      PickIsMinimal(s, count, thickness, px, pz, t - 1);
      assert p.eval <= acc.eval;
      assert PickEligible(s, t - 1, thickness, px, pz) ==> p.eval <= PickEval(s, count, t - 1);
    }
  }

  /**
   * The pick is either the starting point, or the first eligible slot
   * with the smallest evaluation: every eligible slot before it scores
   * strictly more.
   */
  lemma {:induction false} PickIsFirstBest(s: seq<Item>, count: nat, thickness: real, px: real, pz: real, t: nat)
    requires count < |s| && t <= 3 * count
    ensures var p := PickUpTo(s, count, thickness, px, pz, t);
      || p == NoPick
      || exists c :: 0 <= c < t && PickEligible(s, c, thickness, px, pz)
           && p == LayerPick(LayerChoice(s[SlotUnit(c)], SlotChoice(c)).0, PickEval(s, count, c))
           && (forall c' :: 0 <= c' < c && PickEligible(s, c', thickness, px, pz) ==> PickEval(s, count, c') > p.eval)
  {
    if t > 0 {
      var p := PickUpTo(s, count, thickness, px, pz, t);
      var acc := PickUpTo(s, count, thickness, px, pz, t - 1);
      PickIsFirstBest(s, count, thickness, px, pz, t - 1);
      PickIsMinimal(s, count, thickness, px, pz, t - 1);
      if p != acc {
        assert forall c' :: 0 <= c' < t - 1 && PickEligible(s, c', thickness, px, pz) ==> PickEval(s, count, c') >= acc.eval;
      }
    }
  }

  /** The picked thickness is 0 or a dimension of an unpacked unit, no larger than the thickness allowed. */
  lemma {:induction false} PickBounds(s: seq<Item>, count: nat, thickness: real, px: real, pz: real, t: nat, m: real)
    requires count < |s| && t <= 3 * count
    requires forall i :: 1 <= i <= count ==> m <= s[i].length && m <= s[i].width && m <= s[i].height
    ensures var p := PickUpTo(s, count, thickness, px, pz, t);
      p.thickness == 0.0 || (m <= p.thickness <= thickness)
  {
    if t > 0 {
      PickBounds(s, count, thickness, px, pz, t - 1, m);
    }
  }

  /** Slot t passes ListCanditLayers' filter: exdim within py and the footprint on the floor. */
  predicate CandidateFits(s: seq<Item>, t: nat, px: real, py: real, pz: real)
    requires SlotUnit(t) < |s|
  {
    var c := LayerChoice(s[SlotUnit(t)], SlotChoice(t));
    c.0 <= py && FootprintFits(c.1, c.2, px, pz)
  }

  predicate HasDim(l: seq<Layer>, exdim: real)
  {
    exists k :: 0 <= k < |l| && l[k].layerDim == exdim
  }

  /** The entry ListCanditLayers records for slot t: its exdim and the evaluation over all other units. */
  function CandidateEntry(s: seq<Item>, count: nat, t: nat): Layer
    requires count < |s| && SlotUnit(t) < |s|
  {
    var exdim := LayerChoice(s[SlotUnit(t)], SlotChoice(t)).0;
    Layer(exdim, EvalUpTo(s, SlotUnit(t), exdim, count + 1, false))
  }

  /** The entries ListCanditLayers records from the slots before t, in order: each fitting slot whose exdim is not yet listed. */
  function CandidatesUpTo(s: seq<Item>, count: nat, px: real, py: real, pz: real, t: nat): (r: seq<Layer>)
    requires count < |s| && t <= 3 * count
    ensures |r| <= t
  {
    if t == 0 then []
    else
      var prev := CandidatesUpTo(s, count, px, py, pz, t - 1);
      if CandidateFits(s, t - 1, px, py, pz) && !HasDim(prev, CandidateEntry(s, count, t - 1).layerDim)
      then prev + [CandidateEntry(s, count, t - 1)]
      else prev
  }

  predicate DistinctDims(l: seq<Layer>)
  {
    forall i, j :: 0 <= i < j < |l| ==> l[i].layerDim != l[j].layerDim
  }

  /** No two recorded entries share a thickness. */
  lemma {:induction false} CandidatesDistinct(s: seq<Item>, count: nat, px: real, py: real, pz: real, t: nat)
    requires count < |s| && t <= 3 * count
    ensures DistinctDims(CandidatesUpTo(s, count, px, py, pz, t))
  {
    if t > 0 {
      CandidatesDistinct(s, count, px, py, pz, t - 1);
      var prev := CandidatesUpTo(s, count, px, py, pz, t - 1);
      var r := CandidatesUpTo(s, count, px, py, pz, t);
      if r != prev {
        var e := CandidateEntry(s, count, t - 1);
        assert r == prev + [e] && !HasDim(prev, e.layerDim);
        forall i, j | 0 <= i < j < |r| ensures r[i].layerDim != r[j].layerDim {
          if j == |prev| {
            assert r[i] == prev[i];
          } else {
            assert r[i] == prev[i] && r[j] == prev[j];
          }
        }
      }
    }
  }

  /** Every entry of l is the entry of a fitting slot before t. */
  ghost predicate FromFittingSlots(s: seq<Item>, count: nat, px: real, py: real, pz: real, t: nat, l: seq<Layer>)
    requires count < |s| && t <= 3 * count
  {
    forall i :: 0 <= i < |l| ==> exists c :: 0 <= c < t && CandidateFits(s, c, px, py, pz) && l[i] == CandidateEntry(s, count, c)
  }

  /** Every recorded entry is the entry of a fitting slot. */
  lemma {:induction false} CandidatesFit(s: seq<Item>, count: nat, px: real, py: real, pz: real, t: nat)
    requires count < |s| && t <= 3 * count
    ensures FromFittingSlots(s, count, px, py, pz, t, CandidatesUpTo(s, count, px, py, pz, t))
  {
    if t > 0 {
      CandidatesFit(s, count, px, py, pz, t - 1);
      var prev := CandidatesUpTo(s, count, px, py, pz, t - 1);
      var r := CandidatesUpTo(s, count, px, py, pz, t);
      forall i | 0 <= i < |r|
        ensures exists c :: 0 <= c < t && CandidateFits(s, c, px, py, pz) && r[i] == CandidateEntry(s, count, c)
      {
        if i < |prev| {
          var c :| 0 <= c < t - 1 && CandidateFits(s, c, px, py, pz) && prev[i] == CandidateEntry(s, count, c);
          assert r[i] == prev[i];
        } else {
          assert r[i] == CandidateEntry(s, count, t - 1);
        }
      }
    }
  }

  /** Every fitting slot has its thickness recorded. */
  lemma {:induction false} CandidatesComplete(s: seq<Item>, count: nat, px: real, py: real, pz: real, t: nat)
    requires count < |s| && t <= 3 * count
    ensures forall c :: 0 <= c < t && CandidateFits(s, c, px, py, pz) ==>
      HasDim(CandidatesUpTo(s, count, px, py, pz, t), CandidateEntry(s, count, c).layerDim)
  {
    if t > 0 {
      CandidatesComplete(s, count, px, py, pz, t - 1);
      var prev := CandidatesUpTo(s, count, px, py, pz, t - 1);
      var r := CandidatesUpTo(s, count, px, py, pz, t);
      forall c | 0 <= c < t && CandidateFits(s, c, px, py, pz)
        ensures HasDim(r, CandidateEntry(s, count, c).layerDim)
      {
        if c < t - 1 {
          var k :| 0 <= k < |prev| && prev[k].layerDim == CandidateEntry(s, count, c).layerDim;
          assert r[k] == prev[k];
        } else if !HasDim(prev, CandidateEntry(s, count, c).layerDim) {
          assert r[|prev|] == CandidateEntry(s, count, c);
        }
      }
    }
  }

  /** Recorded thicknesses are unit dimensions, and any recorded entry needs a floor and a height that are positive. */
  lemma {:induction false} CandidateBounds(s: seq<Item>, count: nat, px: real, py: real, pz: real, t: nat, m: real)
    requires count < |s| && t <= 3 * count && m > 0.0
    requires forall i :: 1 <= i <= count ==> m <= s[i].length && m <= s[i].width && m <= s[i].height
    ensures var r := CandidatesUpTo(s, count, px, py, pz, t);
      (forall i :: 0 <= i < |r| ==> m <= r[i].layerDim && r[i].layerEval >= 0.0)
      && (|r| > 0 ==> px > 0.0 && py > 0.0 && pz > 0.0)
  {
    if t > 0 {
      CandidateBounds(s, count, px, py, pz, t - 1, m);
      var u := SlotUnit(t - 1);
      assert 1 <= u <= count;
      var c := LayerChoice(s[u], SlotChoice(t - 1));
      assert m <= c.0 && m <= c.1 && m <= c.2;
      assert CandidateFits(s, t - 1, px, py, pz) ==> px > 0.0 && py > 0.0 && pz > 0.0;
    }
  }

  /** The list depends on the units' dimensions only, never on which units are packed. */
  lemma {:induction false} CandidatesUseDimensions(s: seq<Item>, s': seq<Item>, count: nat, px: real, py: real, pz: real, t: nat)
    requires count < |s| == |s'| && t <= 3 * count
    requires forall i :: 1 <= i <= count ==> s[i].Dims() == s'[i].Dims()
    ensures CandidatesUpTo(s, count, px, py, pz, t) == CandidatesUpTo(s', count, px, py, pz, t)
  {
    if t > 0 {
      var prev, prev' := CandidatesUpTo(s, count, px, py, pz, t - 1), CandidatesUpTo(s', count, px, py, pz, t - 1);
      var e, e' := CandidateEntry(s, count, t - 1), CandidateEntry(s', count, t - 1);
      var fits, fits' := CandidateFits(s, t - 1, px, py, pz), CandidateFits(s', t - 1, px, py, pz);
      assert prev' == prev by {
        CandidatesUseDimensions(s, s', count, px, py, pz, t - 1);
      }
      assert e' == e && fits' == fits by {
        SlotUsesDimensions(s, s', count, px, py, pz, t - 1);
      }
      assert CandidatesUpTo(s, count, px, py, pz, t) == if fits && !HasDim(prev, e.layerDim) then prev + [e] else prev;
      assert CandidatesUpTo(s', count, px, py, pz, t) == if fits' && !HasDim(prev', e'.layerDim) then prev' + [e'] else prev';
    }
  }

  lemma SlotUsesDimensions(s: seq<Item>, s': seq<Item>, count: nat, px: real, py: real, pz: real, c: nat)
    requires count < |s| == |s'| && c < 3 * count
    requires forall i :: 1 <= i <= count ==> s[i].Dims() == s'[i].Dims()
    ensures CandidateEntry(s, count, c) == CandidateEntry(s', count, c)
    ensures CandidateFits(s, c, px, py, pz) == CandidateFits(s', c, px, py, pz)
  {
    var x, y := SlotUnit(c), SlotChoice(c);
    assert s[x].Dims() == s'[x].Dims();
    assert s[x].length == s'[x].length && s[x].width == s'[x].width && s[x].height == s'[x].height;
    assert LayerChoice(s[x], y) == LayerChoice(s'[x], y);
    EvalUsesDimensions(s, s', x, LayerChoice(s[x], y).0, count + 1, false);
  }

  // ---------------------------------------------------------------------
  // Best fits (FindBox, AnalyzeBox)
  // ---------------------------------------------------------------------

  /** Two units with the same raw dimensions have the same orientations. */
  lemma SameOrientations(a: Item, b: Item, o: int)
    requires a.Dims() == b.Dims() && 0 <= o < 6
    ensures BoxOrientation(a, o) == BoxOrientation(b, o)
  {
    assert a.Dims().0 == b.Dims().0 && a.Dims().1 == b.Dims().1 && a.Dims().2 == b.Dims().2;
  }

  /**
   * A best fit found so far: the unit (0 for none), the orientation it fits
   * in and its key. FindBox keeps two: one within the layer (boxi, boxx,
   * boxy, boxz and bfx, bfy, bfz) and one taller than the layer (bboxi,
   * bboxx, bboxy, bboxz and bbfx, bbfy, bbfz); the key is (bfy, bfx, bfz).
   */
  datatype Fit = Fit(index: int, dims: (real, real, real), key: (real, real, real))

  function Key(d: (real, real, real), hmx: real, hy: real, hz: real, inLayer: bool): (real, real, real)
  {
    if inLayer then InLayerKey(d, hmx, hy, hz) else OverflowKey(d, hmx, hy, hz)
  }

  /** An orientation goes to the in-layer slot when it is no taller than the layer, to the other slot otherwise. */
  predicate SlotFor(d: (real, real, real), hy: real, inLayer: bool)
  {
    (d.1 <= hy) == inLayer
  }

  /** A best fit is none with the starting key, or an unpacked unit in an orientation that fits its slot, with that orientation's key. */
  ghost predicate FitOk(s: seq<Item>, count: nat, f: Fit, hmx: real, hy: real, hmy: real, hz: real, hmz: real, inLayer: bool)
    requires count < |s|
  {
    if f.index == 0 then f.key == KeyLimit
    else
      && 1 <= f.index <= count
      && !s[f.index].isPacked
      && IsPermutation(f.dims.0, f.dims.1, f.dims.2, s[f.index].length, s[f.index].width, s[f.index].height)
      && FitsSpace(f.dims, hmx, hmy, hmz)
      && SlotFor(f.dims, hy, inLayer)
      && f.key == Key(f.dims, hmx, hy, hz, inLayer)
  }

  /** No orientation of an unpacked unit before upTo that fits the slot has a key below key. */
  ghost predicate Dominates(s: seq<Item>, count: nat, key: (real, real, real), hmx: real, hy: real, hmy: real, hz: real, hmz: real, inLayer: bool, upTo: int)
    requires count < |s|
  {
    forall u, o :: 1 <= u < upTo && u <= count && !s[u].isPacked && 0 <= o < 6
      && FitsSpace(BoxOrientation(s[u], o), hmx, hmy, hmz) && SlotFor(BoxOrientation(s[u], o), hy, inLayer)
      ==> !LexLess(Key(BoxOrientation(s[u], o), hmx, hy, hz, inLayer), key)
  }

  /** No orientation of u among the first n that fits the slot has a key below key. */
  ghost predicate Covered(u: Item, key: (real, real, real), hmx: real, hy: real, hmy: real, hz: real, hmz: real, inLayer: bool, n: int)
  {
    forall o :: 0 <= o < n && o < 6
      && FitsSpace(BoxOrientation(u, o), hmx, hmy, hmz) && SlotFor(BoxOrientation(u, o), hy, inLayer)
      ==> !LexLess(Key(BoxOrientation(u, o), hmx, hy, hz, inLayer), key)
  }

  /**
   * Ties go to the earliest unit: no unpacked unit before the fit's unit has
   * an orientation that fits the slot with a key as small as the fit's.
   */
  ghost predicate FirstOfKey(s: seq<Item>, count: nat, f: Fit, hmx: real, hy: real, hmy: real, hz: real, hmz: real, inLayer: bool)
    requires count < |s|
  {
    forall u, o :: 1 <= u < f.index && u <= count && !s[u].isPacked && 0 <= o < 6
      && FitsSpace(BoxOrientation(s[u], o), hmx, hmy, hmz) && SlotFor(BoxOrientation(s[u], o), hy, inLayer)
      ==> LexLess(f.key, Key(BoxOrientation(s[u], o), hmx, hy, hz, inLayer))
  }

  /** The fit f' is f kept, or unit x taken on a strictly smaller key. */
  predicate KeptOrTaken(f: Fit, f': Fit, x: int)
  {
    f' == f || (f'.index == x && LexLess(f'.key, f.key))
  }

  /** Weighing unit x twice in a row keeps or takes x over both steps. */
  lemma KeptOrTakenTransitive(f: Fit, f1: Fit, f2: Fit, x: int)
    requires KeptOrTaken(f, f1, x) && KeptOrTaken(f1, f2, x)
    ensures KeptOrTaken(f, f2, x)
  {
    if f2 != f1 && f1 != f {
      LexLessIsStrictTotal(f2.key, f1.key, f.key);
    }
  }

  /**
   * Weighing unit x after the groups before y, where every unit from y up
   * to x is packed, keeps ties with the earliest unit: a unit before y was
   * no better than the old key, which x had to beat strictly.
   */
  lemma FirstOfKeyStep(s: seq<Item>, count: nat, f: Fit, f': Fit, hmx: real, hy: real, hmy: real, hz: real, hmz: real,
                       inLayer: bool, y: nat, x: nat)
    requires count < |s| && 1 <= y <= x
    requires FirstOfKey(s, count, f, hmx, hy, hmy, hz, hmz, inLayer)
    requires Dominates(s, count, f.key, hmx, hy, hmy, hz, hmz, inLayer, y)
    requires forall i :: y <= i < x && i < |s| ==> s[i].isPacked
    requires KeptOrTaken(f, f', x)
    ensures FirstOfKey(s, count, f', hmx, hy, hmy, hz, hmz, inLayer)
  {
    if f' != f {
      forall u, o | 1 <= u < f'.index && u <= count && !s[u].isPacked && 0 <= o < 6
        && FitsSpace(BoxOrientation(s[u], o), hmx, hmy, hmz) && SlotFor(BoxOrientation(s[u], o), hy, inLayer)
        ensures LexLess(f'.key, Key(BoxOrientation(s[u], o), hmx, hy, hz, inLayer))
      {
        var k := Key(BoxOrientation(s[u], o), hmx, hy, hz, inLayer);
        assert u < y;
        assert !LexLess(k, f.key);
        LexLessIsStrictTotal(f'.key, f.key, k);
      }
    }
  }

  /**
   * Analyzing orientation o of unit x: each slot's fit stays well formed,
   * its key never rises, and it is now no worse than every orientation of x
   * up to o that fits that slot.
   */
  lemma AnalyzeStep(s: seq<Item>, count: nat, x: int, o: int, b: Fit, b': Fit, v: Fit, v': Fit,
                    hmx: real, hy: real, hmy: real, hz: real, hmz: real)
    requires count < |s| && 1 <= x <= count && !s[x].isPacked && 0 <= o < 6
    requires FitOk(s, count, b, hmx, hy, hmy, hz, hmz, true) && FitOk(s, count, v, hmx, hy, hmy, hz, hmz, false)
    requires Covered(s[x], b.key, hmx, hy, hmy, hz, hmz, true, o) && Covered(s[x], v.key, hmx, hy, hmy, hz, hmz, false, o)
    requires FitsSpace(BoxOrientation(s[x], o), hmx, hmy, hmz) && BoxOrientation(s[x], o).1 <= hy ==>
      b' == Improve(b, x, BoxOrientation(s[x], o), InLayerKey(BoxOrientation(s[x], o), hmx, hy, hz)) && v' == v
    requires FitsSpace(BoxOrientation(s[x], o), hmx, hmy, hmz) && BoxOrientation(s[x], o).1 > hy ==>
      b' == b && v' == Improve(v, x, BoxOrientation(s[x], o), OverflowKey(BoxOrientation(s[x], o), hmx, hy, hz))
    requires !FitsSpace(BoxOrientation(s[x], o), hmx, hmy, hmz) ==> b' == b && v' == v
    ensures FitOk(s, count, b', hmx, hy, hmy, hz, hmz, true) && FitOk(s, count, v', hmx, hy, hmy, hz, hmz, false)
    ensures !LexLess(b.key, b'.key) && !LexLess(v.key, v'.key)
    ensures Covered(s[x], b'.key, hmx, hy, hmy, hz, hmz, true, o + 1) && Covered(s[x], v'.key, hmx, hy, hmy, hz, hmz, false, o + 1)
    ensures KeptOrTaken(b, b', x) && KeptOrTaken(v, v', x)
  {
    var d := BoxOrientation(s[x], o);
    forall o' | 0 <= o' < o + 1 && o' < 6
      && FitsSpace(BoxOrientation(s[x], o'), hmx, hmy, hmz) && SlotFor(BoxOrientation(s[x], o'), hy, true)
      ensures !LexLess(Key(BoxOrientation(s[x], o'), hmx, hy, hz, true), b'.key)
    {
      if o' < o {
        NotBelowPersists(Key(BoxOrientation(s[x], o'), hmx, hy, hz, true), b.key, b'.key);
      }
    }
    forall o' | 0 <= o' < o + 1 && o' < 6
      && FitsSpace(BoxOrientation(s[x], o'), hmx, hmy, hmz) && SlotFor(BoxOrientation(s[x], o'), hy, false)
      ensures !LexLess(Key(BoxOrientation(s[x], o'), hmx, hy, hz, false), v'.key)
    {
      if o' < o {
        NotBelowPersists(Key(BoxOrientation(s[x], o'), hmx, hy, hz, false), v.key, v'.key);
      }
    }
  }

  /** For a cube, covering its first orientation covers all six. */
  lemma CoveredCube(u: Item, key: (real, real, real), hmx: real, hy: real, hmy: real, hz: real, hmz: real, inLayer: bool)
    requires u.length == u.height && u.height == u.width
    requires Covered(u, key, hmx, hy, hmy, hz, hmz, inLayer, 1)
    ensures Covered(u, key, hmx, hy, hmy, hz, hmz, inLayer, 6)
  {
    forall o | 0 <= o < 6 ensures BoxOrientation(u, o) == BoxOrientation(u, 0) {
      CubeHasOneOrientation(u, o);
    }
  }

  /**
   * One step of FindBox's outer loop keeps the best fit ahead of everything
   * seen: the units before y by the old key, and the group starting at y,
   * whose unpacked units all share the dimensions of the unit x analyzed.
   */
  lemma {:induction false} DominatesStep(s: seq<Item>, count: nat, oldKey: (real, real, real), newKey: (real, real, real),
                                         hmx: real, hy: real, hmy: real, hz: real, hmz: real, inLayer: bool, y: nat, q: nat, x: nat)
    requires count < |s| && 1 <= y <= x && y + q <= count + 1
    requires Dominates(s, count, oldKey, hmx, hy, hmy, hz, hmz, inLayer, y)
    requires !LexLess(oldKey, newKey)
    requires x < |s| && forall i :: y <= i < x ==> s[i].isPacked
    requires forall i :: y <= i < y + q ==> s[i].Dims() == s[y].Dims()
    requires s[x].isPacked ==> x == y && q == 1
    requires x < y + q && !s[x].isPacked ==> Covered(s[x], newKey, hmx, hy, hmy, hz, hmz, inLayer, 6)
    ensures Dominates(s, count, newKey, hmx, hy, hmy, hz, hmz, inLayer, y + q)
  {
    forall u, o | 1 <= u < y + q && u <= count && !s[u].isPacked && 0 <= o < 6
      && FitsSpace(BoxOrientation(s[u], o), hmx, hmy, hmz) && SlotFor(BoxOrientation(s[u], o), hy, inLayer)
      ensures !LexLess(Key(BoxOrientation(s[u], o), hmx, hy, hz, inLayer), newKey)
    {
      var k := Key(BoxOrientation(s[u], o), hmx, hy, hz, inLayer);
      if u < y {
        NotBelowPersists(k, oldKey, newKey);
      } else {
        SameOrientations(s[u], s[x], o);
      }
    }
  }

  /** Reaching the sentinel means every unit from y on is packed, so nothing more can beat the key. */
  lemma DominatesRest(s: seq<Item>, count: nat, key: (real, real, real), hmx: real, hy: real, hmy: real, hz: real, hmz: real, inLayer: bool, y: nat)
    requires count < |s| && 1 <= y
    requires Dominates(s, count, key, hmx, hy, hmy, hz, hmz, inLayer, y)
    requires forall i :: y <= i <= count ==> s[i].isPacked
    ensures Dominates(s, count, key, hmx, hy, hmy, hz, hmz, inLayer, count + 1)
  {
  }

  /**
   * FindBox's state after the groups before y: both fits well formed, ahead
   * of every unpacked unit before y, and strictly ahead of every unpacked
   * unit before their own.
   */
  ghost predicate Scanned(s: seq<Item>, count: nat, b: Fit, v: Fit, hmx: real, hy: real, hmy: real, hz: real, hmz: real, y: int)
    requires count < |s|
  {
    && FitOk(s, count, b, hmx, hy, hmy, hz, hmz, true)
    && FitOk(s, count, v, hmx, hy, hmy, hz, hmz, false)
    && Dominates(s, count, b.key, hmx, hy, hmy, hz, hmz, true, y)
    && Dominates(s, count, v.key, hmx, hy, hmy, hz, hmz, false, y)
    && FirstOfKey(s, count, b, hmx, hy, hmy, hz, hmz, true)
    && FirstOfKey(s, count, v, hmx, hy, hmy, hz, hmz, false)
  }

  /** Nothing is scanned before the first unit, from the starting keys. */
  lemma ScannedStart(s: seq<Item>, count: nat, b: Fit, v: Fit, hmx: real, hy: real, hmy: real, hz: real, hmz: real)
    requires count < |s| && b.index == 0 && b.key == KeyLimit && v.index == 0 && v.key == KeyLimit
    ensures Scanned(s, count, b, v, hmx, hy, hmy, hz, hmz, 1)
  {
  }

  /**
   * One group of FindBox: the group from y has q units of the same
   * dimensions; x is the first unpacked one found (only y itself when the
   * group has one unit), and it was analyzed exactly when it is unpacked.
   */
  lemma ScannedStep(s: seq<Item>, count: nat, b: Fit, v: Fit, b': Fit, v': Fit,
                    hmx: real, hy: real, hmy: real, hz: real, hmz: real, y: nat, q: nat, x: nat)
    requires count < |s| && 1 <= y <= x < |s| && y + q <= count + 1
    requires Scanned(s, count, b, v, hmx, hy, hmy, hz, hmz, y)
    requires forall i :: y <= i < x ==> s[i].isPacked
    requires forall i :: y <= i < y + q ==> s[i].Dims() == s[y].Dims()
    requires s[x].isPacked ==> x == y && q == 1 && b' == b && v' == v
    requires !s[x].isPacked ==> (
      && x <= count
      && FitOk(s, count, b', hmx, hy, hmy, hz, hmz, true) && FitOk(s, count, v', hmx, hy, hmy, hz, hmz, false)
      && !LexLess(b.key, b'.key) && !LexLess(v.key, v'.key)
      && Covered(s[x], b'.key, hmx, hy, hmy, hz, hmz, true, 6) && Covered(s[x], v'.key, hmx, hy, hmy, hz, hmz, false, 6)
      && KeptOrTaken(b, b', x) && KeptOrTaken(v, v', x))
    ensures Scanned(s, count, b', v', hmx, hy, hmy, hz, hmz, y + q)
  {
    FirstOfKeyStep(s, count, b, b', hmx, hy, hmy, hz, hmz, true, y, x);
    FirstOfKeyStep(s, count, v, v', hmx, hy, hmy, hz, hmz, false, y, x);
    DominatesStep(s, count, b.key, b'.key, hmx, hy, hmy, hz, hmz, true, y, q, x);
    DominatesStep(s, count, v.key, v'.key, hmx, hy, hmy, hz, hmz, false, y, q, x);
  }

  /** Reaching the sentinel finishes the scan. */
  lemma ScannedRest(s: seq<Item>, count: nat, b: Fit, v: Fit, hmx: real, hy: real, hmy: real, hz: real, hmz: real, y: nat)
    requires count < |s| && 1 <= y
    requires Scanned(s, count, b, v, hmx, hy, hmy, hz, hmz, y)
    requires forall i :: y <= i <= count ==> s[i].isPacked
    ensures Scanned(s, count, b, v, hmx, hy, hmy, hz, hmz, count + 1)
  {
    DominatesRest(s, count, b.key, hmx, hy, hmy, hz, hmz, true, y);
    DominatesRest(s, count, v.key, hmx, hy, hmy, hz, hmz, false, y);
  }

  /** Replace the fit when the new key is strictly smaller. */
  function Improve(f: Fit, x: int, d: (real, real, real), k: (real, real, real)): (r: Fit)
    ensures !LexLess(f.key, r.key)
    ensures !LexLess(k, r.key)
  {
    if LexLess(k, f.key) then Fit(x, d, k) else f
  }

  // ---------------------------------------------------------------------
  // Per-unit bookkeeping
  // ---------------------------------------------------------------------

  /** How many of the units 1..n are unpacked. */
  ghost function UnpackedCount(s: seq<Item>, n: nat): nat
    requires n < |s|
  {
    if n == 0 then 0 else UnpackedCount(s, n - 1) + (if s[n].isPacked then 0 else 1)
  }

  /** The volume of the packed units among 1..n. */
  ghost function PackedVolume(s: seq<Item>, n: nat): real
    requires n < |s|
  {
    if n == 0 then 0.0 else PackedVolume(s, n - 1) + (if s[n].isPacked then s[n].Volume() else 0.0)
  }

  /** The volume of the units 1..n, the sum Initialize computes. */
  function TotalVolume(s: seq<Item>, n: nat): (v: real)
    requires n < |s|
  {
    if n == 0 then 0.0 else TotalVolume(s, n - 1) + s[n].Volume()
  }

  /** Units of positive dimensions have positive total volume as soon as there is one. */
  lemma {:induction false} TotalVolumePositive(s: seq<Item>, n: nat)
    requires n < |s|
    requires forall i :: 1 <= i <= n ==> s[i].length > 0.0 && s[i].width > 0.0 && s[i].height > 0.0
    ensures n == 0 <==> TotalVolume(s, n) == 0.0
    ensures TotalVolume(s, n) >= 0.0
  {
    if n > 0 {
      TotalVolumePositive(s, n - 1);
      var u := s[n];
      assert u.length * u.width > 0.0;
      assert u.Volume() > 0.0;
    }
  }

  /** Records that agree on packing and dimensions over 1..n have the same counts. */
  lemma {:induction false} SamePacking(s: seq<Item>, s': seq<Item>, n: nat)
    requires n < |s| && n < |s'|
    requires forall j :: 1 <= j <= n ==> s'[j].isPacked == s[j].isPacked && s'[j].Dims() == s[j].Dims()
    ensures UnpackedCount(s', n) == UnpackedCount(s, n)
    ensures PackedVolume(s', n) == PackedVolume(s, n)
  {
    if n > 0 {
      SamePacking(s, s', n - 1);
      assert s'[n].Dims().0 == s[n].Dims().0 && s'[n].Dims().1 == s[n].Dims().1 && s'[n].Dims().2 == s[n].Dims().2;
    }
  }

  /** Packing unit i lowers the unpacked count by one and adds its volume to the packed volume. */
  lemma {:induction false} MarkPacked(s: seq<Item>, s': seq<Item>, n: nat, i: nat)
    requires n < |s| && n < |s'| && 1 <= i
    requires forall j :: 1 <= j <= n && j != i ==> s'[j].isPacked == s[j].isPacked && s'[j].Dims() == s[j].Dims()
    requires i <= n ==> !s[i].isPacked && s'[i].isPacked && s'[i].Dims() == s[i].Dims()
    ensures i <= n ==> UnpackedCount(s', n) == UnpackedCount(s, n) - 1
    ensures i <= n ==> PackedVolume(s', n) == PackedVolume(s, n) + s[i].Volume()
    ensures i > n ==> UnpackedCount(s', n) == UnpackedCount(s, n) && PackedVolume(s', n) == PackedVolume(s, n)
  {
    if n > 0 {
      MarkPacked(s, s', n - 1, i);
      assert s'[n].Dims().0 == s[n].Dims().0 && s'[n].Dims().1 == s[n].Dims().1 && s'[n].Dims().2 == s[n].Dims().2;
    }
  }

  /** When the packed volume is the total volume of units of positive volume, every unit is packed. */
  lemma {:induction false} FullVolumeMeansAllPacked(s: seq<Item>, n: nat)
    requires n < |s|
    requires forall i :: 1 <= i <= n ==> s[i].length > 0.0 && s[i].width > 0.0 && s[i].height > 0.0
    requires PackedVolume(s, n) == TotalVolume(s, n)
    ensures forall i :: 1 <= i <= n ==> s[i].isPacked
  {
    if n > 0 {
      PackedBelowTotal(s, n - 1);
      var u := s[n];
      assert u.length * u.width > 0.0;
      assert u.Volume() > 0.0;
      FullVolumeMeansAllPacked(s, n - 1);
    }
  }

  lemma {:induction false} PackedBelowTotal(s: seq<Item>, n: nat)
    requires n < |s|
    requires forall i :: 1 <= i <= n ==> s[i].length > 0.0 && s[i].width > 0.0 && s[i].height > 0.0
    ensures PackedVolume(s, n) <= TotalVolume(s, n)
  {
    if n > 0 {
      PackedBelowTotal(s, n - 1);
      var u := s[n];
      assert u.length * u.width > 0.0;
      assert u.Volume() > 0.0;
    }
  }

  /** What PackLayer's loop tracks of the packer: units packed, edge length, layer thickness and layerinlayer. */
  datatype LayerState = LayerState(packed: int, edge: nat, thickness: real, inLayer: real)

  /**
   * From state a to state b the layer thickness only rises, and layerinlayer
   * rises with it by as much.
   */
  predicate Keeps(a: LayerState, b: LayerState)
  {
    b.thickness >= a.thickness && b.inLayer - b.thickness == a.inLayer - a.thickness
  }

  /** How CheckFound ends: the layer is done, the gap of least depth was evened out, or a box was chosen for it. */
  datatype Outcome = LayerDone | Evened | Boxed

  /**
   * CheckFound's rule: a fit within the layer gives a box; failing that, an
   * overflow fit gives a box when the layer was already raised or the edge
   * is a single gap; failing both, a single gap finishes the layer and any
   * other gap is evened out.
   */
  function CheckFoundRule(bestIndex: int, overflowIndex: int, inLayer: real, single: bool): Outcome
  {
    if bestIndex != 0 then Boxed
    else if overflowIndex > 0 && (inLayer != 0.0 || single) then Boxed
    else if single then LayerDone
    else Evened
  }

  /** The fit CheckFound takes when it gives a box: the one within the layer if there is one, else the overflow fit. */
  function TakenFit(best: Fit, overflow: Fit): Fit
  {
    if best.index != 0 then best else overflow
  }

  /**
   * A pass of PackLayer's loop: it keeps the state, and either finishes the
   * layer on an edge of a single gap or makes progress, with more units
   * packed or as many and a shorter edge.
   */
  predicate Advanced(a: LayerState, b: LayerState, done: bool)
  {
    || (done && Keeps(a, b) && b.edge == 1)
    || (!done && Keeps(a, b) && (b.packed > a.packed || (b.packed == a.packed && b.edge < a.edge)))
  }

  /**
   * A fit FindBox offers for a gap of the given width: none, or an unpacked
   * unit turned to a positive size no wider than the gap, in its slot.
   */
  ghost predicate FitsGap(s: seq<Item>, count: nat, f: Fit, width: real, hy: real, inLayer: bool)
  {
    || f.index == 0
    || (&& 1 <= f.index <= count < |s|
        && !s[f.index].isPacked
        && 0.0 < f.dims.0 <= width && 0.0 < f.dims.1 && 0.0 < f.dims.2
        && SlotFor(f.dims, hy, inLayer))
  }

  /** A fit FindBox returns for a gap of width hmx fits that gap, the units having positive sides. */
  lemma FitOkFitsGap(s: seq<Item>, units: seq<Item>, count: nat, f: Fit, hmx: real, hy: real, hmy: real, hz: real, hmz: real, inLayer: bool)
    requires UnitsMatch(s, units, count)
    requires FitOk(s, count, f, hmx, hy, hmy, hz, hmz, inLayer)
    ensures FitsGap(s, count, f, hmx, hy, inLayer)
  {
    if f.index != 0 {
      assert SameUnit(s[f.index], units[f.index]);
    }
  }

  // ---------------------------------------------------------------------
  // Container orientations and the reported coordinates
  // ---------------------------------------------------------------------

  /** A container whose three sides are equal: one variant is searched. */
  predicate Cube(c: Container)
  {
    c.length == c.height && c.height == c.width
  }

  /** The axes of the six container orientations, (px, py, pz) for variant 1..6. */
  function VariantDims(c: Container, variant: int): (d: (real, real, real))
    requires 1 <= variant <= 6
    ensures IsPermutation(d.0, d.1, d.2, c.length, c.height, c.width)
  {
    if variant == 1 then (c.length, c.height, c.width)
    else if variant == 2 then (c.width, c.height, c.length)
    else if variant == 3 then (c.width, c.length, c.height)
    else if variant == 4 then (c.height, c.length, c.width)
    else if variant == 5 then (c.length, c.width, c.height)
    else (c.height, c.width, c.length)
  }

  /** Every orientation has the container's volume. */
  lemma VariantVolume(c: Container, variant: int)
    requires 1 <= variant <= 6
    ensures var d := VariantDims(c, variant); d.0 * d.1 * d.2 == c.Volume()
  {
  }

  /**
   * What OutputBoxList writes back for a packed unit: its coordinates and
   * extents, found along (px, py, pz), moved to the container's axes for the
   * best variant; the pack extents land in (PackLength, PackHeight,
   * PackWidth) in that order. An unknown variant gives zeros.
   */
  function Reoriented(u: Item, bestVariant: int): (r: Item)
    ensures r.id == u.id && r.isPacked == u.isPacked && r.Dims() == u.Dims() && r.quantity == u.quantity
    ensures 1 <= bestVariant <= 6 ==> IsPermutation(r.packLength, r.packHeight, r.packWidth, u.packLength, u.packWidth, u.packHeight)
    ensures 1 <= bestVariant <= 6 ==> IsPermutation(r.coordLength, r.coordWidth, r.coordHeight, u.coordLength, u.coordWidth, u.coordHeight)
  {
    var cl, cw, ch, pl, pw, ph := u.coordLength, u.coordWidth, u.coordHeight, u.packLength, u.packWidth, u.packHeight;
    var t: (real, real, real, real, real, real) :=
      if bestVariant == 1 then (cl, cw, ch, pl, pw, ph)
      else if bestVariant == 2 then (ch, cw, cl, ph, pw, pl)
      else if bestVariant == 3 then (cw, ch, cl, pw, ph, pl)
      else if bestVariant == 4 then (cw, cl, ch, pw, pl, ph)
      else if bestVariant == 5 then (cl, ch, cw, pl, ph, pw)
      else if bestVariant == 6 then (ch, cl, cw, ph, pl, pw)
      else (0.0, 0.0, 0.0, 0.0, 0.0, 0.0);
    u.(coordLength := t.0, coordWidth := t.1, coordHeight := t.2, packLength := t.3, packHeight := t.4, packWidth := t.5)
  }

  /**
   * What VolumeCheck makes of a placed unit: packed, with the extents d it
   * was turned to, moved to the container's axes when the best arrangement
   * is being packed.
   */
  function Marked(u: Item, d: (real, real, real), reorient: bool, bestVariant: int): (r: Item)
    ensures SameUnit(u, r) && r.isPacked
  {
    var m := u.(isPacked := true, packLength := d.0, packWidth := d.1, packHeight := d.2);
    if reorient then Reoriented(m, bestVariant) else m
  }

  /** From records s to records s', no unit is unpacked and the record of every packed unit is left as it was. */
  ghost predicate PackedStay(s: seq<Item>, s': seq<Item>)
  {
    |s| == |s'| && forall i :: 0 <= i < |s| && s[i].isPacked ==> s'[i] == s[i]
  }

  /** Packed records that stay over two steps stay over both. */
  lemma PackedStayTransitive(a: seq<Item>, b: seq<Item>, c: seq<Item>)
    requires PackedStay(a, b) && PackedStay(b, c)
    ensures PackedStay(a, c)
  {
    forall i | 0 <= i < |a| && a[i].isPacked ensures c[i] == a[i] {
      assert b[i] == a[i];
    }
  }

  /** A unit packed in an orientation of its dimensions still is after its extents are moved to the container's axes. */
  lemma ReorientedStaysOriented(u: Item, bestVariant: int)
    requires u.Oriented() && 1 <= bestVariant <= 6
    ensures Reoriented(u, bestVariant).Oriented()
  {
    var r := Reoriented(u, bestVariant);
    var pl, pw, ph := u.packLength, u.packWidth, u.packHeight;
    if bestVariant == 1 {
      assert (r.packLength, r.packWidth, r.packHeight) == (pl, ph, pw);
    } else if bestVariant == 2 {
      assert (r.packLength, r.packWidth, r.packHeight) == (ph, pl, pw);
    } else if bestVariant == 3 {
      assert (r.packLength, r.packWidth, r.packHeight) == (pw, pl, ph);
    } else if bestVariant == 4 {
      assert (r.packLength, r.packWidth, r.packHeight) == (pw, ph, pl);
    } else if bestVariant == 5 {
      assert (r.packLength, r.packWidth, r.packHeight) == (pl, pw, ph);
    } else {
      assert (r.packLength, r.packWidth, r.packHeight) == (ph, pw, pl);
    }
  }

  // ---------------------------------------------------------------------
  // Layer lists and termination
  // ---------------------------------------------------------------------

  /** n new entries as ListCanditLayers adds them, before they are written. */
  function Blanks(n: nat): (r: seq<Layer>)
    ensures |r| == n && forall i :: 0 <= i < n ==> r[i] == Blank
  {
    seq(n, i => Blank)
  }

  /** Every thickness in the list is 0 or at least m. */
  predicate ThicknessesFrom(l: seq<Layer>, m: real)
  {
    forall i :: 0 <= i < |l| ==> l[i].layerDim == 0.0 || l[i].layerDim >= m
  }

  /** Sorting a list whose only entry of negative evaluation is the pad puts the pad first. */
  lemma PadSortsFirst(l: seq<Layer>)
    requires |l| > 0 && l[0] == Pad
    requires forall i :: 1 <= i < |l| ==> l[i].layerEval >= 0.0
    ensures SortBy(l, LayerEvalKey)[0] == Pad
  {
    var r := SortBy(l, LayerEvalKey);
    assert Pad in multiset(l);
    assert Pad in multiset(r);
    var j :| 0 <= j < |r| && r[j] == Pad;
    assert LayerEvalKey(r[0]) <= LayerEvalKey(r[j]);
    assert r[0] in multiset(l);
    var i :| 0 <= i < |l| && l[i] == r[0];
  }

  /** A step of at least m > 0 down a non-negative distance lowers its count of whole steps. */
  lemma FloorStep(r: real, r': real, m: real)
    requires m > 0.0 && 0.0 <= r' && r' + m <= r
    ensures 0 <= (r' / m).Floor < (r / m).Floor
  {
    var a, b := r / m, r' / m;
    assert a * m == r && b * m == r';
    assert (a - b) * m == r - r';
    assert (a - b - 1.0) * m >= 0.0;
    assert a - b >= 1.0 && b >= 0.0;
  }

  /** Slot 3(x - 1) + (y - 1) is choice y of unit x. */
  lemma SlotNumbering(x: nat, y: nat)
    requires 1 <= x && 1 <= y <= 3
    ensures SlotUnit(3 * (x - 1) + (y - 1)) == x && SlotChoice(3 * (x - 1) + (y - 1)) == y
  {
  }

  /**
   * The list after ListCanditLayers records entries c over list l: each
   * recorded entry adds a blank at the end and is then written at index
   * 1, 2, ..., so the entries land at 1..|c|, index 0 keeps its entry and
   * the rest is what was there before, then the blanks.
   */
  function Recorded(l: seq<Layer>, c: seq<Layer>): (r: seq<Layer>)
    requires |l| >= 1
    ensures |r| == |l| + |c|
  {
    [l[0]] + c + (l + Blanks(|c|))[|c| + 1..]
  }

  /** The recorded entries are at 1..|c|, after the entry at index 0. */
  lemma RecordedEntries(l: seq<Layer>, c: seq<Layer>)
    requires |l| >= 1
    ensures Recorded(l, c)[0] == l[0] && Recorded(l, c)[1..|c| + 1] == c
  {
    var r := Recorded(l, c);
    assert r == [l[0]] + c + (l + Blanks(|c|))[|c| + 1..];
  }

  /** A list of len entries over list l holds the candidates recorded from the slots before t. */
  ghost predicate ListedOver(layers: seq<Layer>, len: int, s: seq<Item>, count: nat, px: real, py: real, pz: real, l: seq<Layer>, t: nat)
  {
    && count < |s| && |l| >= 1 && t <= 3 * count
    && var c := CandidatesUpTo(s, count, px, py, pz, t);
      len == |c| && layers == Recorded(l, c)
  }

  /** Recording one more entry: add a blank, then write the entry at index |c| + 1. */
  lemma RecordedStep(l: seq<Layer>, c: seq<Layer>, e: Layer)
    requires |l| >= 1
    ensures Recorded(l, c + [e]) == (Recorded(l, c) + [Blank])[|c| + 1 := e]
  {
    var a, b := Recorded(l, c + [e]), (Recorded(l, c) + [Blank])[|c| + 1 := e];
    forall i | 0 <= i < |a| ensures a[i] == b[i] {
      if i == 0 {
      } else if i <= |c| + 1 {
        assert a[i] == (c + [e])[i - 1];
      } else if i < |l| + |c| {
        assert a[i] == (l + Blanks(|c| + 1))[i];
        assert b[i] == (l + Blanks(|c|))[i];
      }
    }
  }

  /** A fresh list holding the pad gets the entries after it and nothing else. */
  lemma RecordedFresh(c: seq<Layer>)
    ensures Recorded([Pad], c) == [Pad] + c
  {
  }

  /** The replay's fresh list, the pad and the candidates, keeps the pad in front once sorted. */
  lemma FreshListStartsWithPad(s: seq<Item>, count: nat, px: real, py: real, pz: real, m: real)
    requires count < |s| && m > 0.0
    requires forall i :: 1 <= i <= count ==> m <= s[i].length && m <= s[i].width && m <= s[i].height
    ensures SortBy([Pad] + CandidatesUpTo(s, count, px, py, pz, 3 * count), LayerEvalKey)[0] == Pad
  {
    var c := CandidatesUpTo(s, count, px, py, pz, 3 * count);
    CandidateBounds(s, count, px, py, pz, 3 * count, m);
    var l := [Pad] + c;
    forall i | 1 <= i < |l| ensures l[i].layerEval >= 0.0 {
      assert l[i] == c[i - 1];
    }
    PadSortsFirst(l);
  }

  /** Every entry is the pad, a blank, or an entry of positive evaluation. */
  predicate PadsBlanksOrPositive(l: seq<Layer>)
  {
    forall i :: 0 <= i < |l| ==> l[i] == Pad || l[i] == Blank || l[i].layerEval > 0.0
  }

  /**
   * The list a later variant sorts is the earlier variant's list, a second
   * pad and the new candidates written over its entries 1..: when the
   * earlier list starts with the pad and its other entries are pads, blanks
   * or of positive evaluation, and the later variant records candidates,
   * all of positive evaluation, then entry 0 of the sorted list is the pad
   * and entry 1 is a pad or a blank. The later variant's first iteration
   * then starts from thickness 0.
   */
  lemma ReusedListStartsAtZero(l: seq<Layer>, c: seq<Layer>)
    requires |l| >= 1 && l[0] == Pad && |c| >= 1
    requires PadsBlanksOrPositive(l) && forall i :: 0 <= i < |c| ==> c[i].layerEval > 0.0
    ensures var r := SortBy(Recorded(l + [Pad], c), LayerEvalKey);
      r[0] == Pad && (r[1] == Pad || r[1] == Blank) && r[1].layerDim == 0.0
  {
    var big := Recorded(l + [Pad], c);
    ReusedListHolds(l, c);
    var r := SortBy(big, LayerEvalKey);
    PadAndBlankSortFirst(big, r);
  }

  /** The reused list keeps the pad in front, ends in a blank and holds only pads, blanks and positive entries. */
  lemma ReusedListHolds(l: seq<Layer>, c: seq<Layer>)
    requires |l| >= 1 && l[0] == Pad && |c| >= 1
    requires PadsBlanksOrPositive(l) && forall i :: 0 <= i < |c| ==> c[i].layerEval > 0.0
    ensures var big := Recorded(l + [Pad], c);
      |big| >= 2 && big[0] == Pad && big[|big| - 1] == Blank && PadsBlanksOrPositive(big)
  {
    var l' := l + [Pad];
    var t := (l' + Blanks(|c|))[|c| + 1..];
    var big := Recorded(l', c);
    assert big == [Pad] + c + t;
    assert big[|big| - 1] == Blank;
    forall i | 0 <= i < |big| ensures big[i] == Pad || big[i] == Blank || big[i].layerEval > 0.0 {
      if 1 <= i <= |c| {
        assert big[i] == c[i - 1];
      } else if i > |c| {
        assert big[i] == (l' + Blanks(|c|))[i];
      }
    }
  }

  /** Sorting a list that holds the pad and a blank among pads, blanks and positive entries puts the pad first and a pad or a blank second. */
  lemma PadAndBlankSortFirst(big: seq<Layer>, r: seq<Layer>)
    requires |big| >= 2 && big[0] == Pad && big[|big| - 1] == Blank && PadsBlanksOrPositive(big)
    requires r == SortBy(big, LayerEvalKey)
    ensures r[0] == Pad && (r[1] == Pad || r[1] == Blank) && r[1].layerDim == 0.0
  {
    assert Pad in multiset(r) && Blank in multiset(r) by {
      assert big[0] in multiset(big) && big[|big| - 1] in multiset(big);
    }
    var p :| 0 <= p < |r| && r[p] == Pad;
    var q :| 0 <= q < |r| && r[q] == Blank;
    assert r[0] in multiset(big) && r[1] in multiset(big);
    var i0 :| 0 <= i0 < |big| && big[i0] == r[0];
    var i1 :| 0 <= i1 < |big| && big[i1] == r[1];
    assert LayerEvalKey(r[0]) <= LayerEvalKey(r[p]);
    assert q != 0;
    assert LayerEvalKey(r[1]) <= LayerEvalKey(r[q]);
  }

  // ---------------------------------------------------------------------
  // The search over variants and layer thicknesses (ExecuteIterations)
  // ---------------------------------------------------------------------

  /** One iteration of the search: its variant, its starting entry, the volume it packed and whether it reached a hundred percent. */
  datatype Trial = Trial(variant: int, iteration: int, volume: real, full: bool)

  /** The best so far: bestVariant, bestIteration and bestVolume. */
  datatype Standing = Standing(variant: int, iteration: int, volume: real)

  /**
   * The best after the trials, from start:
   * a trial replaces it only when it packed strictly more volume.
   */
  function BestTrial(trials: seq<Trial>, start: Standing): Standing
    decreases |trials|
  {
    if trials == [] then start
    else Keep(BestTrial(trials[..|trials| - 1], start), trials[|trials| - 1])
  }

  /** How many thicknesses ListCanditLayers records for container c in variant v. */
  ghost function CandidatesFor(c: Container, units: seq<Item>, count: nat, v: int): nat
    requires 1 <= v <= 6 && count < |units|
  {
    var d := VariantDims(c, v);
    |CandidatesUpTo(units, count, d.0, d.1, d.2, 3 * count)|
  }

  /** The best so far is none yet, or entry 1.. of the thickness list of a variant. */
  ghost predicate BestAmong(b: Standing, c: Container, units: seq<Item>, count: nat)
  {
    || b == Standing(0, 0, 0.0)
    || (1 <= b.variant <= 6 && count < |units| && 1 <= b.iteration <= CandidatesFor(c, units, count, b.variant))
  }

  /** The best after one more trial: the trial, when it packed strictly more volume, or the best as it was. */
  function Keep(best: Standing, t: Trial): (r: Standing)
    ensures r.volume >= best.volume && r.volume >= t.volume
    ensures r == best || r == Standing(t.variant, t.iteration, t.volume)
    ensures r != best ==> t.volume > best.volume
  {
    if t.volume > best.volume then Standing(t.variant, t.iteration, t.volume) else best
  }

  /** The best volume is at least the starting one and every trial's. */
  lemma {:induction false} BestIsMaximal(trials: seq<Trial>, start: Standing)
    ensures BestTrial(trials, start).volume >= start.volume
    ensures forall i :: 0 <= i < |trials| ==> trials[i].volume <= BestTrial(trials, start).volume
    decreases |trials|
  {
    if trials != [] {
      var n := |trials| - 1;
      BestIsMaximal(trials[..n], start);
      assert forall i :: 0 <= i < n ==> trials[..n][i] == trials[i];
    }
  }

  /**
   * The best is the start, when no trial packed more, or the first trial
   * reaching the best volume: every trial before it packed strictly less.
   */
  lemma {:induction false} BestIsFirst(trials: seq<Trial>, start: Standing)
    ensures var b := BestTrial(trials, start);
      || (b == start && forall i :: 0 <= i < |trials| ==> trials[i].volume <= start.volume)
      || exists j :: 0 <= j < |trials| && b == Standing(trials[j].variant, trials[j].iteration, trials[j].volume)
           && b.volume > start.volume && forall i :: 0 <= i < j ==> trials[i].volume < b.volume
    decreases |trials|
  {
    if trials != [] {
      var n := |trials| - 1;
      var acc := BestTrial(trials[..n], start);
      BestIsFirst(trials[..n], start);
      BestIsMaximal(trials[..n], start);
      assert forall i :: 0 <= i < n ==> trials[..n][i] == trials[i];
      if trials[n].volume > acc.volume {
        assert forall i :: 0 <= i < n ==> trials[i].volume < trials[n].volume;
      }
    }
  }

  /** The best after two runs of trials is the best of the second, started from the best of the first. */
  lemma {:induction false} BestTrialAppend(a: seq<Trial>, b: seq<Trial>, start: Standing)
    ensures BestTrial(a + b, start) == BestTrial(b, BestTrial(a, start))
    decreases |b|
  {
    if b == [] {
      assert a + b == a;
    } else {
      var n := |b| - 1;
      BestTrialAppend(a, b[..n], start);
      assert (a + b)[..|a + b| - 1] == a + b[..n];
    }
  }

  /** The trials after one more: its best follows the last update. */
  lemma BestTrialSnoc(trials: seq<Trial>, t: Trial, start: Standing)
    ensures BestTrial(trials + [t], start) == Keep(BestTrial(trials, start), t)
  {
    assert (trials + [t])[..|trials|] == trials;
  }

  /** The trials of the variants, one run after the other. */
  function Flatten(sweeps: seq<seq<Trial>>): (r: seq<Trial>)
    ensures sweeps == [] ==> r == []
    decreases |sweeps|
  {
    if sweeps == [] then [] else Flatten(sweeps[..|sweeps| - 1]) + sweeps[|sweeps| - 1]
  }

  /** One more run of trials comes after those of the runs before. */
  lemma FlattenSnoc(sweeps: seq<seq<Trial>>, s: seq<Trial>)
    ensures Flatten(sweeps + [s]) == Flatten(sweeps) + s
  {
    assert (sweeps + [s])[..|sweeps|] == sweeps;
  }

  // ---------------------------------------------------------------------
  // What the replay reports (Report, Run)
  // ---------------------------------------------------------------------

  /**
   * order lists units of 1..count, each at most once, each packed, and
   * every packed unit is listed.
   */
  ghost predicate InOrder(s: seq<Item>, count: nat, order: seq<int>)
    requires count < |s|
  {
    && (forall j :: 0 <= j < |order| ==> 1 <= order[j] <= count && s[order[j]].isPacked)
    && (forall j, j' :: 0 <= j < j' < |order| ==> order[j] != order[j'])
    && (forall i :: 1 <= i <= count && s[i].isPacked ==> i in order)
  }

  /**
   * What EB-AFIT reports for the items once it has run, with final the n
   * unit records as it leaves them and order the units placed, in placement
   * order: every unit keeps its item's id and dimensions and has quantity 1;
   * the packed units are those of order, each placed once, and every unit
   * marked packed is among them; the unpacked units are the rest, in index
   * order; so each unit is reported exactly once, and the pack is complete
   * exactly when none is left unpacked.
   */
  ghost predicate Reported(items: seq<Item>, n: int, final: seq<Item>, order: seq<int>, r: AlgorithmPackingResult)
    requires NonNegativeQuantities(items)
  {
    var u := UnitsFor(items);
    && |u| == n && |final| == n + 2
    && (forall i :: 1 <= i <= n ==> final[i].id == u[i - 1].id && final[i].Dims() == u[i - 1].Dims() && final[i].quantity == 1)
    && InOrder(final, n, order)
    && r.algorithmName == "EB-AFIT"
    && r.packedItems == OrderedUnits(final, order)
    && r.unpackedItems == UnpackedUnits(final, n)
    && |r.packedItems| + |r.unpackedItems| == n
    && (r.isCompletePack <==> r.unpackedItems == [])
  }

  /** The records with units 1..n given quantity 1, as Run leaves them, and the rest as they were. */
  function QuantityOne(s: seq<Item>, n: nat): (r: seq<Item>)
    ensures |r| == |s|
  {
    seq(|s|, i requires 0 <= i < |s| => if 1 <= i <= n then s[i].(quantity := 1) else s[i])
  }

  /** The units among 1..n left unpacked, in index order. */
  function UnpackedUnits(s: seq<Item>, n: nat): (r: seq<Item>)
    requires n < |s|
    ensures forall x :: x in r ==> !x.isPacked
  {
    if n == 0 then [] else UnpackedUnits(s, n - 1) + (if s[n].isPacked then [] else [s[n]])
  }

  /** The records the packing order names, in that order. */
  function OrderedUnits(s: seq<Item>, order: seq<int>): (r: seq<Item>)
    requires forall j :: 0 <= j < |order| ==> 0 <= order[j] < |s|
    ensures |r| == |order| && forall j :: 0 <= j < |order| ==> r[j] == s[order[j]]
  {
    seq(|order|, j requires 0 <= j < |order| => s[order[j]])
  }

  /** The units left unpacked are as many as the unpacked count says, and every unit 1..n that is unpacked is among them. */
  lemma {:induction false} UnpackedUnitsCount(s: seq<Item>, n: nat)
    requires n < |s|
    ensures |UnpackedUnits(s, n)| == UnpackedCount(s, n)
    ensures forall i :: 1 <= i <= n && !s[i].isPacked ==> s[i] in UnpackedUnits(s, n)
  {
    if n > 0 {
      UnpackedUnitsCount(s, n - 1);
    }
  }

  /** Giving every unit quantity 1 keeps which units are packed, and so the packing order. */
  lemma QuantityOneKeepsOrder(s: seq<Item>, n: nat, order: seq<int>)
    requires n < |s| && InOrder(s, n, order)
    ensures InOrder(QuantityOne(s, n), n, order)
    ensures UnpackedCount(QuantityOne(s, n), n) == UnpackedCount(s, n)
  {
    SamePacking(s, QuantityOne(s, n), n);
  }

  /** The records with units 1..n marked unpacked and the rest as they were. */
  function Unpacked(s: seq<Item>, n: nat): (r: seq<Item>)
    ensures |r| == |s|
  {
    seq(|s|, i requires 0 <= i < |s| => if 1 <= i <= n then s[i].(isPacked := false) else s[i])
  }

  /** Unpacking every unit leaves records that match the units, with nothing packed and an empty packing order. */
  lemma UnpackedAll(s: seq<Item>, units: seq<Item>, count: nat)
    requires UnitsMatch(s, units, count)
    ensures UnitsMatch(Unpacked(s, count), units, count)
    ensures Totals(Unpacked(s, count), count, 0.0, 0, false, [])
    ensures Totals(Unpacked(s, count), count, 0.0, 0, true, [])
  {
    var r := Unpacked(s, count);
    forall i | 0 <= i < |r|
      ensures SameUnit(r[i], units[i])
    {
      assert SameUnit(s[i], units[i]);
    }
    NonePacked(r, count);
  }

  /** With no unit packed, nothing is packed and nothing counts as packed. */
  lemma {:induction false} NonePacked(s: seq<Item>, n: nat)
    requires n < |s| && forall i :: 1 <= i <= n ==> !s[i].isPacked
    ensures UnpackedCount(s, n) == n && PackedVolume(s, n) == 0.0
  {
    if n > 0 {
      NonePacked(s, n - 1);
    }
  }

  /** The units of the items between two sentinels are ready to pack: positive, grouped, and none packed. */
  lemma UnitsLaidOut(items: seq<Item>)
    requires NonNegativeQuantities(items) && PositiveDimensions(items)
    ensures var s := [Sentinel] + UnitsFor(items) + [Sentinel];
      UnitsMatch(s, s, |UnitsFor(items)|) && forall i :: 0 <= i < |s| ==> !s[i].isPacked
  {
    var u := UnitsFor(items);
    var s := [Sentinel] + u + [Sentinel];
    UnitsArePositive(items);
    UnitsAreGrouped(items);
    GroupsOfLayout(u, 0);
    forall i | 1 <= i <= |u| ensures s[i] == u[i - 1] { }
  }

  /** With no unit packed, the totals are zero and no packing order is kept. */
  lemma FreshTotals(s: seq<Item>, count: nat)
    requires count < |s| && forall i :: 0 <= i < |s| ==> !s[i].isPacked
    ensures Totals(s, count, 0.0, 0, false, [])
  {
    NonePacked(s, count);
  }

  /** A single scrap pad with no neighbours is a list of one node. */
  lemma SinglePad()
    ensures Linked([Head], [ScrapPad(0.0, 0.0, Null, Null)])
  {
  }

  /**
   * An iteration runs only from a recorded thickness, and recording one
   * needs every side of the container positive: its volume is then not 0.
   */
  lemma ContainerHasVolume(c: Container, units: seq<Item>, count: nat, v: int)
    requires 1 <= v <= 6 && count < |units| && UnitsReady(units, count)
    requires CandidatesFor(c, units, count, v) > 0
    ensures c.length * c.height * c.width > 0.0
  {
    var d := VariantDims(c, v);
    var m := SmallestDim(units, count);
    if count > 0 {
      var i :| 1 <= i <= count && (m == units[i].length || m == units[i].width || m == units[i].height);
    }
    CandidateBounds(units, count, d.0, d.1, d.2, 3 * count, m);
    assert c.length > 0.0 && c.height > 0.0 && c.width > 0.0;
    assert c.length * c.height > 0.0;
  }

  /** The total volume depends on the dimensions only. */
  lemma {:induction false} TotalVolumeUsesDimensions(s: seq<Item>, s': seq<Item>, n: nat)
    requires n < |s| && n < |s'|
    requires forall i :: 1 <= i <= n ==> s[i].Dims() == s'[i].Dims()
    ensures TotalVolume(s, n) == TotalVolume(s', n)
  {
    if n > 0 {
      TotalVolumeUsesDimensions(s, s', n - 1);
      assert s[n].Dims().0 == s'[n].Dims().0 && s[n].Dims().1 == s'[n].Dims().1 && s[n].Dims().2 == s'[n].Dims().2;
    }
  }

  /** The units of a prefix one item longer: the copies of that item come last. */
  lemma {:induction false} UnitsForSnoc(items: seq<Item>, i: nat)
    requires NonNegativeQuantities(items) && i < |items|
    ensures NonNegativeQuantities(items[..i]) && NonNegativeQuantities(items[..i + 1])
    ensures UnitsFor(items[..i + 1]) == UnitsFor(items[..i]) + CopiesOf(items[i])
    ensures TotalQuantity(items[..i + 1]) == TotalQuantity(items[..i]) + items[i].quantity
  {
    UnitsForAppend(items[..i], [items[i]]);
    assert items[..i] + [items[i]] == items[..i + 1];
    assert UnitsFor([items[i]]) == CopiesOf(items[i]) + UnitsFor([]);
  }

  lemma {:induction false} UnitsForAppend(a: seq<Item>, b: seq<Item>)
    requires NonNegativeQuantities(a) && NonNegativeQuantities(b)
    ensures NonNegativeQuantities(a + b)
    ensures UnitsFor(a + b) == UnitsFor(a) + UnitsFor(b)
    ensures TotalQuantity(a + b) == TotalQuantity(a) + TotalQuantity(b)
    decreases |a|
  {
    if a == [] {
      assert a + b == b;
    } else {
      assert NonNegativeQuantities(a[1..]) by {
        forall i | 0 <= i < |a[1..]| ensures a[1..][i].quantity >= 0 {
          assert a[1..][i] == a[i + 1];
        }
      }
      UnitsForAppend(a[1..], b);
      var ab := a + b;
      assert ab[1..] == a[1..] + b;
      assert ab[0] == a[0];
      assert NonNegativeQuantities(ab) by {
        forall i | 0 <= i < |ab| ensures ab[i].quantity >= 0 {
          if i < |a| { assert ab[i] == a[i]; } else { assert ab[i] == b[i - |a|]; }
        }
      }
      calc {
        UnitsFor(ab);
        CopiesOf(a[0]) + UnitsFor(a[1..] + b);
        CopiesOf(a[0]) + (UnitsFor(a[1..]) + UnitsFor(b));
        (CopiesOf(a[0]) + UnitsFor(a[1..])) + UnitsFor(b);
      }
    }
  }
  /** Changing the record of unit i but neither its packing nor its dimensions keeps the counts and the packing order. */
  lemma Relabelled(s: seq<Item>, s': seq<Item>, count: nat, i: nat, order: seq<int>)
    requires count < |s| == |s'| && 1 <= i <= count
    requires forall j :: 0 <= j < |s| && j != i ==> s'[j] == s[j]
    requires s'[i].isPacked == s[i].isPacked && s'[i].Dims() == s[i].Dims()
    ensures UnpackedCount(s', count) == UnpackedCount(s, count) && PackedVolume(s', count) == PackedVolume(s, count)
    ensures InOrder(s', count, order) == InOrder(s, count, order)
  {
    SamePacking(s, s', count);
  }

  /** Packing unpacked unit i and listing it last keeps the order exactly the packed units. */
  lemma OneMoreInOrder(s: seq<Item>, s': seq<Item>, count: nat, i: nat, order: seq<int>)
    requires count < |s| == |s'| && 1 <= i <= count
    requires forall j :: 0 <= j < |s| && j != i ==> s'[j] == s[j]
    requires !s[i].isPacked && s'[i].isPacked
    requires InOrder(s, count, order)
    ensures InOrder(s', count, order + [i])
  {
    assert i !in order;
    var o := order + [i];
    forall j | 0 <= j < |o| ensures 1 <= o[j] <= count && s'[o[j]].isPacked {
      if j < |order| {
        assert o[j] == order[j];
      }
    }
  }
}
