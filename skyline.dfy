/**
 * The layer edge of the layer packer ("scrap pad") as a value: a list of
 * gaps, left to right along the x axis of the layer, each holding the right
 * end of its stretch (cumX) and the depth already filled along z over that
 * stretch (cumZ). The first stretch starts at 0; each other one starts at the
 * cumX of the gap before it.
 *
 * The functions here give the effect of every update the packer makes to the
 * list: the evening step of CheckFound and the five placement situations of
 * PackLayer.
 */
module Skyline {

  datatype Gap = Gap(cumX: real, cumZ: real)

  /** A placement: the new edge and the x coordinate given to the box. */
  datatype Placement = Placement(sky: seq<Gap>, coordLength: real)

  /** Where stretch k starts along x. */
  function Left(sky: seq<Gap>, k: nat): real
    requires k < |sky|
  {
    if k == 0 then 0.0 else sky[k - 1].cumX
  }

  /** The width of stretch k. */
  function Width(sky: seq<Gap>, k: nat): real
    requires k < |sky|
  {
    sky[k].cumX - Left(sky, k)
  }

  /**
   * A well-formed edge over a layer of width px: every stretch of positive
   * width (right ends strictly increasing, the first above 0), the
   * last ending at px, and no negative depth.
   */
  predicate WellFormed(sky: seq<Gap>, px: real)
  {
    && |sky| > 0
    && sky[|sky| - 1].cumX == px
    && 0.0 < sky[0].cumX
    && (forall i :: 0 < i < |sky| ==> sky[i - 1].cumX < sky[i].cumX)
    && (forall i :: 0 <= i < |sky| ==> 0.0 <= sky[i].cumZ)
  }

  /** The edge at the start of a layer: one empty stretch over the whole width. */
  function Initial(px: real): seq<Gap>
  {
    [Gap(px, 0.0)]
  }

  lemma InitialWellFormed(px: real)
    requires px > 0.0
    ensures WellFormed(Initial(px), px)
  {
  }

  // ---------------------------------------------------------------------
  // The smallest depth
  // ---------------------------------------------------------------------

  /** The first stretch, from the left, of least depth: a later one is taken only when strictly shallower. */
  function FirstMinZ(sky: seq<Gap>): (k: nat)
    requires |sky| > 0
    ensures k < |sky|
  {
    if |sky| == 1 then 0
    else
      var k := FirstMinZ(sky[..|sky| - 1]);
      if sky[|sky| - 1].cumZ < sky[k].cumZ then |sky| - 1 else k
  }

  /** No stretch is shallower than the one FirstMinZ picks, and every stretch before it is deeper. */
  lemma {:induction false} FirstMinZIsLeast(sky: seq<Gap>)
    requires |sky| > 0
    ensures forall i :: 0 <= i < |sky| ==> sky[FirstMinZ(sky)].cumZ <= sky[i].cumZ
    ensures forall i :: 0 <= i < FirstMinZ(sky) ==> sky[FirstMinZ(sky)].cumZ < sky[i].cumZ
  {
    if |sky| > 1 {
      var init := sky[..|sky| - 1];
      FirstMinZIsLeast(init);
      assert forall i :: 0 <= i < |init| ==> init[i] == sky[i];
    }
  }

  lemma FirstMinZAppend(sky: seq<Gap>, g: Gap)
    requires |sky| > 0
    ensures FirstMinZ(sky + [g]) == if g.cumZ < sky[FirstMinZ(sky)].cumZ then |sky| else FirstMinZ(sky)
  {
    assert (sky + [g])[..|sky|] == sky;
  }

  // ---------------------------------------------------------------------
  // Evening: no box fits the smallest gap
  // ---------------------------------------------------------------------

  /**
   * The evening step for stretch k when no box fits it: the stretch is
   * merged into a neighbour. The leftmost merges into the one on its right,
   * the rightmost into the one on its left; a middle one merges both
   * neighbours into one when they have equal depth, and otherwise joins the
   * left neighbour when that one is shallower, else the right one.
   */
  function Even(sky: seq<Gap>, k: nat): (r: seq<Gap>)
    requires 0 <= k < |sky| && |sky| > 1
  {
    if k == 0 then sky[1..]
    else if k == |sky| - 1 then sky[..k - 1] + [Gap(sky[k].cumX, sky[k - 1].cumZ)]
    else if sky[k - 1].cumZ == sky[k + 1].cumZ then
      sky[..k - 1] + [Gap(sky[k + 1].cumX, sky[k - 1].cumZ)] + sky[k + 2..]
    else
      sky[..k - 1]
      + [Gap(if sky[k - 1].cumZ < sky[k + 1].cumZ then sky[k].cumX else sky[k - 1].cumX, sky[k - 1].cumZ)]
      + sky[k + 1..]
  }

  /** Evening removes one stretch, or two when both neighbours have the same depth. */
  lemma EvenShrinks(sky: seq<Gap>, k: nat)
    requires 0 <= k < |sky| && |sky| > 1
    ensures 0 < k < |sky| - 1 && sky[k - 1].cumZ == sky[k + 1].cumZ ==> |Even(sky, k)| == |sky| - 2
    ensures !(0 < k < |sky| - 1 && sky[k - 1].cumZ == sky[k + 1].cumZ) ==> |Even(sky, k)| == |sky| - 1
  {
  }

  /** Evening keeps the edge well formed and keeps the right end of the layer. */
  lemma EvenWellFormed(sky: seq<Gap>, px: real, k: nat)
    requires WellFormed(sky, px) && 0 <= k < |sky| && |sky| > 1
    ensures WellFormed(Even(sky, k), px)
  {
    var r := Even(sky, k);
    if k == 0 {
      assert r == sky[1..];
      Splice1(sky, px, 0, sky[1], 2);
      assert [sky[1]] + sky[2..] == sky[1..];
    } else if k == |sky| - 1 {
      var g := Gap(sky[k].cumX, sky[k - 1].cumZ);
      assert r == sky[..k - 1] + [g];
      SpliceBack1(sky, px, k - 1, g);
    } else if sky[k - 1].cumZ == sky[k + 1].cumZ {
      var g := Gap(sky[k + 1].cumX, sky[k - 1].cumZ);
      assert r == sky[..k - 1] + [g] + sky[k + 2..];
      Splice1(sky, px, k - 1, g, k + 2);
    } else {
      var x := if sky[k - 1].cumZ < sky[k + 1].cumZ then sky[k].cumX else sky[k - 1].cumX;
      var g := Gap(x, sky[k - 1].cumZ);
      assert r == sky[..k - 1] + [g] + sky[k + 1..];
      Splice1(sky, px, k - 1, g, k + 1);
    }
  }

  /**
   * Replacing the stretches a..b-1 of a well-formed edge by a run that is
   * itself increasing and fits strictly between the neighbours keeps the
   * edge well formed.
   */
  lemma Splice(sky: seq<Gap>, px: real, a: nat, mid: seq<Gap>, b: nat)
    requires WellFormed(sky, px) && a <= b <= |sky| && |mid| > 0
    requires forall i :: 0 < i < |mid| ==> mid[i - 1].cumX < mid[i].cumX
    requires forall i :: 0 <= i < |mid| ==> 0.0 <= mid[i].cumZ
    requires a == 0 ==> 0.0 < mid[0].cumX
    requires a > 0 ==> sky[a - 1].cumX < mid[0].cumX
    requires b < |sky| ==> mid[|mid| - 1].cumX < sky[b].cumX
    requires b == |sky| ==> mid[|mid| - 1].cumX == px
    ensures WellFormed(sky[..a] + mid + sky[b..], px)
  {
    var r := sky[..a] + mid + sky[b..];
    SpliceSteps(sky, a, mid, b);
    SpliceDepths(sky, a, mid, b);
    if b == |sky| {
      assert r[|r| - 1] == mid[|mid| - 1];
    } else {
      assert r[|r| - 1] == sky[|sky| - 1];
    }
    if a == 0 {
      assert r[0] == mid[0];
    } else {
      assert r[0] == sky[0];
    }
  }

  /** Splice with a run of one stretch. */
  lemma Splice1(sky: seq<Gap>, px: real, a: nat, g: Gap, b: nat)
    requires WellFormed(sky, px) && a <= b <= |sky| && 0.0 <= g.cumZ
    requires if a == 0 then 0.0 < g.cumX else sky[a - 1].cumX < g.cumX
    requires if b < |sky| then g.cumX < sky[b].cumX else g.cumX == px
    ensures WellFormed(sky[..a] + [g] + sky[b..], px)
  {
    Splice(sky, px, a, [g], b);
  }

  /** Splice with a run of two stretches. */
  lemma Splice2(sky: seq<Gap>, px: real, a: nat, g: Gap, h: Gap, b: nat)
    requires WellFormed(sky, px) && a <= b <= |sky| && 0.0 <= g.cumZ && 0.0 <= h.cumZ
    requires if a == 0 then 0.0 < g.cumX else sky[a - 1].cumX < g.cumX
    requires g.cumX < h.cumX
    requires if b < |sky| then h.cumX < sky[b].cumX else h.cumX == px
    ensures WellFormed(sky[..a] + [g, h] + sky[b..], px)
  {
    Splice(sky, px, a, [g, h], b);
  }

  lemma SpliceSteps(sky: seq<Gap>, a: nat, mid: seq<Gap>, b: nat)
    requires forall i :: 0 < i < |sky| ==> sky[i - 1].cumX < sky[i].cumX
    requires a <= b <= |sky| && |mid| > 0
    requires forall i :: 0 < i < |mid| ==> mid[i - 1].cumX < mid[i].cumX
    requires a > 0 ==> sky[a - 1].cumX < mid[0].cumX
    requires b < |sky| ==> mid[|mid| - 1].cumX < sky[b].cumX
    ensures var r := sky[..a] + mid + sky[b..];
      forall i :: 0 < i < |r| ==> r[i - 1].cumX < r[i].cumX
  {
    var r := sky[..a] + mid + sky[b..];
    forall i | 0 < i < |r|
      ensures r[i - 1].cumX < r[i].cumX
    {
      if i < a {
        assert r[i] == sky[i] && r[i - 1] == sky[i - 1];
      } else if i == a {
        assert r[i] == mid[0] && r[i - 1] == sky[i - 1];
      } else if i < a + |mid| {
        assert r[i] == mid[i - a] && r[i - 1] == mid[i - 1 - a];
      } else if i == a + |mid| {
        assert r[i] == sky[b] && r[i - 1] == mid[|mid| - 1];
      } else {
        assert r[i] == sky[i - a - |mid| + b] && r[i - 1] == sky[i - 1 - a - |mid| + b];
      }
    }
  }

  lemma SpliceDepths(sky: seq<Gap>, a: nat, mid: seq<Gap>, b: nat)
    requires a <= b <= |sky|
    requires forall i :: 0 <= i < |sky| ==> 0.0 <= sky[i].cumZ
    requires forall i :: 0 <= i < |mid| ==> 0.0 <= mid[i].cumZ
    ensures var r := sky[..a] + mid + sky[b..];
      forall i :: 0 <= i < |r| ==> 0.0 <= r[i].cumZ
  {
    var r := sky[..a] + mid + sky[b..];
    forall i | 0 <= i < |r|
      ensures 0.0 <= r[i].cumZ
    {
      if i < a {
        assert r[i] == sky[i];
      } else if i < a + |mid| {
        assert r[i] == mid[i - a];
      } else {
        assert r[i] == sky[i - a - |mid| + b];
      }
    }
  }

  // ---------------------------------------------------------------------
  // Placing a box in the smallest gap
  // ---------------------------------------------------------------------

  /** Situation 1: the edge is a single stretch; the box goes at the left wall. */
  function Situation1(sky: seq<Gap>, cboxx: real, cboxz: real): Placement
    requires |sky| == 1
  {
    var s := sky[0];
    if cboxx == s.cumX then Placement([Gap(s.cumX, s.cumZ + cboxz)], 0.0)
    else Placement([Gap(cboxx, s.cumZ + cboxz), Gap(s.cumX, s.cumZ)], 0.0)
  }

  /** Situation 2: the gap is the leftmost of several; the box goes at the right end of the gap. */
  function Situation2(sky: seq<Gap>, cboxx: real, cboxz: real): Placement
    requires |sky| > 1
  {
    var s, p := sky[0], sky[1];
    if cboxx == s.cumX then
      if s.cumZ + cboxz == p.cumZ then Placement(sky[1..], 0.0)
      else Placement([Gap(s.cumX, s.cumZ + cboxz)] + sky[1..], 0.0)
    else
      if s.cumZ + cboxz == p.cumZ then Placement([Gap(s.cumX - cboxx, s.cumZ)] + sky[1..], s.cumX - cboxx)
      else Placement([Gap(s.cumX - cboxx, s.cumZ), Gap(s.cumX, s.cumZ + cboxz)] + sky[1..], s.cumX - cboxx)
  }

  /** Situation 3: the gap is the rightmost of several; the box goes at the left end of the gap. */
  function Situation3(sky: seq<Gap>, k: nat, cboxx: real, cboxz: real): Placement
    requires 0 < k == |sky| - 1
  {
    var q, s := sky[k - 1], sky[k];
    if cboxx == s.cumX - q.cumX then
      if s.cumZ + cboxz == q.cumZ then Placement(sky[..k - 1] + [Gap(s.cumX, q.cumZ)], q.cumX)
      else Placement(sky[..k] + [Gap(s.cumX, s.cumZ + cboxz)], q.cumX)
    else
      if s.cumZ + cboxz == q.cumZ then Placement(sky[..k - 1] + [Gap(q.cumX + cboxx, q.cumZ), s], q.cumX)
      else Placement(sky[..k] + [Gap(q.cumX + cboxx, s.cumZ + cboxz), s], q.cumX)
  }

  /**
   * Sub-situation 4A: a middle gap whose neighbours have equal depth. A box
   * narrower than the gap goes at the end nearer the layer's middle. In the
   * two branches where the box brings the gap level with its neighbours the
   * x coordinate is read after the edge was already moved, as the packer
   * does.
   */
  function Situation4A(sky: seq<Gap>, k: nat, px: real, cboxx: real, cboxz: real): Placement
    requires 0 < k < |sky| - 1
  {
    var q, s, p := sky[k - 1], sky[k], sky[k + 1];
    if cboxx == s.cumX - q.cumX then
      if s.cumZ + cboxz == p.cumZ then Placement(sky[..k - 1] + [Gap(p.cumX, q.cumZ)] + sky[k + 2..], q.cumX)
      else Placement(sky[k := Gap(s.cumX, s.cumZ + cboxz)], q.cumX)
    else if q.cumX < px - s.cumX then
      if s.cumZ + cboxz == q.cumZ then
        var newX := s.cumX - cboxx;
        Placement(sky[k := Gap(newX, s.cumZ)], newX - cboxx)
      else Placement(sky[..k] + [Gap(q.cumX + cboxx, s.cumZ + cboxz), s] + sky[k + 1..], q.cumX)
    else
      if s.cumZ + cboxz == q.cumZ then
        var newX := q.cumX + cboxx;
        Placement(sky[k - 1 := Gap(newX, q.cumZ)], newX)
      else Placement(sky[..k] + [Gap(s.cumX - cboxx, s.cumZ), Gap(s.cumX, s.cumZ + cboxz)] + sky[k + 1..], s.cumX - cboxx)
  }

  /** Sub-situation 4B: a middle gap whose neighbours differ in depth; the box goes next to the left neighbour unless it levels with the right one. */
  function Situation4B(sky: seq<Gap>, k: nat, cboxx: real, cboxz: real): Placement
    requires 0 < k < |sky| - 1
  {
    var q, s, p := sky[k - 1], sky[k], sky[k + 1];
    if cboxx == s.cumX - q.cumX then
      if s.cumZ + cboxz == q.cumZ then Placement(sky[..k - 1] + [Gap(s.cumX, q.cumZ)] + sky[k + 1..], q.cumX)
      else Placement(sky[k := Gap(s.cumX, s.cumZ + cboxz)], q.cumX)
    else
      if s.cumZ + cboxz == q.cumZ then Placement(sky[k - 1 := Gap(q.cumX + cboxx, q.cumZ)], q.cumX)
      else if s.cumZ + cboxz == p.cumZ then Placement(sky[k := Gap(s.cumX - cboxx, s.cumZ)], s.cumX - cboxx)
      else Placement(sky[..k] + [Gap(q.cumX + cboxx, s.cumZ + cboxz), s] + sky[k + 1..], q.cumX)
  }

  /** The placement the packer makes in stretch k, chosen by which neighbours the stretch has. */
  function Place(sky: seq<Gap>, k: nat, px: real, cboxx: real, cboxz: real): Placement
    requires k < |sky|
  {
    if |sky| == 1 then Situation1(sky, cboxx, cboxz)
    else if k == 0 then Situation2(sky, cboxx, cboxz)
    else if k == |sky| - 1 then Situation3(sky, k, cboxx, cboxz)
    else if sky[k - 1].cumZ == sky[k + 1].cumZ then Situation4A(sky, k, px, cboxx, cboxz)
    else Situation4B(sky, k, cboxx, cboxz)
  }

  /** The two 4A branches that read the x coordinate after moving the edge. */
  predicate ShiftedCoordinate(sky: seq<Gap>, k: nat, px: real, cboxx: real, cboxz: real)
    requires k < |sky|
  {
    && 0 < k < |sky| - 1
    && sky[k - 1].cumZ == sky[k + 1].cumZ
    && cboxx != Width(sky, k)
    && sky[k].cumZ + cboxz == sky[k - 1].cumZ
  }

  /** A placement adds at most one stretch. */
  lemma PlaceGrowsByAtMostOne(sky: seq<Gap>, k: nat, px: real, cboxx: real, cboxz: real)
    requires k < |sky|
    ensures |Place(sky, k, px, cboxx, cboxz).sky| <= |sky| + 1
    ensures |Place(sky, k, px, cboxx, cboxz).sky| > 0
  {
  }

  /**
   * Outside the two shifted 4A branches, the box is given an x coordinate at
   * one end of the gap, so it lies within the gap.
   */
  lemma PlaceCoordinateInGap(sky: seq<Gap>, k: nat, px: real, cboxx: real, cboxz: real)
    requires k < |sky|
    requires !ShiftedCoordinate(sky, k, px, cboxx, cboxz)
    ensures var c := Place(sky, k, px, cboxx, cboxz).coordLength;
      c == Left(sky, k) || c == sky[k].cumX - cboxx
  {
  }

  /**
   * In the two shifted 4A branches the coordinate is one box width off the
   * end of the gap the box was put at: left of the right end, or right of the
   * left end.
   */
  lemma ShiftedCoordinateOffByWidth(sky: seq<Gap>, k: nat, px: real, cboxx: real, cboxz: real)
    requires k < |sky|
    requires ShiftedCoordinate(sky, k, px, cboxx, cboxz)
    ensures var c := Place(sky, k, px, cboxx, cboxz).coordLength;
      if Left(sky, k) < px - sky[k].cumX then c == sky[k].cumX - 2.0 * cboxx
      else c == Left(sky, k) + cboxx
  {
  }

  /** A concrete case: the coordinate falls outside the gap of width 4 starting at 2. */
  lemma ShiftedCoordinateLeavesGap()
    ensures var sky := [Gap(2.0, 5.0), Gap(6.0, 0.0), Gap(10.0, 5.0)];
      WellFormed(sky, 10.0) && Place(sky, 1, 10.0, 3.0, 5.0).coordLength == 0.0 && Left(sky, 1) == 2.0
  {
  }

  /** Every placement of a box no wider than the gap keeps the edge well formed. */
  lemma PlaceWellFormed(sky: seq<Gap>, k: nat, px: real, cboxx: real, cboxz: real)
    requires WellFormed(sky, px) && k < |sky|
    requires 0.0 < cboxx <= Width(sky, k) && 0.0 < cboxz
    ensures WellFormed(Place(sky, k, px, cboxx, cboxz).sky, px)
  {
    var r := Place(sky, k, px, cboxx, cboxz).sky;
    if |sky| == 1 {
    } else if k == 0 {
      Situation2WellFormed(sky, px, cboxx, cboxz);
    } else if k == |sky| - 1 {
      Situation3WellFormed(sky, k, px, cboxx, cboxz);
    } else if sky[k - 1].cumZ == sky[k + 1].cumZ {
      Situation4AWellFormed(sky, k, px, cboxx, cboxz);
    } else {
      Situation4BWellFormed(sky, k, px, cboxx, cboxz);
    }
  }

  lemma Situation2WellFormed(sky: seq<Gap>, px: real, cboxx: real, cboxz: real)
    requires WellFormed(sky, px) && |sky| > 1
    requires 0.0 < cboxx <= Width(sky, 0) && 0.0 < cboxz
    ensures WellFormed(Situation2(sky, cboxx, cboxz).sky, px)
  {
    var s := sky[0];
    if cboxx == s.cumX {
      if s.cumZ + cboxz == sky[1].cumZ {
        DropFirst(sky, px);
      } else {
        SpliceFront1(sky, px, Gap(s.cumX, s.cumZ + cboxz), 1);
      }
    } else if s.cumZ + cboxz == sky[1].cumZ {
      SpliceFront1(sky, px, Gap(s.cumX - cboxx, s.cumZ), 1);
    } else {
      SpliceFront2(sky, px, Gap(s.cumX - cboxx, s.cumZ), Gap(s.cumX, s.cumZ + cboxz), 1);
    }
  }

  /** Dropping the first stretch of a well-formed edge of several keeps it well formed. */
  lemma DropFirst(sky: seq<Gap>, px: real)
    requires WellFormed(sky, px) && |sky| > 1
    ensures WellFormed(sky[1..], px)
  {
    assert sky[1..][0] == sky[1];
  }

  /** Splice at the left wall with a run of one stretch. */
  lemma SpliceFront1(sky: seq<Gap>, px: real, g: Gap, b: nat)
    requires WellFormed(sky, px) && b <= |sky| && 0.0 <= g.cumZ && 0.0 < g.cumX
    requires if b < |sky| then g.cumX < sky[b].cumX else g.cumX == px
    ensures WellFormed([g] + sky[b..], px)
  {
    Splice1(sky, px, 0, g, b);
    assert sky[..0] + [g] + sky[b..] == [g] + sky[b..];
  }

  /** Splice at the left wall with a run of two stretches. */
  lemma SpliceFront2(sky: seq<Gap>, px: real, g: Gap, h: Gap, b: nat)
    requires WellFormed(sky, px) && b <= |sky| && 0.0 <= g.cumZ && 0.0 <= h.cumZ && 0.0 < g.cumX < h.cumX
    requires if b < |sky| then h.cumX < sky[b].cumX else h.cumX == px
    ensures WellFormed([g, h] + sky[b..], px)
  {
    Splice2(sky, px, 0, g, h, b);
    assert sky[..0] + [g, h] + sky[b..] == [g, h] + sky[b..];
  }

  lemma Situation3WellFormed(sky: seq<Gap>, k: nat, px: real, cboxx: real, cboxz: real)
    requires WellFormed(sky, px) && 0 < k == |sky| - 1
    requires 0.0 < cboxx <= Width(sky, k) && 0.0 < cboxz
    ensures WellFormed(Situation3(sky, k, cboxx, cboxz).sky, px)
  {
    var q, s := sky[k - 1], sky[k];
    var r := Situation3(sky, k, cboxx, cboxz).sky;
    assert q.cumX < s.cumX;
    if cboxx == s.cumX - q.cumX {
      if s.cumZ + cboxz == q.cumZ {
        var g := Gap(s.cumX, q.cumZ);
        assert r == sky[..k - 1] + [g];
        assert k - 1 == 0 || sky[k - 2].cumX < q.cumX;
        SpliceBack1(sky, px, k - 1, g);
      } else {
        var g := Gap(s.cumX, s.cumZ + cboxz);
        assert r == sky[..k] + [g];
        SpliceBack1(sky, px, k, g);
      }
    } else if s.cumZ + cboxz == q.cumZ {
      var g := Gap(q.cumX + cboxx, q.cumZ);
      assert r == sky[..k - 1] + [g, s];
      assert k - 1 == 0 || sky[k - 2].cumX < q.cumX;
      SpliceBack2(sky, px, k - 1, g, s);
    } else {
      var g := Gap(q.cumX + cboxx, s.cumZ + cboxz);
      assert r == sky[..k] + [g, s];
      SpliceBack2(sky, px, k, g, s);
    }
  }

  /** Replacing the tail from stretch a on by one stretch reaching the right wall. */
  lemma SpliceBack1(sky: seq<Gap>, px: real, a: nat, g: Gap)
    requires WellFormed(sky, px) && a < |sky| && 0.0 <= g.cumZ && g.cumX == px
    requires if a == 0 then 0.0 < g.cumX else sky[a - 1].cumX < g.cumX
    ensures WellFormed(sky[..a] + [g], px)
  {
    Splice1(sky, px, a, g, |sky|);
    assert sky[..a] + [g] + sky[|sky|..] == sky[..a] + [g];
  }

  /** Replacing the tail from stretch a on by two stretches, the second reaching the right wall. */
  lemma SpliceBack2(sky: seq<Gap>, px: real, a: nat, g: Gap, h: Gap)
    requires WellFormed(sky, px) && a < |sky| && 0.0 <= g.cumZ && 0.0 <= h.cumZ
    requires if a == 0 then 0.0 < g.cumX else sky[a - 1].cumX < g.cumX
    requires g.cumX < h.cumX && h.cumX == px
    ensures WellFormed(sky[..a] + [g, h], px)
  {
    Splice2(sky, px, a, g, h, |sky|);
    assert sky[..a] + [g, h] + sky[|sky|..] == sky[..a] + [g, h];
  }

  lemma Situation4AWellFormed(sky: seq<Gap>, k: nat, px: real, cboxx: real, cboxz: real)
    requires WellFormed(sky, px) && 0 < k < |sky| - 1
    requires 0.0 < cboxx <= Width(sky, k) && 0.0 < cboxz
    ensures WellFormed(Situation4A(sky, k, px, cboxx, cboxz).sky, px)
  {
    var q, s, p := sky[k - 1], sky[k], sky[k + 1];
    var r := Situation4A(sky, k, px, cboxx, cboxz).sky;
    if cboxx == s.cumX - q.cumX {
      if s.cumZ + cboxz == p.cumZ {
        var g := Gap(p.cumX, q.cumZ);
        assert r == sky[..k - 1] + [g] + sky[k + 2..];
        Splice1(sky, px, k - 1, g, k + 2);
      } else {
        var g := Gap(s.cumX, s.cumZ + cboxz);
        assert r == sky[k := g];
        Replace(sky, px, k, g);
      }
    } else {
      Situation4APartWellFormed(sky, k, px, cboxx, cboxz);
    }
  }

  lemma Situation4APartWellFormed(sky: seq<Gap>, k: nat, px: real, cboxx: real, cboxz: real)
    requires WellFormed(sky, px) && 0 < k < |sky| - 1
    requires 0.0 < cboxx < Width(sky, k) && 0.0 < cboxz
    ensures WellFormed(Situation4A(sky, k, px, cboxx, cboxz).sky, px)
  {
    var q, s := sky[k - 1], sky[k];
    var r := Situation4A(sky, k, px, cboxx, cboxz).sky;
    assert q.cumX < s.cumX < sky[k + 1].cumX;
    if q.cumX < px - s.cumX {
      if s.cumZ + cboxz == q.cumZ {
        var g := Gap(s.cumX - cboxx, s.cumZ);
        assert r == sky[k := g];
        Replace(sky, px, k, g);
      } else {
        var g := Gap(q.cumX + cboxx, s.cumZ + cboxz);
        assert r == sky[..k] + [g, s] + sky[k + 1..];
        Splice2(sky, px, k, g, s, k + 1);
      }
    } else {
      if s.cumZ + cboxz == q.cumZ {
        var g := Gap(q.cumX + cboxx, q.cumZ);
        assert r == sky[k - 1 := g];
        assert k - 1 == 0 || sky[k - 2].cumX < q.cumX;
        Replace(sky, px, k - 1, g);
      } else {
        var g, h := Gap(s.cumX - cboxx, s.cumZ), Gap(s.cumX, s.cumZ + cboxz);
        assert r == sky[..k] + [g, h] + sky[k + 1..];
        Splice2(sky, px, k, g, h, k + 1);
      }
    }
  }

  lemma Situation4BWellFormed(sky: seq<Gap>, k: nat, px: real, cboxx: real, cboxz: real)
    requires WellFormed(sky, px) && 0 < k < |sky| - 1
    requires 0.0 < cboxx <= Width(sky, k) && 0.0 < cboxz
    ensures WellFormed(Situation4B(sky, k, cboxx, cboxz).sky, px)
  {
    var q, s := sky[k - 1], sky[k];
    var r := Situation4B(sky, k, cboxx, cboxz).sky;
    if cboxx == s.cumX - q.cumX {
      if s.cumZ + cboxz == q.cumZ {
        var g := Gap(s.cumX, q.cumZ);
        assert r == sky[..k - 1] + [g] + sky[k + 1..];
        Splice1(sky, px, k - 1, g, k + 1);
      } else {
        var g := Gap(s.cumX, s.cumZ + cboxz);
        assert r == sky[k := g];
        Replace(sky, px, k, g);
      }
    } else {
      Situation4BPartWellFormed(sky, k, px, cboxx, cboxz);
    }
  }

  lemma Situation4BPartWellFormed(sky: seq<Gap>, k: nat, px: real, cboxx: real, cboxz: real)
    requires WellFormed(sky, px) && 0 < k < |sky| - 1
    requires 0.0 < cboxx < Width(sky, k) && 0.0 < cboxz
    ensures WellFormed(Situation4B(sky, k, cboxx, cboxz).sky, px)
  {
    var q, s, p := sky[k - 1], sky[k], sky[k + 1];
    var r := Situation4B(sky, k, cboxx, cboxz).sky;
    assert q.cumX < s.cumX < p.cumX;
    if s.cumZ + cboxz == q.cumZ {
      var g := Gap(q.cumX + cboxx, q.cumZ);
      assert r == sky[k - 1 := g];
      assert k - 1 == 0 || sky[k - 2].cumX < q.cumX;
      Replace(sky, px, k - 1, g);
    } else if s.cumZ + cboxz == p.cumZ {
      var g := Gap(s.cumX - cboxx, s.cumZ);
      assert r == sky[k := g];
      Replace(sky, px, k, g);
    } else {
      var g := Gap(q.cumX + cboxx, s.cumZ + cboxz);
      assert r == sky[..k] + [g, s] + sky[k + 1..];
      Splice2(sky, px, k, g, s, k + 1);
    }
  }

  /** Overwriting one stretch with one that fits between its neighbours keeps the edge well formed. */
  lemma Replace(sky: seq<Gap>, px: real, k: nat, g: Gap)
    requires WellFormed(sky, px) && k < |sky| && 0.0 <= g.cumZ
    requires if k == 0 then 0.0 < g.cumX else sky[k - 1].cumX < g.cumX
    requires if k + 1 < |sky| then g.cumX < sky[k + 1].cumX else g.cumX == px
    ensures WellFormed(sky[k := g], px)
  {
    Splice1(sky, px, k, g, k + 1);
    assert sky[k := g] == sky[..k] + [g] + sky[k + 1..];
  }

  // ---------------------------------------------------------------------
  // The edge changes in the order the packer makes them
  // ---------------------------------------------------------------------

  /** Gap g linked in right after stretch k. */
  function InsertGap(sky: seq<Gap>, k: nat, g: Gap): (r: seq<Gap>)
    requires k < |sky|
    ensures |r| == |sky| + 1
  {
    sky[..k + 1] + [g] + sky[k + 1..]
  }

  /** Stretch k unlinked. */
  function RemoveGap(sky: seq<Gap>, k: nat): (r: seq<Gap>)
    requires k < |sky|
    ensures |r| == |sky| - 1
  {
    sky[..k] + sky[k + 1..]
  }

  /** Evening, as the sequence of link changes the packer makes. */
  lemma EvenSteps(sky: seq<Gap>, k: nat)
    requires 0 <= k < |sky| && |sky| > 1
    ensures Even(sky, k) ==
      if k == 0 then RemoveGap(sky[0 := sky[1]], 1)
      else if k == |sky| - 1 then RemoveGap(sky, k)[k - 1 := Gap(sky[k].cumX, sky[k - 1].cumZ)]
      else if sky[k - 1].cumZ == sky[k + 1].cumZ then RemoveGap(RemoveGap(sky, k), k)[k - 1 := Gap(sky[k + 1].cumX, sky[k - 1].cumZ)]
      else if sky[k - 1].cumZ < sky[k + 1].cumZ then RemoveGap(sky, k)[k - 1 := Gap(sky[k].cumX, sky[k - 1].cumZ)]
      else RemoveGap(sky, k)
  {
  }

  /** Situation 1 as the packer's link changes. */
  lemma Situation1Steps(sky: seq<Gap>, cboxx: real, cboxz: real)
    requires |sky| == 1
    ensures var s := sky[0];
      Situation1(sky, cboxx, cboxz) ==
        if cboxx == s.cumX then Placement(sky[0 := Gap(s.cumX, s.cumZ + cboxz)], 0.0)
        else Placement(InsertGap(sky, 0, s)[0 := Gap(cboxx, s.cumZ + cboxz)], 0.0)
  {
  }

  /** Situation 2 as the packer's link changes. */
  lemma Situation2Steps(sky: seq<Gap>, cboxx: real, cboxz: real)
    requires |sky| > 1
    ensures var s, p := sky[0], sky[1];
      Situation2(sky, cboxx, cboxz) ==
        if cboxx == s.cumX then
          if s.cumZ + cboxz == p.cumZ then Placement(RemoveGap(sky[0 := p], 1), 0.0)
          else Placement(sky[0 := Gap(s.cumX, s.cumZ + cboxz)], 0.0)
        else if s.cumZ + cboxz == p.cumZ then Placement(sky[0 := Gap(s.cumX - cboxx, s.cumZ)], s.cumX - cboxx)
        else Placement(InsertGap(sky, 0, Gap(s.cumX, s.cumZ + cboxz))[0 := Gap(s.cumX - cboxx, s.cumZ)], s.cumX - cboxx)
  {
  }

  /** Situation 3 as the packer's link changes. */
  lemma Situation3Steps(sky: seq<Gap>, k: nat, cboxx: real, cboxz: real)
    requires 0 < k == |sky| - 1
    ensures var q, s := sky[k - 1], sky[k];
      Situation3(sky, k, cboxx, cboxz) ==
        if cboxx == s.cumX - q.cumX then
          if s.cumZ + cboxz == q.cumZ then Placement(RemoveGap(sky, k)[k - 1 := Gap(s.cumX, q.cumZ)], q.cumX)
          else Placement(sky[k := Gap(s.cumX, s.cumZ + cboxz)], q.cumX)
        else if s.cumZ + cboxz == q.cumZ then Placement(sky[k - 1 := Gap(q.cumX + cboxx, q.cumZ)], q.cumX)
        else Placement(InsertGap(sky, k - 1, Gap(q.cumX + cboxx, s.cumZ + cboxz)), q.cumX)
  {
  }

  /** Sub-situation 4A as the packer's link changes. */
  lemma Situation4ASteps(sky: seq<Gap>, k: nat, px: real, cboxx: real, cboxz: real)
    requires 0 < k < |sky| - 1
    ensures var q, s, p := sky[k - 1], sky[k], sky[k + 1];
      Situation4A(sky, k, px, cboxx, cboxz) ==
        if cboxx == s.cumX - q.cumX then
          if s.cumZ + cboxz == p.cumZ then Placement(RemoveGap(RemoveGap(sky, k), k)[k - 1 := Gap(p.cumX, q.cumZ)], q.cumX)
          else Placement(sky[k := Gap(s.cumX, s.cumZ + cboxz)], q.cumX)
        else if q.cumX < px - s.cumX then
          if s.cumZ + cboxz == q.cumZ then Placement(sky[k := Gap(s.cumX - cboxx, s.cumZ)], s.cumX - cboxx - cboxx)
          else Placement(InsertGap(sky, k - 1, Gap(q.cumX + cboxx, s.cumZ + cboxz)), q.cumX)
        else if s.cumZ + cboxz == q.cumZ then Placement(sky[k - 1 := Gap(q.cumX + cboxx, q.cumZ)], q.cumX + cboxx)
        else Placement(InsertGap(sky, k, Gap(s.cumX, s.cumZ + cboxz))[k := Gap(s.cumX - cboxx, s.cumZ)], s.cumX - cboxx)
  {
  }

  /** Sub-situation 4B as the packer's link changes. */
  lemma Situation4BSteps(sky: seq<Gap>, k: nat, cboxx: real, cboxz: real)
    requires 0 < k < |sky| - 1
    ensures var q, s, p := sky[k - 1], sky[k], sky[k + 1];
      Situation4B(sky, k, cboxx, cboxz) ==
        if cboxx == s.cumX - q.cumX then
          if s.cumZ + cboxz == q.cumZ then Placement(RemoveGap(sky, k)[k - 1 := Gap(s.cumX, q.cumZ)], q.cumX)
          else Placement(sky[k := Gap(s.cumX, s.cumZ + cboxz)], q.cumX)
        else if s.cumZ + cboxz == q.cumZ then Placement(sky[k - 1 := Gap(q.cumX + cboxx, q.cumZ)], q.cumX)
        else if s.cumZ + cboxz == p.cumZ then Placement(sky[k := Gap(s.cumX - cboxx, s.cumZ)], s.cumX - cboxx)
        else Placement(InsertGap(sky, k - 1, Gap(q.cumX + cboxx, s.cumZ + cboxz)), q.cumX)
  {
  }
}
