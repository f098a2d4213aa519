/**
 * The data records shared by both packers: the item (a requested item type
 * before packing, one packable unit after), the container, and the result
 * record an algorithm returns.
 */
module Entities {

  /** An item, also used to hold the post-packing details of one unit. */
  datatype Item = Item(
    id: int,
    isPacked: bool,
    length: real,
    width: real,
    height: real,
    coordLength: real,
    coordWidth: real,
    coordHeight: real,
    quantity: int,
    packLength: real,
    packWidth: real,
    packHeight: real)
  {
    /** The item volume: the product of the three raw dimensions. */
    function Volume(): real
    {
      length * width * height
    }

    /** The raw dimensions, in declaration order. */
    function Dims(): (real, real, real)
    {
      (length, width, height)
    }

    /** The dimensions of the orientation the item was packed in. */
    function PackDims(): (real, real, real)
    {
      (packLength, packWidth, packHeight)
    }

    /** The packed extents are one of the six axis permutations of the raw dimensions. */
    predicate Oriented()
    {
      IsPermutation(packLength, packWidth, packHeight, length, width, height)
    }
  }

  /** (a, b, c) is one of the six orderings of (x, y, z). */
  predicate IsPermutation(a: real, b: real, c: real, x: real, y: real, z: real)
  {
    || (a == x && b == y && c == z)
    || (a == x && b == z && c == y)
    || (a == y && b == x && c == z)
    || (a == y && b == z && c == x)
    || (a == z && b == x && c == y)
    || (a == z && b == y && c == x)
  }

  datatype Option<T> = None | Some(value: T)

  /** The container: three dimensions, fixed for a run. */
  datatype Container = Container(length: real, width: real, height: real)
  {
    function Volume(): real
    {
      length * width * height
    }
  }

  /** What an algorithm returns to its caller. */
  datatype AlgorithmPackingResult = AlgorithmPackingResult(
    algorithmName: string,
    isCompletePack: bool,
    packedItems: seq<Item>,
    unpackedItems: seq<Item>)

  /** The five-argument constructor: everything else keeps its default. */
  function NewItem(id: int, length: real, width: real, height: real, quantity: int): (r: Item)
    ensures r.id == id && r.quantity == quantity
    ensures r.Dims() == (length, width, height)
    ensures !r.isPacked
    ensures r.coordLength == 0.0 && r.coordWidth == 0.0 && r.coordHeight == 0.0
    ensures r.PackDims() == (0.0, 0.0, 0.0)
  {
    Item(id, false, length, width, height, 0.0, 0.0, 0.0, quantity, 0.0, 0.0, 0.0)
  }

  /** The copy constructor, field by field. */
  function CopyItem(original: Item): (r: Item)
    ensures r.id == original.id && r.isPacked == original.isPacked
    ensures r.Dims() == original.Dims() && r.PackDims() == original.PackDims()
    ensures r.coordLength == original.coordLength
    ensures r.coordWidth == original.coordWidth
    ensures r.coordHeight == original.coordHeight
    ensures r.quantity == original.quantity
  {
    Item(original.id, original.isPacked,
         original.length, original.width, original.height,
         original.coordLength, original.coordWidth, original.coordHeight,
         original.quantity,
         original.packLength, original.packWidth, original.packHeight)
  }

  /** A copy is indistinguishable from its original. */
  lemma CopyIsEqual(original: Item)
    ensures CopyItem(original) == original
    ensures CopyItem(original).Volume() == original.Volume()
  {
  }

  /** The volume depends on the raw dimensions only, never on where or how the item was packed. */
  lemma VolumeIgnoresPlacement(it: Item, packed: bool, cl: real, cw: real, ch: real, pl: real, pw: real, ph: real, q: int)
    ensures it.(isPacked := packed, coordLength := cl, coordWidth := cw, coordHeight := ch,
                quantity := q, packLength := pl, packWidth := pw, packHeight := ph).Volume()
            == it.Volume()
  {
  }

  /** A unit made by the five-argument constructor has the volume of the dimensions given. */
  lemma NewItemVolume(id: int, length: real, width: real, height: real, quantity: int)
    ensures NewItem(id, length, width, height, quantity).Volume() == length * width * height
  {
  }

  /** Two records describe the same physical unit: same id, raw dimensions and quantity. */
  predicate SameUnit(a: Item, b: Item)
  {
    a.id == b.id && a.Dims() == b.Dims() && a.quantity == b.quantity
  }

  /** The product of a permutation of the raw dimensions is the volume. */
  lemma OrientedVolume(it: Item)
    requires it.Oriented()
    ensures it.packLength * it.packWidth * it.packHeight == it.Volume()
  {
  }

  /** A permuted orientation has the raw dimensions as its multiset of extents. */
  lemma OrientedMultiset(it: Item)
    requires it.Oriented()
    ensures multiset([it.packLength, it.packWidth, it.packHeight]) == multiset([it.length, it.width, it.height])
  {
    var l, w, h := it.length, it.width, it.height;
    Orderings(l, w, h);
    var a, b, c := it.packLength, it.packWidth, it.packHeight;
    if a == l && b == h && c == w {
      assert [a, b, c] == [l, h, w];
    } else if a == w && b == l && c == h {
      assert [a, b, c] == [w, l, h];
    } else if a == w && b == h && c == l {
      assert [a, b, c] == [w, h, l];
    } else if a == h && b == l && c == w {
      assert [a, b, c] == [h, l, w];
    } else if a == h && b == w && c == l {
      assert [a, b, c] == [h, w, l];
    }
  }

  /** All six orderings of three values hold the same multiset. */
  lemma Orderings(x: real, y: real, z: real)
    ensures var m := multiset([x, y, z]);
      && multiset([x, z, y]) == m && multiset([y, x, z]) == m && multiset([y, z, x]) == m
      && multiset([z, x, y]) == m && multiset([z, y, x]) == m
  {
    SwapBack(x, y, z);
    SwapFront(x, y, z);
    SwapBack(y, x, z);
    SwapFront(x, z, y);
    SwapFront(y, z, x);
  }

  lemma SwapFront(a: real, b: real, c: real)
    ensures multiset([a, b, c]) == multiset([b, a, c])
  {
    assert multiset([a, b, c]) == multiset{a, b, c};
    assert multiset([b, a, c]) == multiset{b, a, c};
  }

  lemma SwapBack(a: real, b: real, c: real)
    ensures multiset([a, b, c]) == multiset([a, c, b])
  {
    assert multiset([a, b, c]) == multiset{a, b, c};
    assert multiset([a, c, b]) == multiset{a, c, b};
  }

  /** m copies of x. */
  function Repeat(x: Item, m: nat): (r: seq<Item>)
    ensures |r| == m
    ensures forall i :: 0 <= i < m ==> r[i] == x
  {
    if m == 0 then [] else Repeat(x, m - 1) + [x]
  }

  /** What identifies a unit's kind: its id and raw dimensions. */
  function Kind(x: Item): (int, real, real, real)
  {
    (x.id, x.length, x.width, x.height)
  }

  function Kinds(s: seq<Item>): (r: seq<(int, real, real, real)>)
    ensures |r| == |s|
    ensures forall i :: 0 <= i < |s| ==> r[i] == Kind(s[i])
  {
    seq(|s|, i requires 0 <= i < |s| => Kind(s[i]))
  }

  lemma KindsAppend(a: seq<Item>, b: seq<Item>)
    ensures Kinds(a + b) == Kinds(a) + Kinds(b)
  {
  }
}
