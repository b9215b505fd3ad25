/** The composite items of the configuration (main.go:31-54), their ordering by depth
    (main.go:143-145) and where an image layer lands on the canvas (main.go:161-167). */
module Layers {
  import opened Basics
  import opened Drawing

  /** `Position`: percentages of the canvas width and height (float64 in the source). */
  datatype Position = Position(x: real, y: real)

  /** `CompositeItem`, with `CommonParam` and `SpecificParam` flattened. */
  datatype Item = Item(
    kind: seq<byte>,      // CommonParam.Type: "image", "text", or anything else
    depth: int,           // CommonParam.Depth
    scale: real,          // CommonParam.Scale
    pos: Position,        // CommonParam.Pos
    align: seq<byte>,     // CommonParam.Align
    filePath: seq<byte>,  // SpecificParam.FilePath
    text: seq<byte>,      // SpecificParam.Text
    font: seq<byte>,      // SpecificParam.Font
    color: seq<byte>      // SpecificParam.Color
  )

  predicate SortedByDepth(s: seq<Item>) {
    forall i, j :: 0 <= i < j < |s| ==> s[i].depth <= s[j].depth
  }

  /** Exchanges `a[j - 1]` and `a[j]`. */
  method SwapDown(a: array<Item>, j: int)
    requires 0 < j < a.Length
    modifies a
    ensures a[..] == old(a[..])[j - 1 := old(a[j])][j := old(a[j - 1])]
    ensures multiset(a[..]) == multiset(old(a[..]))
  {
    a[j - 1], a[j] := a[j], a[j - 1];
  }

  /** `sort.Slice(items, less by Depth)`. Go's sort is not stable, so all the source promises
      is a permutation with non-decreasing depths; this insertion sort is one such sort, and
      nothing else in the model depends on how it orders equal depths. */
  method SortByDepth(a: array<Item>)
    modifies a
    ensures SortedByDepth(a[..])
    ensures multiset(a[..]) == multiset(old(a[..]))
  {
    var i := 0;
    while i < a.Length
      invariant 0 <= i <= a.Length
      invariant SortedByDepth(a[..i])
      invariant multiset(a[..]) == multiset(old(a[..]))
    {
      InsertLast(a, i);
      i := i + 1;
    }
    assert a[..a.Length] == a[..];
  }

  /** Moves `a[i]` down into the sorted prefix `a[..i]`, leaving `a[..i + 1]` sorted. */
  method InsertLast(a: array<Item>, i: int)
    requires 0 <= i < a.Length && SortedByDepth(a[..i])
    modifies a
    ensures SortedByDepth(a[..i + 1])
    ensures multiset(a[..]) == multiset(old(a[..]))
  {
    var j := i;
    while j > 0 && a[j - 1].depth > a[j].depth
      invariant 0 <= j <= i
      invariant multiset(a[..]) == multiset(old(a[..]))
      invariant forall p, q :: 0 <= p < q <= i && q != j ==> a[p].depth <= a[q].depth
      invariant j < i ==> forall p :: 0 <= p < j ==> a[p].depth <= a[j + 1].depth
    {
      SwapDown(a, j);
      j := j - 1;
    }
  }

  /** Where `imaging.Overlay` puts an image whose scaled size is `width` x `height` so that
      `anchor` is its centre (main.go:166-167, Go's truncating `/ 2`). The anchor is the
      centre of the placed image (the left or upper middle pixel when a side is even), and
      the placement is never clamped: an anchor near or beyond an edge puts the image partly
      or wholly outside the canvas. */
  function ImageTopLeft(anchor: Point, width: nat, height: nat): (tl: Point)
    ensures 0 <= 2 * (anchor.x - tl.x) <= width < 2 * (anchor.x - tl.x) + 2
    ensures 0 <= 2 * (anchor.y - tl.y) <= height < 2 * (anchor.y - tl.y) + 2
  {
    Point(anchor.x - Quo(width, 2), anchor.y - Quo(height, 2))
  }

  /** Worked examples: a 1000 x 800 canvas, position (50, 50) and a 200 x 100 image at
      scale 0.5 give the anchor (500, 400), the size 100 x 50 and the top-left (450, 375);
      the anchor (0, 0) puts the same image at (-50, -25), off the canvas. */
  lemma PlacementExamples()
    ensures ImageTopLeft(Point(500, 400), 100, 50) == Point(450, 375)
    ensures ImageTopLeft(Point(0, 0), 100, 50) == Point(-50, -25)
  {
  }

  function Depths(s: seq<Item>): (ds: seq<int>)
    ensures |ds| == |s|
    ensures forall i :: 0 <= i < |s| ==> ds[i] == s[i].depth
  {
    seq(|s|, i requires 0 <= i < |s| => s[i].depth)
  }

  /** Removing the element at `j` removes one occurrence of it from the multiset. */
  lemma MultisetRemove<T>(t: seq<T>, j: nat)
    requires j < |t|
    ensures multiset(t[..j] + t[j + 1..]) == multiset(t) - multiset{t[j]}
    ensures multiset(t) == multiset(t[..j] + t[j + 1..]) + multiset{t[j]}
  {
    assert t == t[..j] + [t[j]] + t[j + 1..];
    assert multiset(t) == multiset(t[..j]) + multiset{t[j]} + multiset(t[j + 1..]);
  }

  lemma MultisetTail<T>(t: seq<T>)
    requires |t| > 0
    ensures multiset(t[1..]) == multiset(t) - multiset{t[0]}
    ensures multiset(t) == multiset(t[1..]) + multiset{t[0]}
  {
    assert t == [t[0]] + t[1..];
  }

  lemma {:induction false} PermutedDepths(s: seq<Item>, t: seq<Item>)
    requires multiset(s) == multiset(t)
    ensures multiset(Depths(s)) == multiset(Depths(t))
    decreases |s|
  {
    if |s| == 0 {
      assert t == [];
    } else {
      assert s[0] in multiset(t);
      var j :| 0 <= j < |t| && t[j] == s[0];
      var t' := t[..j] + t[j + 1..];
      MultisetTail(s);
      MultisetRemove(t, j);
      assert multiset(s[1..]) == multiset(t');
      PermutedDepths(s[1..], t');
      var ds, dt := Depths(s), Depths(t);
      DepthsSlices(s, t, j);
      MultisetTail(ds);
      MultisetRemove(dt, j);
      assert ds[0] == dt[j];
    }
  }

  lemma DepthsSlices(s: seq<Item>, t: seq<Item>, j: nat)
    requires |s| > 0 && j < |t|
    ensures Depths(s[1..]) == Depths(s)[1..]
    ensures Depths(t[..j] + t[j + 1..]) == Depths(t)[..j] + Depths(t)[j + 1..]
  {
  }

  predicate Ascending(ds: seq<int>) {
    forall i, j :: 0 <= i < j < |ds| ==> ds[i] <= ds[j]
  }

  /** The first element of an ascending sequence is its least. */
  lemma HeadIsLeast(a: seq<int>, x: int)
    requires Ascending(a) && x in multiset(a)
    ensures |a| > 0 && a[0] <= x
  {
    var k :| 0 <= k < |a| && a[k] == x;
  }

  lemma AscendingTail(a: seq<int>)
    requires Ascending(a) && |a| > 0
    ensures Ascending(a[1..])
  {
  }

  lemma {:induction false} AscendingUnique(a: seq<int>, b: seq<int>)
    requires multiset(a) == multiset(b) && Ascending(a) && Ascending(b)
    ensures a == b
    decreases |a|
  {
    if |a| == 0 {
      assert multiset(b) == multiset{};
    } else {
      HeadIsLeast(b, a[0]);
      HeadIsLeast(a, b[0]);
      assert a[0] == b[0];
      MultisetTail(a);
      MultisetTail(b);
      assert multiset(a[1..]) == multiset(b[1..]);
      AscendingTail(a);
      AscendingTail(b);
      AscendingUnique(a[1..], b[1..]);
      assert |a| == |b|;
      forall k | 0 <= k < |a| ensures a[k] == b[k] {
        if k > 0 {
          assert a[k] == a[1..][k - 1] && b[k] == b[1..][k - 1];
        }
      }
    }
  }

  /** Although equal depths may come out in either order, every sort by depth of the same
      items yields the same sequence of depths: only the order among equal depths is open. */
  lemma SortedPermutationsShareDepths(s: seq<Item>, t: seq<Item>)
    requires multiset(s) == multiset(t) && SortedByDepth(s) && SortedByDepth(t)
    ensures Depths(s) == Depths(t)
  {
    PermutedDepths(s, t);
    AscendingUnique(Depths(s), Depths(t));
  }
}
