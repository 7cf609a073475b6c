/** Flat row-major rasters: `w` cells to a row, cell (x, y) at y * w + x. */
module Grid {
  lemma CellInRange(w: nat, h: nat, x: nat, y: nat)
    requires x < w && y < h
    ensures 0 <= y * w + x < h * w
  {
    assert (h - 1 - y) * w >= 0;
    assert h * w == (h - 1 - y) * w + y * w + w;
  }

  lemma CellsDiffer(w: nat, x: nat, y: nat, x': nat, y': nat)
    requires x < w && x' < w && (x != x' || y != y')
    ensures y * w + x != y' * w + x'
  {
    if y < y' {
      CellInRange(w, y', x, y);
    } else if y' < y {
      CellInRange(w, y, x', y');
    }
  }

  function At<T>(s: seq<T>, w: nat, h: nat, x: nat, y: nat): T
    requires |s| == h * w && x < w && y < h
  {
    CellInRange(w, h, x, y);
    s[y * w + x]
  }

  /** Storing one cell changes that cell and no other. */
  lemma Store<T>(s: seq<T>, w: nat, h: nat, x: nat, y: nat, v: T, s': seq<T>)
    requires |s| == h * w && x < w && y < h
    requires |s'| == |s| && y * w + x < |s| && s' == s[y * w + x := v]
    ensures forall x', y' :: 0 <= x' < w && 0 <= y' < h ==>
      At(s', w, h, x', y') == if x' == x && y' == y then v else At(s, w, h, x', y')
  {
    forall x', y' | 0 <= x' < w && 0 <= y' < h
      ensures At(s', w, h, x', y') == if x' == x && y' == y then v else At(s, w, h, x', y')
    {
      CellInRange(w, h, x', y');
      if x' != x || y' != y {
        CellsDiffer(w, x, y, x', y');
      }
    }
  }

  function Row<T>(s: seq<T>, w: nat, h: nat, y: nat): (r: seq<T>)
    requires |s| == h * w && y < h
    ensures |r| == w && forall x :: 0 <= x < w ==> r[x] == At(s, w, h, x, y)
  {
    seq(w, x requires 0 <= x < w => At(s, w, h, x, y))
  }

  function Column<T>(s: seq<T>, w: nat, h: nat, x: nat): (c: seq<T>)
    requires |s| == h * w && x < w
    ensures |c| == h && forall y :: 0 <= y < h ==> c[y] == At(s, w, h, x, y)
  {
    seq(h, y requires 0 <= y < h => At(s, w, h, x, y))
  }

  /** One cell by its flat index, its row and its column. */
  lemma Cell<T>(s: seq<T>, w: nat, h: nat, x: nat, y: nat)
    requires |s| == h * w && x < w && y < h
    ensures 0 <= y * w + x < |s|
    ensures s[y * w + x] == At(s, w, h, x, y) == Row(s, w, h, y)[x] == Column(s, w, h, x)[y]
  {
    CellInRange(w, h, x, y);
  }
}
