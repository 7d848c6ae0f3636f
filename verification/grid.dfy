/**
 * The terrain grid and the flat index the viewer uses for it.
 *
 * The viewer walks a width x height image with column `i` outermost and row `j`
 * innermost, and stores cell (i, j) at index `i*width + j` of an array of
 * `width*height` samples. That index is a bijection onto the array only for
 * square images (or a single column): lemmas below state exactly when it stays in
 * bounds and when it is injective.
 */
module Grid {

  /** Column `i` and row `j` of a grid cell, as the viewer's loops name them. */
  datatype Cell = Cell(i: nat, j: nat)

  predicate InGrid(c: Cell, w: nat, h: nat) {
    c.i < w && c.j < h
  }

  /** The array index the viewer uses for a cell: `i*width + j`. */
  function CellIndex(w: nat, c: Cell): nat {
    c.i * w + c.j
  }

  /** The position of a cell in the visiting order (column-major, `h` rows per column). */
  function Rank(h: nat, c: Cell): nat {
    c.i * h + c.j
  }

  /** Every cell of the grid has its index below `w*h`. */
  ghost predicate IndicesInBounds(w: nat, h: nat) {
    forall c :: InGrid(c, w, h) ==> CellIndex(w, c) < w * h
  }

  /** No two distinct cells of the grid share an index. */
  ghost predicate IndicesDistinct(w: nat, h: nat) {
    forall c, d :: InGrid(c, w, h) && InGrid(d, w, h) && CellIndex(w, c) == CellIndex(w, d) ==> c == d
  }

  /** Every array slot below `w*h` is the index of some cell. */
  ghost predicate IndicesCover(w: nat, h: nat) {
    forall k :: 0 <= k < w * h ==> Covered(w, h, k)
  }

  /** Some cell of the grid has index `k`. */
  ghost predicate Covered(w: nat, h: nat, k: nat) {
    exists c :: InGrid(c, w, h) && CellIndex(w, c) == k
  }

  /** The shapes of image for which the viewer's layout is a bijection. */
  predicate SafeLayout(w: nat, h: nat) {
    w >= 1 && h >= 1 && (w == 1 || w == h)
  }

  // ---------------------------------------------------------------------------
  // Arithmetic helpers

  lemma MulLeq(a: nat, b: nat, w: nat)
    requires a <= b
    ensures a * w <= b * w
  {
  }

  lemma MulStep(a: nat, b: nat, w: nat)
    requires a < b
    ensures a * w + w <= b * w
  {
    MulLeq(a + 1, b, w);
  }

  // ---------------------------------------------------------------------------
  // When the index stays inside the array

  /** For a grid at least two columns wide, `i*w + j` stays below `w*h` exactly when `w <= h`. */
  lemma {:induction false} InBoundsIff(w: nat, h: nat)
    requires w >= 1 && h >= 1
    ensures IndicesInBounds(w, h) <==> (w == 1 || w <= h)
  {
    if w == 1 || w <= h {
      forall c | InGrid(c, w, h)
        ensures CellIndex(w, c) < w * h
      {
        IndexBelow(w, h, c);
      }
    } else {
      var c := Cell(w - 1, h - 1);
      assert InGrid(c, w, h);
      MulLeq(h, w - 1, w);
      assert (w - 1) * w == w * w - w;
      assert CellIndex(w, c) >= w * h;
    }
  }

  /** For a grid at least two columns wide, `i*w + j` is injective exactly when `h <= w`. */
  lemma {:induction false} DistinctIff(w: nat, h: nat)
    requires w >= 1 && h >= 1
    ensures IndicesDistinct(w, h) <==> (w == 1 || h <= w)
  {
    if w == 1 || h <= w {
      forall c, d | InGrid(c, w, h) && InGrid(d, w, h) && CellIndex(w, c) == CellIndex(w, d)
        ensures c == d
      {
        if w == 1 {
          assert c.i == 0 && d.i == 0;
        } else if c.i < d.i {
          MulStep(c.i, d.i, w);
          assert false;
        } else if d.i < c.i {
          MulStep(d.i, c.i, w);
          assert false;
        }
      }
    } else {
      var c, d := Cell(0, w), Cell(1, 0);
      assert InGrid(c, w, h) && InGrid(d, w, h);
      assert CellIndex(w, c) == CellIndex(w, d);
    }
  }

  /** With `2 <= w < h` no cell lands on the last slot `w*h - 1`. */
  lemma {:induction false} LastSlotMissed(w: nat, h: nat, c: Cell)
    requires 2 <= w < h && InGrid(c, w, h)
    ensures CellIndex(w, c) != w * h - 1
  {
    MulLeq(c.i, w - 1, w);
    MulLeq(w, h - 1, w - 1);
    assert (w - 1) * h - (w - 1) * w >= w - 1;
  }

  /**
   * The layout is in bounds and injective exactly for square images or a single
   * column; for those it also covers every slot, so it is a bijection.
   */
  lemma {:induction false} SafeLayoutIff(w: nat, h: nat)
    requires w >= 1 && h >= 1
    ensures IndicesInBounds(w, h) && IndicesDistinct(w, h) <==> SafeLayout(w, h)
    ensures SafeLayout(w, h) ==> IndicesCover(w, h)
  {
    InBoundsIff(w, h);
    DistinctIff(w, h);
    if SafeLayout(w, h) {
      forall k: nat | k < w * h
        ensures Covered(w, h, k)
      {
        if w == 1 {
          assert InGrid(Cell(0, k), w, h) && CellIndex(w, Cell(0, k)) == k;
        } else {
          var c := Cell(k / w, k % w);
          assert k / w < w by {
            if k / w >= w {
              MulLeq(w, k / w, w);
            }
          }
          assert InGrid(c, w, h) && CellIndex(w, c) == k;
        }
      }
    }
  }

  /** When `w == 1 || w <= h` every cell's index addresses the `w*h` array. */
  lemma IndexBelow(w: nat, h: nat, c: Cell)
    requires w >= 1 && (w == 1 || w <= h) && InGrid(c, w, h)
    ensures CellIndex(w, c) < w * h
  {
    if w == 1 {
      assert c.i == 0;
    } else {
      MulLeq(c.i, w - 1, w);
      MulLeq(1, w, h - w);
      assert (w - 1) * w == w * w - w;
      assert w * h == w * w + w * (h - w);
    }
  }

  /** The rank of a cell in the visiting order lies below `w*h`. */
  lemma RankBelow(w: nat, h: nat, c: Cell)
    requires InGrid(c, w, h)
    ensures Rank(h, c) < w * h
  {
    MulLeq(c.i, w - 1, h);
    assert (w - 1) * h + h == w * h;
  }

  /** Under a safe layout a cell's index is its position in the visiting order. */
  lemma SafeIndexIsRank(w: nat, h: nat, c: Cell)
    requires SafeLayout(w, h) && InGrid(c, w, h)
    ensures CellIndex(w, c) == Rank(h, c)
  {
    if w == 1 {
      assert c.i == 0;
    }
  }

  /** The last cell comes last in the visiting order. */
  lemma LastCellRank(w: nat, h: nat)
    requires w >= 1 && h >= 1
    ensures Rank(h, Cell(w - 1, h - 1)) == w * h - 1
  {
    assert (w - 1) * h == w * h - h;
  }

  // ---------------------------------------------------------------------------
  // Visiting order

  /** Column `i` of the grid, rows 0 to h-1. */
  function Column(i: nat, h: nat): (r: seq<Cell>)
    ensures |r| == h
  {
    seq(h, j requires 0 <= j => Cell(i, j))
  }

  /** Every cell of a `w x h` grid, in the order of the viewer's nested loops (column `i` outermost). */
  function Cells(w: nat, h: nat): (r: seq<Cell>)
    ensures |r| == w * h
  {
    if w == 0 then [] else Cells(w - 1, h) + Column(w - 1, h)
  }

  /** Cell (i, j) is visited at position `i*h + j`, and only grid cells are visited. */
  lemma {:induction false} CellsOrder(w: nat, h: nat)
    ensures forall c :: InGrid(c, w, h) ==> Rank(h, c) < |Cells(w, h)| && Cells(w, h)[Rank(h, c)] == c
    ensures forall k :: 0 <= k < |Cells(w, h)| ==> InGrid(Cells(w, h)[k], w, h) && Rank(h, Cells(w, h)[k]) == k
  {
    if w > 0 {
      CellsOrder(w - 1, h);
      var prev := Cells(w - 1, h);
      assert Cells(w, h) == prev + Column(w - 1, h);
      assert |prev| == (w - 1) * h;
      forall c | InGrid(c, w, h)
        ensures Rank(h, c) < |Cells(w, h)| && Cells(w, h)[Rank(h, c)] == c
      {
        RankBelow(w, h, c);
        if c.i < w - 1 {
          assert InGrid(c, w - 1, h);
        } else {
          assert Rank(h, c) == |prev| + c.j;
        }
      }
    }
  }

  /** The 2x2 blocks the line and triangle modes visit: their top-left cells, in loop order. */
  function Blocks(w: nat, h: nat): (r: seq<Cell>)
    ensures |r| == if w == 0 || h == 0 then 0 else (w - 1) * (h - 1)
  {
    if w == 0 || h == 0 then [] else Cells(w - 1, h - 1)
  }
}
