/**
 * Building the terrain mesh from a decoded heightmap image (`loadMap`).
 *
 * The loader allocates `width*height` samples and, for every pixel (i, j) with
 * column `i` outermost, writes the sample for that pixel at index `i*width + j`.
 * It then caches the extents from the first and the last slot. Writing past the
 * end of the array and reading a slot nothing wrote are undefined behaviour in
 * the source; the model reports each of them as a `LoadError` instead.
 */
module Heightmap {
  import opened Results
  import opened Grid

  /** An 8-bit channel value. */
  type Byte = x: int | 0 <= x < 256

  /** A decoded image: `red[i][j]` is the red channel of pixel (i, j), column `i`, row `j`. */
  datatype RawImage = RawImage(width: nat, height: nat, red: seq<seq<Byte>>)

  type Image = img: RawImage
    | |img.red| == img.width && forall i :: 0 <= i < |img.red| ==> |img.red[i]| == img.height
    witness RawImage(0, 0, [])

  /** The image a failed file lookup leaves behind: a null image of size 0 x 0. */
  const NullImage: Image := RawImage(0, 0, [])

  /**
   * One terrain vertex. `x` and `y` are model-space coordinates; `z` is the
   * elevation in thousandths of a unit, so the source's `0.001 * red` is `z / 1000`.
   */
  datatype Sample = Sample(x: real, y: real, z: int)

  /** The source's coordinate formula `i/W - (W/2)/W`, for a position `i` along an axis of `n` cells. */
  function Coordinate(i: nat, n: nat): real
    requires n >= 1
  {
    i as real / n as real - (n as real / 2.0) / n as real
  }

  /** The sample the loader computes for pixel `c`. */
  function CellSample(img: Image, c: Cell): Sample
    requires InGrid(c, img.width, img.height)
  {
    Sample(Coordinate(c.i, img.width), Coordinate(c.j, img.height), img.red[c.i][c.j])
  }

  /** The coordinate runs from -1/2 and grows by `1/n` per cell. */
  lemma CoordinateFormula(i: nat, n: nat)
    requires n >= 1
    ensures Coordinate(i, n) == i as real / n as real - 0.5
  {
  }

  /** Coordinates strictly increase along an axis. */
  lemma CoordinateMonotonic(i: nat, k: nat, n: nat)
    requires n >= 1 && i < k
    ensures Coordinate(i, n) < Coordinate(k, n)
  {
    CoordinateFormula(i, n);
    CoordinateFormula(k, n);
    assert i as real / n as real < k as real / n as real by {
      assert (k as real - i as real) / n as real > 0.0;
    }
  }

  /** The array slots while the loader fills them; `None` is a slot nothing has written. */
  type Slots = seq<Option<Sample>>

  function Unwritten(n: nat): (r: Slots)
    ensures |r| == n && forall k :: 0 <= k < n ==> r[k] == None
  {
    seq(n, k => None)
  }

  /** The layouts for which no write of the loader leaves the array (`w == 1 || w <= h`). */
  predicate WritesInBounds(w: nat, h: nat) {
    w >= 1 && h >= 1 && (w == 1 || w <= h)
  }

  /** The inner loop of the loader: writes rows `j` to `h-1` of column `i`. */
  function FillColumn(img: Image, p: Slots, i: nat, j: nat): (r: Slots)
    requires WritesInBounds(img.width, img.height)
    requires i < img.width && j <= img.height && |p| == img.width * img.height
    ensures |r| == |p|
    decreases img.height - j
  {
    if j == img.height then p
    else
      var c := Cell(i, j);
      IndexBelow(img.width, img.height, c);
      FillColumn(img, p[CellIndex(img.width, c) := Some(CellSample(img, c))], i, j + 1)
  }

  /** The outer loop of the loader: fills columns `i` to `w-1`. */
  function FillColumns(img: Image, p: Slots, i: nat): (r: Slots)
    requires WritesInBounds(img.width, img.height)
    requires i <= img.width && |p| == img.width * img.height
    ensures |r| == |p|
    decreases img.width - i
  {
    if i == img.width then p
    else FillColumns(img, FillColumn(img, p, i, 0), i + 1)
  }

  /** A slot that no remaining write of the column targets keeps its content. */
  lemma {:induction false} FillColumnKeeps(img: Image, p: Slots, i: nat, j: nat, k: nat)
    requires WritesInBounds(img.width, img.height)
    requires i < img.width && j <= img.height && |p| == img.width * img.height && k < |p|
    requires forall j' :: j <= j' < img.height ==> CellIndex(img.width, Cell(i, j')) != k
    ensures FillColumn(img, p, i, j)[k] == p[k]
    decreases img.height - j
  {
    if j < img.height {
      var c := Cell(i, j);
      IndexBelow(img.width, img.height, c);
      FillColumnKeeps(img, p[CellIndex(img.width, c) := Some(CellSample(img, c))], i, j + 1, k);
    }
  }

  /** After the inner loop every remaining row of the column holds its own sample. */
  lemma {:induction false} FillColumnWrites(img: Image, p: Slots, i: nat, j: nat)
    requires WritesInBounds(img.width, img.height) && IndicesInBounds(img.width, img.height)
    requires i < img.width && j <= img.height && |p| == img.width * img.height
    ensures forall j' :: j <= j' < img.height ==>
      FillColumn(img, p, i, j)[CellIndex(img.width, Cell(i, j'))] == Some(CellSample(img, Cell(i, j')))
    decreases img.height - j
  {
    if j < img.height {
      var w := img.width;
      var c := Cell(i, j);
      IndexBelow(w, img.height, c);
      var k := CellIndex(w, c);
      var p' := p[k := Some(CellSample(img, c))];
      assert FillColumn(img, p, i, j) == FillColumn(img, p', i, j + 1);
      FillColumnWrites(img, p', i, j + 1);
      assert forall j' :: j + 1 <= j' < img.height ==> CellIndex(w, Cell(i, j')) != k;
      FillColumnKeeps(img, p', i, j + 1, k);
      var r := FillColumn(img, p, i, j);
      forall j' | j <= j' < img.height
        ensures r[CellIndex(w, Cell(i, j'))] == Some(CellSample(img, Cell(i, j')))
      {
        if j' == j {
          assert r[k] == p'[k];
        }
      }
    }
  }

  /** A slot that no write of the remaining columns targets keeps its content. */
  lemma {:induction false} FillColumnsKeeps(img: Image, p: Slots, i: nat, k: nat)
    requires WritesInBounds(img.width, img.height)
    requires i <= img.width && |p| == img.width * img.height && k < |p|
    requires forall c :: InGrid(c, img.width, img.height) && c.i >= i ==> CellIndex(img.width, c) != k
    ensures FillColumns(img, p, i)[k] == p[k]
    decreases img.width - i
  {
    if i < img.width {
      forall j' | 0 <= j' < img.height
        ensures CellIndex(img.width, Cell(i, j')) != k
      {
        assert InGrid(Cell(i, j'), img.width, img.height);
      }
      FillColumnKeeps(img, p, i, 0, k);
      FillColumnsKeeps(img, FillColumn(img, p, i, 0), i + 1, k);
    }
  }

  /** When cells never share an index, every cell of the remaining columns ends up holding its sample. */
  lemma {:induction false} FillColumnsWrites(img: Image, p: Slots, i: nat)
    requires WritesInBounds(img.width, img.height) && IndicesInBounds(img.width, img.height)
    requires IndicesDistinct(img.width, img.height)
    requires i <= img.width && |p| == img.width * img.height
    ensures forall c :: InGrid(c, img.width, img.height) && c.i >= i ==>
      FillColumns(img, p, i)[CellIndex(img.width, c)] == Some(CellSample(img, c))
    decreases img.width - i
  {
    if i < img.width {
      var w, h := img.width, img.height;
      var p' := FillColumn(img, p, i, 0);
      FillColumnWrites(img, p, i, 0);
      FillColumnsWrites(img, p', i + 1);
      forall c | InGrid(c, w, h) && c.i == i
        ensures FillColumns(img, p, i)[CellIndex(w, c)] == Some(CellSample(img, c))
      {
        IndexBelow(w, h, c);
        FillColumnsKeeps(img, p', i + 1, CellIndex(w, c));
      }
    }
  }

  /** The slots after the loader's nested loops, for a layout whose writes stay in bounds. */
  function Filled(img: Image): (r: Slots)
    requires WritesInBounds(img.width, img.height)
    ensures |r| == img.width * img.height
  {
    FillColumns(img, Unwritten(img.width * img.height), 0)
  }

  /** For a safe layout the loops write every cell's sample at its index. */
  lemma {:induction false} FilledSafe(img: Image)
    requires SafeLayout(img.width, img.height)
    ensures IndicesInBounds(img.width, img.height)
    ensures forall c :: InGrid(c, img.width, img.height) ==>
      Filled(img)[CellIndex(img.width, c)] == Some(CellSample(img, c))
  {
    SafeLayoutIff(img.width, img.height);
    FillColumnsWrites(img, Unwritten(img.width * img.height), 0);
  }

  /** With `2 <= w < h` the last slot is never written. */
  lemma {:induction false} FilledMissesLast(img: Image)
    requires WritesInBounds(img.width, img.height) && !SafeLayout(img.width, img.height)
    ensures Filled(img)[img.width * img.height - 1] == None
  {
    var w, h := img.width, img.height;
    forall c | InGrid(c, w, h) && c.i >= 0
      ensures CellIndex(w, c) != w * h - 1
    {
      LastSlotMissed(w, h, c);
    }
    FillColumnsKeeps(img, Unwritten(w * h), 0, w * h - 1);
  }

  /** What the loader can run into instead of producing a mesh. */
  datatype LoadError =
    | EmptyImage        // a 0-sized image: slot 0 and slot -1 of an empty array are read
    | WriteOutOfBounds  // some pixel's index `i*W + j` lies past the end of the array
    | UnwrittenRead     // the last slot, read for the extents, was never written

  /** A loaded terrain: the samples at their layout indices plus the cached extents. */
  datatype RawMesh = RawMesh(width: nat, height: nat, p: seq<Sample>,
                             minX: real, minY: real, maxX: real, maxY: real)

  type Mesh = m: RawMesh
    | SafeLayout(m.width, m.height) && |m.p| == m.width * m.height &&
      forall k :: 0 <= k < |m.p| ==> 0 <= m.p[k].z < 256
    witness RawMesh(1, 1, [Sample(0.0, 0.0, 0)], 0.0, 0.0, 0.0, 0.0)

  /**
   * The samples of a safe layout in slot order. For these layouts a pixel's index
   * `i*W + j` equals its position in the loops' visiting order, so slot `k` holds
   * the `k`-th pixel visited.
   */
  function Samples(img: Image): (p: seq<Sample>)
    requires SafeLayout(img.width, img.height)
    ensures |p| == img.width * img.height
    ensures forall k :: 0 <= k < |p| ==> 0 <= p[k].z < 256
  {
    var cells := Cells(img.width, img.height);
    CellsOrder(img.width, img.height);
    seq(|cells|, k requires 0 <= k < |cells| => CellSample(img, cells[k]))
  }

  /** Every pixel's sample sits at the pixel's layout index, and every slot holds some pixel's sample. */
  lemma {:induction false} SamplesAtIndex(img: Image)
    requires SafeLayout(img.width, img.height)
    ensures IndicesInBounds(img.width, img.height)
    ensures forall c :: InGrid(c, img.width, img.height) ==>
      Samples(img)[CellIndex(img.width, c)] == CellSample(img, c)
    ensures forall k :: 0 <= k < |Samples(img)| ==>
      InGrid(Cells(img.width, img.height)[k], img.width, img.height) &&
      CellIndex(img.width, Cells(img.width, img.height)[k]) == k &&
      Samples(img)[k] == CellSample(img, Cells(img.width, img.height)[k])
  {
    var w, h := img.width, img.height;
    SafeLayoutIff(w, h);
    CellsOrder(w, h);
    forall c | InGrid(c, w, h)
      ensures Samples(img)[CellIndex(w, c)] == CellSample(img, c)
    {
      SafeIndexIsRank(w, h, c);
    }
    forall k | 0 <= k < |Samples(img)|
      ensures CellIndex(w, Cells(w, h)[k]) == k
    {
      SafeIndexIsRank(w, h, Cells(w, h)[k]);
    }
  }

  /** The first slot holds pixel (0, 0) and the last slot pixel (w-1, h-1). */
  lemma SamplesCorners(img: Image)
    requires SafeLayout(img.width, img.height)
    ensures Samples(img)[0] == CellSample(img, Cell(0, 0))
    ensures Samples(img)[img.width * img.height - 1] == CellSample(img, Cell(img.width - 1, img.height - 1))
  {
    var w, h := img.width, img.height;
    CellsOrder(w, h);
    assert InGrid(Cell(0, 0), w, h) && Rank(h, Cell(0, 0)) == 0;
    assert InGrid(Cell(w - 1, h - 1), w, h);
    LastCellRank(w, h);
  }

  /** The mesh of a safe layout, extents read from the first and the last slot. */
  function BuildMesh(img: Image): (m: Mesh)
    requires SafeLayout(img.width, img.height)
    ensures m.width == img.width && m.height == img.height && m.p == Samples(img)
    ensures m.minX == CellSample(img, Cell(0, 0)).x && m.minY == CellSample(img, Cell(0, 0)).y
    ensures m.maxX == CellSample(img, Cell(img.width - 1, img.height - 1)).x
    ensures m.maxY == CellSample(img, Cell(img.width - 1, img.height - 1)).y
  {
    var p := Samples(img);
    var last := img.width * img.height - 1;
    SamplesCorners(img);
    RawMesh(img.width, img.height, p, p[0].x, p[0].y, p[last].x, p[last].y)
  }

  /** `loadMap`: a mesh for square images and single columns, the source's undefined behaviour otherwise. */
  function LoadMap(img: Image): (r: Result<Mesh, LoadError>)
    ensures r.Success? <==> SafeLayout(img.width, img.height)
    ensures r.Success? ==> r.value == BuildMesh(img)
    ensures r == Failure(EmptyImage) <==> img.width == 0 || img.height == 0
    ensures r == Failure(WriteOutOfBounds) <==> img.height >= 1 && 2 <= img.width && img.height < img.width
    ensures r == Failure(UnwrittenRead) <==> 2 <= img.width && img.width < img.height
  {
    var w, h := img.width, img.height;
    if w == 0 || h == 0 then Failure(EmptyImage)
    else if !WritesInBounds(w, h) then Failure(WriteOutOfBounds)
    else if !SafeLayout(w, h) then Failure(UnwrittenRead)
    else Success(BuildMesh(img))
  }

  /** For a safe layout the nested loops leave every slot holding the closed-form sample. */
  lemma {:induction false} LoopsWriteSamples(img: Image)
    requires SafeLayout(img.width, img.height)
    ensures forall k :: 0 <= k < |Samples(img)| ==> Filled(img)[k] == Some(Samples(img)[k])
  {
    forall k | 0 <= k < |Samples(img)|
      ensures Filled(img)[k] == Some(Samples(img)[k])
    {
      LoopsWriteSample(img, k);
    }
  }

  /** One slot of `LoopsWriteSamples`: slot `k` holds the sample of the `k`-th visited cell. */
  lemma LoopsWriteSample(img: Image, k: nat)
    requires SafeLayout(img.width, img.height) && k < img.width * img.height
    ensures |Samples(img)| == |Filled(img)| && Filled(img)[k] == Some(Samples(img)[k])
  {
    var w, h := img.width, img.height;
    SamplesAtIndex(img);
    var c := Cells(w, h)[k];
    assert InGrid(c, w, h) && CellIndex(w, c) == k && Samples(img)[k] == CellSample(img, c);
    FilledSafe(img);
  }

  /**
   * `LoadMap` is what the source's nested loops compute: a mesh exactly when the
   * writes stay in bounds and the last slot, read for the extents, got written;
   * and then every slot holds what the loops wrote there.
   */
  lemma {:induction false} LoadMapFollowsLoops(img: Image)
    ensures LoadMap(img).Success? <==>
      img.width >= 1 && img.height >= 1 && WritesInBounds(img.width, img.height) &&
      Filled(img)[img.width * img.height - 1].Some?
    ensures LoadMap(img).Success? ==>
      forall k :: 0 <= k < |LoadMap(img).value.p| ==> Filled(img)[k] == Some(LoadMap(img).value.p[k])
  {
    var w, h := img.width, img.height;
    if SafeLayout(w, h) {
      LoopsWriteSamples(img);
      assert LoadMap(img).value.p == Samples(img);
      assert w * h - 1 < |Samples(img)|;
    } else if w >= 1 && h >= 1 && WritesInBounds(w, h) {
      FilledMissesLast(img);
    }
  }

  /** A coordinate lies between those of the first and the last cell of its axis. */
  lemma CoordinateRange(i: nat, n: nat)
    requires i < n
    ensures Coordinate(0, n) <= Coordinate(i, n) <= Coordinate(n - 1, n)
  {
    if 0 < i { CoordinateMonotonic(0, i, n); }
    if i < n - 1 { CoordinateMonotonic(i, n - 1, n); }
  }

  /**
   * For a loaded mesh the cached extents are a true bounding box of every sample,
   * and samples further along an axis have larger coordinates.
   */
  lemma {:induction false} ExtentsBound(img: Image)
    requires LoadMap(img).Success?
    ensures var m := LoadMap(img).value;
      forall k :: 0 <= k < |m.p| ==> m.minX <= m.p[k].x <= m.maxX && m.minY <= m.p[k].y <= m.maxY
    ensures forall c, d :: InGrid(c, img.width, img.height) && InGrid(d, img.width, img.height) ==>
      (c.i < d.i ==> CellSample(img, c).x < CellSample(img, d).x) &&
      (c.j < d.j ==> CellSample(img, c).y < CellSample(img, d).y)
  {
    var m := LoadMap(img).value;
    var w, h := m.width, m.height;
    SamplesAtIndex(img);
    forall k | 0 <= k < |m.p|
      ensures m.minX <= m.p[k].x <= m.maxX && m.minY <= m.p[k].y <= m.maxY
    {
      var c := Cells(w, h)[k];
      assert m.p[k] == CellSample(img, c);
      CoordinateRange(c.i, w);
      CoordinateRange(c.j, h);
    }
    forall c, d | InGrid(c, w, h) && InGrid(d, w, h)
      ensures (c.i < d.i ==> CellSample(img, c).x < CellSample(img, d).x) &&
              (c.j < d.j ==> CellSample(img, c).y < CellSample(img, d).y)
    {
      if c.i < d.i { CoordinateMonotonic(c.i, d.i, w); }
      if c.j < d.j { CoordinateMonotonic(c.j, d.j, h); }
    }
  }
}
