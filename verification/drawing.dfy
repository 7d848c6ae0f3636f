/**
 * The five terrain drawing routines (`displayPoints`, `displayLines`,
 * `displayTriangles`, `displayTrianglesC`, `displayTrianglesTexture`) and the
 * `render` dispatch over them, as the vertex streams they send to OpenGL.
 *
 * Each routine walks cells or 2x2 blocks in the loader's order and, per block,
 * emits a fixed pattern of corners. A vertex is the mesh sample at the corner's
 * index `i*width + j` together with the current colour at that moment.
 */
module Drawing {
  import opened Grid
  import opened Heightmap
  import opened Colours

  /** The OpenGL primitive a pass is drawn with. */
  datatype Primitive = Points | Lines | Triangles

  /** A corner emitted by a routine: the cell it reads and its position within the block's pattern. */
  datatype Corner = Corner(cell: Cell, slot: nat)

  /** One `glVertex` call: the sample drawn and the colour in force. */
  datatype Vertex = Vertex(at: Sample, colour: Colour)

  /** One `glBegin`/`glEnd` pair. */
  datatype Pass = Pass(primitive: Primitive, vertices: seq<Vertex>)

  /** What a routine drew, and the current colour it leaves behind. */
  datatype Painted = Painted(passes: seq<Pass>, colour: Colour)

  /** `displayPoints` emits each cell once. */
  const PointPattern: seq<Cell> := [Cell(0, 0)]

  /** Two triangles per block: (i,j) (i,j+1) (i+1,j), then (i,j+1) (i+1,j+1) (i+1,j). */
  const TrianglePattern: seq<Cell> :=
    [Cell(0, 0), Cell(0, 1), Cell(1, 0), Cell(0, 1), Cell(1, 1), Cell(1, 0)]

  /** Five segments per block: the four edges and the (i,j+1)-(i+1,j) diagonal. */
  const LinePattern: seq<Cell> :=
    [Cell(0, 0), Cell(0, 1), Cell(1, 0), Cell(0, 0), Cell(1, 0), Cell(0, 1),
     Cell(0, 1), Cell(1, 1), Cell(1, 1), Cell(1, 0)]

  function Offset(b: Cell, o: Cell): Cell {
    Cell(b.i + o.i, b.j + o.j)
  }

  /** The corners one block contributes. */
  function Shape(b: Cell, pattern: seq<Cell>): (r: seq<Corner>)
    ensures |r| == |pattern|
  {
    seq(|pattern|, t requires 0 <= t < |pattern| => Corner(Offset(b, pattern[t]), t))
  }

  /** The corners of a sequence of blocks, block after block, as the nested loops emit them. */
  function Expand(blocks: seq<Cell>, pattern: seq<Cell>): (r: seq<Corner>)
    ensures |r| == |blocks| * |pattern|
  {
    if blocks == [] then []
    else
      var n := |blocks|;
      assert (n - 1) * |pattern| + |pattern| == n * |pattern|;
      Expand(blocks[..n - 1], pattern) + Shape(blocks[n - 1], pattern)
  }

  /** Corner `t` of block `k` is emitted at position `k*|pattern| + t`. */
  lemma {:induction false} ExpandAt(blocks: seq<Cell>, pattern: seq<Cell>, k: nat, t: nat)
    requires k < |blocks| && t < |pattern|
    ensures k * |pattern| + t < |Expand(blocks, pattern)|
    ensures Expand(blocks, pattern)[k * |pattern| + t] == Corner(Offset(blocks[k], pattern[t]), t)
  {
    var n, p := |blocks|, |pattern|;
    var prefix := blocks[..n - 1];
    assert Expand(blocks, pattern) == Expand(prefix, pattern) + Shape(blocks[n - 1], pattern);
    if k == n - 1 {
      assert |Expand(prefix, pattern)| == k * p;
    } else {
      MulStep(k, n - 1, p);
      ExpandAt(prefix, pattern, k, t);
      assert prefix[k] == blocks[k];
    }
  }

  /** Every emitted corner lies in the grid when every block's pattern does, and its slot is a pattern position. */
  lemma {:induction false} ExpandInGrid(blocks: seq<Cell>, pattern: seq<Cell>, w: nat, h: nat)
    requires forall k, t :: 0 <= k < |blocks| && 0 <= t < |pattern| ==> InGrid(Offset(blocks[k], pattern[t]), w, h)
    ensures forall x :: 0 <= x < |Expand(blocks, pattern)| ==>
      InGrid(Expand(blocks, pattern)[x].cell, w, h) && Expand(blocks, pattern)[x].slot < |pattern|
  {
    if blocks != [] {
      var n := |blocks|;
      var prefix := blocks[..n - 1];
      assert forall k :: 0 <= k < |prefix| ==> prefix[k] == blocks[k];
      ExpandInGrid(prefix, pattern, w, h);
      var e := Expand(blocks, pattern);
      assert e == Expand(prefix, pattern) + Shape(blocks[n - 1], pattern);
      forall x | 0 <= x < |e|
        ensures InGrid(e[x].cell, w, h) && e[x].slot < |pattern|
      {
        if x >= |Expand(prefix, pattern)| {
          var t := x - |Expand(prefix, pattern)|;
          assert e[x] == Corner(Offset(blocks[n - 1], pattern[t]), t);
        }
      }
    }
  }

  /** The corners `displayPoints` reads: every cell of the grid. */
  function PointCorners(w: nat, h: nat): seq<Corner> {
    Expand(Cells(w, h), PointPattern)
  }

  /** The corners a block routine reads. */
  function BlockCorners(w: nat, h: nat, pattern: seq<Cell>): seq<Corner> {
    Expand(Blocks(w, h), pattern)
  }

  /** Every corner the point routine reads is a grid cell. */
  lemma PointCornersInGrid(w: nat, h: nat)
    ensures forall x :: 0 <= x < |PointCorners(w, h)| ==> InGrid(PointCorners(w, h)[x].cell, w, h)
  {
    CellsOrder(w, h);
    ExpandInGrid(Cells(w, h), PointPattern, w, h);
  }

  /** Every corner a block routine reads is a grid cell, for patterns within the unit square. */
  lemma BlockCornersInGrid(w: nat, h: nat, pattern: seq<Cell>)
    requires forall t :: 0 <= t < |pattern| ==> pattern[t].i <= 1 && pattern[t].j <= 1
    ensures forall x :: 0 <= x < |BlockCorners(w, h, pattern)| ==>
      InGrid(BlockCorners(w, h, pattern)[x].cell, w, h) && BlockCorners(w, h, pattern)[x].slot < |pattern|
  {
    if w >= 1 && h >= 1 {
      CellsOrder(w - 1, h - 1);
    }
    ExpandInGrid(Blocks(w, h), pattern, w, h);
  }

  /** How a routine colours its vertices. */
  datatype Tint = Flat(c: Colour) | TwoTone | ByAltitude

  /**
   * The colour of a vertex: one colour for the whole pass, green for the first
   * triangle of a block and white for the second, or the altitude palette.
   */
  function TintOf(tint: Tint, slot: nat, s: Sample): Colour {
    match tint
    case Flat(c) => c
    case TwoTone => if slot < 3 then Green else White
    case ByAltitude => AltitudeColour(s.z)
  }

  /** The vertices for a list of corners: each reads the mesh at the corner's index. */
  function Paint(m: Mesh, corners: seq<Corner>, tint: Tint): (vs: seq<Vertex>)
    requires forall x :: 0 <= x < |corners| ==> InGrid(corners[x].cell, m.width, m.height)
    ensures |vs| == |corners|
  {
    seq(|corners|, x requires 0 <= x < |corners| =>
      IndexBelow(m.width, m.height, corners[x].cell);
      var s := m.p[CellIndex(m.width, corners[x].cell)];
      Vertex(s, TintOf(tint, corners[x].slot, s)))
  }

  /** The current colour after a pass that began with `start`. */
  function LastColour(start: Colour, vs: seq<Vertex>): Colour {
    if vs == [] then start else vs[|vs| - 1].colour
  }

  function Stroke(m: Mesh, primitive: Primitive, corners: seq<Corner>, tint: Tint, start: Colour): Painted
    requires forall x :: 0 <= x < |corners| ==> InGrid(corners[x].cell, m.width, m.height)
  {
    var vs := Paint(m, corners, tint);
    Painted([Pass(primitive, vs)], LastColour(start, vs))
  }

  /** `displayPoints`: white, then the season tint, then every sample as a point. */
  function DisplayPoints(m: Mesh, season: string): (r: Painted)
    ensures |r.passes| == 1 && r.passes[0].primitive == Points
    ensures |r.passes[0].vertices| == m.width * m.height
  {
    var c := SeasonColor(season, White);
    PointCornersInGrid(m.width, m.height);
    Stroke(m, Points, PointCorners(m.width, m.height), Flat(c), c)
  }

  /** `displayLines`: the season tint over the current colour, then five segments per block. */
  function DisplayLines(m: Mesh, season: string, cur: Colour): (r: Painted)
    ensures |r.passes| == 1 && r.passes[0].primitive == Lines
    ensures |r.passes[0].vertices| == 10 * ((m.width - 1) * (m.height - 1))
  {
    var c := SeasonColor(season, cur);
    BlockCornersInGrid(m.width, m.height, LinePattern);
    Stroke(m, Lines, BlockCorners(m.width, m.height, LinePattern), Flat(c), c)
  }

  /** `displayTriangles`: the season tint over the current colour, then two triangles per block. */
  function DisplayTriangles(m: Mesh, season: string, cur: Colour): (r: Painted)
    ensures |r.passes| == 1 && r.passes[0].primitive == Triangles
    ensures |r.passes[0].vertices| == 6 * ((m.width - 1) * (m.height - 1))
  {
    var c := SeasonColor(season, cur);
    BlockCornersInGrid(m.width, m.height, TrianglePattern);
    Stroke(m, Triangles, BlockCorners(m.width, m.height, TrianglePattern), Flat(c), c)
  }

  /** `displayTrianglesC`: white, then per block a green triangle and a white one. */
  function DisplayTrianglesC(m: Mesh): (r: Painted)
    ensures |r.passes| == 1 && r.passes[0].primitive == Triangles
    ensures |r.passes[0].vertices| == 6 * ((m.width - 1) * (m.height - 1))
  {
    BlockCornersInGrid(m.width, m.height, TrianglePattern);
    Stroke(m, Triangles, BlockCorners(m.width, m.height, TrianglePattern), TwoTone, White)
  }

  /** `displayTrianglesTexture`: white, then each vertex in the colour of its altitude. */
  function DisplayTrianglesTexture(m: Mesh): (r: Painted)
    ensures |r.passes| == 1 && r.passes[0].primitive == Triangles
    ensures |r.passes[0].vertices| == 6 * ((m.width - 1) * (m.height - 1))
  {
    BlockCornersInGrid(m.width, m.height, TrianglePattern);
    Stroke(m, Triangles, BlockCorners(m.width, m.height, TrianglePattern), ByAltitude, White)
  }

  /**
   * The `render` switch on the display mode `etat`: 0 points, 1 lines,
   * 2 triangles, 3 two-tone triangles, 4 textured triangles, 5 textured
   * triangles then lines over them; any other value draws points.
   */
  function Terrain(m: Mesh, etat: int, season: string, cur: Colour): (r: Painted)
    ensures |r.passes| == if etat == 5 then 2 else 1
    ensures r.passes[0].primitive == if etat == 1 then Lines else if 2 <= etat <= 5 then Triangles else Points
  {
    if etat == 1 then DisplayLines(m, season, cur)
    else if etat == 2 then DisplayTriangles(m, season, cur)
    else if etat == 3 then DisplayTrianglesC(m)
    else if etat == 4 then DisplayTrianglesTexture(m)
    else if etat == 5 then
      var tex := DisplayTrianglesTexture(m);
      var wire := DisplayLines(m, season, tex.colour);
      Painted(tex.passes + wire.passes, wire.colour)
    else DisplayPoints(m, season)
  }

  // ---------------------------------------------------------------------------
  // Properties of the routines

  /**
   * The point mode draws the whole mesh in storage order: the k-th point is
   * sample `k`, in the season tint over white, and that tint stays current.
   */
  lemma PointsInStorageOrder(m: Mesh, season: string)
    ensures var r := DisplayPoints(m, season);
      |r.passes| == 1 && r.passes[0].primitive == Points &&
      |r.passes[0].vertices| == |m.p| &&
      (forall k :: 0 <= k < |m.p| ==> r.passes[0].vertices[k] == Vertex(m.p[k], SeasonColor(season, White))) &&
      r.colour == SeasonColor(season, White)
  {
    var w, h := m.width, m.height;
    var vs := DisplayPoints(m, season).passes[0].vertices;
    CellsOrder(w, h);
    forall k | 0 <= k < |m.p|
      ensures vs[k] == Vertex(m.p[k], SeasonColor(season, White))
    {
      ExpandAt(Cells(w, h), PointPattern, k, 0);
      var c := Cells(w, h)[k];
      assert PointCorners(w, h)[k] == Corner(c, 0);
      SafeIndexIsRank(w, h, c);
    }
  }

  /** The vertex a block routine emits for corner `t` of block `k`. */
  lemma BlockVertexAt(m: Mesh, pattern: seq<Cell>, tint: Tint, k: nat, t: nat)
    requires forall t' :: 0 <= t' < |pattern| ==> pattern[t'].i <= 1 && pattern[t'].j <= 1
    requires k < |Blocks(m.width, m.height)| && t < |pattern|
    ensures InGrid(Offset(Blocks(m.width, m.height)[k], pattern[t]), m.width, m.height)
    ensures (BlockCornersInGrid(m.width, m.height, pattern);
      var c := Offset(Blocks(m.width, m.height)[k], pattern[t]);
      IndexBelow(m.width, m.height, c);
      var vs := Paint(m, BlockCorners(m.width, m.height, pattern), tint);
      k * |pattern| + t < |vs| &&
      vs[k * |pattern| + t] == Vertex(m.p[CellIndex(m.width, c)], TintOf(tint, t, m.p[CellIndex(m.width, c)])))
  {
    var w, h := m.width, m.height;
    CellsOrder(w - 1, h - 1);
    assert InGrid(Blocks(w, h)[k], w - 1, h - 1);
    BlockCornersInGrid(w, h, pattern);
    ExpandAt(Blocks(w, h), pattern, k, t);
  }

  /**
   * The three triangle modes draw the same geometry, corner `t` of block `k`
   * at position `6k + t`; they differ only in colour: the season tint, green
   * then white, or the altitude palette.
   */
  lemma TriangleModesAgree(m: Mesh, season: string, cur: Colour, k: nat, t: nat)
    requires k < |Blocks(m.width, m.height)| && t < 6
    ensures InGrid(Offset(Blocks(m.width, m.height)[k], TrianglePattern[t]), m.width, m.height)
    ensures (IndexBelow(m.width, m.height, Offset(Blocks(m.width, m.height)[k], TrianglePattern[t]));
      var s := m.p[CellIndex(m.width, Offset(Blocks(m.width, m.height)[k], TrianglePattern[t]))];
      var plain := DisplayTriangles(m, season, cur).passes[0].vertices;
      var two := DisplayTrianglesC(m).passes[0].vertices;
      var tex := DisplayTrianglesTexture(m).passes[0].vertices;
      6 * k + t < |plain| == |two| == |tex| &&
      plain[6 * k + t] == Vertex(s, SeasonColor(season, cur)) &&
      two[6 * k + t] == Vertex(s, if t < 3 then Green else White) &&
      tex[6 * k + t] == Vertex(s, AltitudeColour(s.z)))
  {
    var w, h := m.width, m.height;
    BlockCornersInGrid(w, h, TrianglePattern);
    var corners := BlockCorners(w, h, TrianglePattern);
    assert DisplayTriangles(m, season, cur).passes[0].vertices == Paint(m, corners, Flat(SeasonColor(season, cur)));
    assert DisplayTrianglesC(m).passes[0].vertices == Paint(m, corners, TwoTone);
    assert DisplayTrianglesTexture(m).passes[0].vertices == Paint(m, corners, ByAltitude);
    TriangleVertexAt(m, Flat(SeasonColor(season, cur)), k, t);
    TriangleVertexAt(m, TwoTone, k, t);
    TriangleVertexAt(m, ByAltitude, k, t);
  }

  /** `BlockVertexAt` for the triangle pattern, whose six corners make position `6k + t`. */
  lemma TriangleVertexAt(m: Mesh, tint: Tint, k: nat, t: nat)
    requires k < |Blocks(m.width, m.height)| && t < 6
    ensures InGrid(Offset(Blocks(m.width, m.height)[k], TrianglePattern[t]), m.width, m.height)
    ensures (BlockCornersInGrid(m.width, m.height, TrianglePattern);
      var c := Offset(Blocks(m.width, m.height)[k], TrianglePattern[t]);
      IndexBelow(m.width, m.height, c);
      var vs := Paint(m, BlockCorners(m.width, m.height, TrianglePattern), tint);
      6 * k + t < |vs| && vs[6 * k + t] == Vertex(m.p[CellIndex(m.width, c)], TintOf(tint, t, m.p[CellIndex(m.width, c)])))
  {
    assert |TrianglePattern| == 6;
    BlockVertexAt(m, TrianglePattern, tint, k, t);
  }

  /** The line mode draws corner `t` of block `k` at position `10k + t`, all in the season tint. */
  lemma LinesAt(m: Mesh, season: string, cur: Colour, k: nat, t: nat)
    requires k < |Blocks(m.width, m.height)| && t < 10
    ensures InGrid(Offset(Blocks(m.width, m.height)[k], LinePattern[t]), m.width, m.height)
    ensures (IndexBelow(m.width, m.height, Offset(Blocks(m.width, m.height)[k], LinePattern[t]));
      var s := m.p[CellIndex(m.width, Offset(Blocks(m.width, m.height)[k], LinePattern[t]))];
      var vs := DisplayLines(m, season, cur).passes[0].vertices;
      10 * k + t < |vs| && vs[10 * k + t] == Vertex(s, SeasonColor(season, cur)))
  {
    assert |LinePattern| == 10;
    BlockCornersInGrid(m.width, m.height, LinePattern);
    assert DisplayLines(m, season, cur).passes[0].vertices ==
      Paint(m, BlockCorners(m.width, m.height, LinePattern), Flat(SeasonColor(season, cur)));
    BlockVertexAt(m, LinePattern, Flat(SeasonColor(season, cur)), k, t);
  }

  /** The ten line vertices of a block form five segments: the four unit edges and one diagonal, none twice. */
  lemma LineSegmentsOfBlock()
    ensures |LinePattern| == 2 * 5
    ensures forall s :: 0 <= s < 5 ==>
      var a, b := LinePattern[2 * s], LinePattern[2 * s + 1];
      a != b && ((a.i == b.i || a.j == b.j) || {a, b} == {Cell(0, 1), Cell(1, 0)})
    ensures forall s, u :: 0 <= s < u < 5 ==>
      {LinePattern[2 * s], LinePattern[2 * s + 1]} != {LinePattern[2 * u], LinePattern[2 * u + 1]}
  {
  }

  /** The two-tone mode always leaves white current, since every block ends with its white triangle. */
  lemma {:induction false} TwoToneEndsWhite(m: Mesh)
    ensures DisplayTrianglesC(m).colour == White
  {
    var vs := DisplayTrianglesC(m).passes[0].vertices;
    var blocks := Blocks(m.width, m.height);
    if vs != [] {
      var n := |blocks|;
      BlockVertexAt(m, TrianglePattern, TwoTone, n - 1, 5);
      assert 6 * (n - 1) + 5 == |vs| - 1;
    }
  }

  /**
   * The textured mode leaves current the altitude colour of its last vertex,
   * cell (w-1, h-2), or white when the mesh has no block.
   */
  lemma TextureLastColour(m: Mesh)
    ensures var w, h := m.width, m.height;
      DisplayTrianglesTexture(m).colour ==
        if w >= 2 && h >= 2 then AltitudeColour(m.p[CellIndex(w, Cell(w - 1, h - 2))].z) else White
  {
    var w, h := m.width, m.height;
    var blocks := Blocks(w, h);
    if w >= 2 && h >= 2 {
      var n := |blocks|;
      assert n == (w - 1) * (h - 1);
      CellsOrder(w - 1, h - 1);
      LastCellRank(w - 1, h - 1);
      assert blocks[n - 1] == Cell(w - 2, h - 2);
      BlockVertexAt(m, TrianglePattern, ByAltitude, n - 1, 5);
    }
  }

  /** A single-column or single-row mesh has no block, so every block mode draws nothing. */
  lemma ThinMeshNoBlocks(m: Mesh, season: string, cur: Colour)
    requires m.width == 1 || m.height == 1
    ensures DisplayLines(m, season, cur).passes[0].vertices == []
    ensures DisplayTriangles(m, season, cur).passes[0].vertices == []
    ensures DisplayTrianglesC(m).passes[0].vertices == []
    ensures DisplayTrianglesTexture(m).passes[0].vertices == []
  {
  }

  /** The number of vertices each mode sends: one per cell, ten or six per block, sixteen for mode 5. */
  lemma TerrainVertexCounts(m: Mesh, etat: int, season: string, cur: Colour)
    ensures var r := Terrain(m, etat, season, cur);
      var blocks := (m.width - 1) * (m.height - 1);
      if etat == 5 then
        |r.passes| == 2 && |r.passes[0].vertices| == 6 * blocks && |r.passes[1].vertices| == 10 * blocks
      else
        |r.passes| == 1 &&
        |r.passes[0].vertices| ==
          if etat == 1 then 10 * blocks
          else if 2 <= etat <= 4 then 6 * blocks
          else m.width * m.height
  {
    var w, h := m.width, m.height;
    var n := |Blocks(w, h)|;
    assert n == (w - 1) * (h - 1);
    assert |TrianglePattern| == 6 && |LinePattern| == 10;
    assert |BlockCorners(w, h, TrianglePattern)| == n * 6;
    assert |BlockCorners(w, h, LinePattern)| == n * 10;
    assert |PointCorners(w, h)| == w * h * 1;
  }

  /**
   * Mode 5 draws the wireframe over the textured triangles. The wireframe
   * takes the season tint; for any other season string it inherits the
   * colour the textured pass left current.
   */
  lemma OverlayColour(m: Mesh, season: string, cur: Colour)
    ensures var r := Terrain(m, 5, season, cur);
      var tex := DisplayTrianglesTexture(m);
      r.passes[0] == tex.passes[0] && r.passes[1].primitive == Lines &&
      (forall v :: v in r.passes[1].vertices ==>
        v.colour == if IsSeasonName(season) then SeasonTint[season] else tex.colour)
  {
    SeasonColorIsLookup(season, DisplayTrianglesTexture(m).colour);
    SeasonTintKeys();
  }

  /** The modes draw with the primitive their names say; an unknown mode draws points like mode 0. */
  lemma TerrainDispatch(m: Mesh, etat: int, season: string, cur: Colour)
    ensures var r := Terrain(m, etat, season, cur);
      r.passes[0].primitive == (if etat == 0 || etat > 5 || etat < 0 then Points
                                else if etat == 1 then Lines else Triangles)
    ensures (etat < 0 || etat > 5) ==> Terrain(m, etat, season, cur) == Terrain(m, 0, season, cur)
  {
  }
}
