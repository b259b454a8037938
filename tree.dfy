/** GTFOTree: the procedural growth of a tree species. `grow` draws a trunk
    height, checks the world-height bounds, the clearance around the trunk
    and the ground, then emits a four-layer canopy and a vertical trunk, each
    block through a caller-supplied notifier. */
module Tree {
  import opened Java
  import opened World
  import MetaBlocks
  import LemonTree

  // ---------------------------------------------------------------------
  // Species
  // ---------------------------------------------------------------------

  /** A concrete species: the lemon, which overrides `grow`, or one that
      inherits `grow` and supplies only the abstract clearance radius. */
  datatype Species = Lemon | Inheriting(mooreRadius: (int, int) -> int)

  /** getMooreRadiusAtHeight(height, trunkHeight). */
  function MooreRadiusAtHeight(species: Species, height: int, trunkHeight: int): int
  {
    match species
    case Lemon => LemonTree.MooreRadiusAtHeight(height, trunkHeight)
    case Inheriting(radius) => radius(height, trunkHeight)
  }

  /** getMinTrunkHeight, given the value `nextInt(3)` returned. */
  function MinTrunkHeight(roll: int): (h: int)
    requires 0 <= roll < 3
    ensures 5 <= h <= 7
  {
    roll + 5
  }

  const VanillaGrowInto: set<string> :=
    {"minecraft:grass", "minecraft:dirt", "minecraft:log", "minecraft:log2", "minecraft:sapling", "minecraft:vine"}

  /** canGrowInto: the material of the block's default state is air or
      leaves, or the block is one of six vanilla blocks. */
  predicate CanGrowInto(block: Block)
  {
    block.material == AirMaterial || block.material == LeavesMaterial || block.id in VanillaGrowInto
  }

  /** isReplaceable(world, pos). */
  predicate IsReplaceable(blocks: Blocks, p: Pos)
  {
    CanGrowInto(At(blocks, p).block)
  }

  /** The radius of canopy layer `layer` (0 at the top): `1 - layer / 2` with
      Java's truncating division. */
  function LeafRadius(layer: int): (r: int)
    ensures layer == -3 ==> r == 2
    ensures layer == -2 ==> r == 2
    ensures layer == -1 ==> r == 1
    ensures layer == 0 ==> r == 1
  {
    1 - Div(layer, 2)
  }

  /** Going up the canopy the radius never grows. */
  lemma LeafRadiusTapers(lower: int, upper: int)
    requires -3 <= lower <= upper <= 0
    ensures 1 <= LeafRadius(upper) <= LeafRadius(lower) <= 2
  {
  }

  /** With Dafny's Euclidean division the bottom layer would be one wider:
      the taper depends on Java's truncation. */
  lemma EuclideanRadiusDiffers()
    ensures 1 - (-3) / 2 == 3 && LeafRadius(-3) == 2
  {
  }

  // ---------------------------------------------------------------------
  // The orders in which the nested loops visit cells
  // ---------------------------------------------------------------------

  /** The cells `(x, y, z)` for `z0 <= z < zEnd`, in increasing z. */
  function Column(x: int, y: int, z0: int, zEnd: int): seq<Pos>
    decreases zEnd - z0
  {
    if zEnd <= z0 then [] else Column(x, y, z0, zEnd - 1) + [Pos(x, y, zEnd - 1)]
  }

  /** The rows `cx - r <= x < xEnd` of the square of radius r around
      `(cx, cz)` at height y, each row in increasing z. */
  function Rows(cx: int, y: int, cz: int, r: int, xEnd: int): seq<Pos>
    decreases xEnd - (cx - r)
  {
    if xEnd <= cx - r then [] else Rows(cx, y, cz, r, xEnd - 1) + Column(xEnd - 1, y, cz - r, cz + r + 1)
  }

  /** The whole square of radius r, empty when r is negative. */
  function Square(cx: int, y: int, cz: int, r: int): seq<Pos>
  {
    Rows(cx, y, cz, r, cx + r + 1)
  }

  /** The cells the clearance test inspects for layers `0 <= h < hEnd`, in order. */
  function ClearanceCells(species: Species, pos: Pos, minHeight: int, hEnd: int): seq<Pos>
    decreases hEnd
  {
    if hEnd <= 0 then []
    else ClearanceCells(species, pos, minHeight, hEnd - 1)
         + Square(pos.x, pos.y + hEnd - 1, pos.z, MooreRadiusAtHeight(species, hEnd - 1, minHeight))
  }

  /** The lowest canopy layer. */
  function CanopyBase(pos: Pos, height: int): int
  {
    pos.y - 3 + height
  }

  /** The canopy cells of layers `CanopyBase <= y < yEnd`, in the order
      generateLeaves visits them. */
  function CanopyCells(pos: Pos, height: int, yEnd: int): seq<Pos>
    decreases yEnd - CanopyBase(pos, height)
  {
    if yEnd <= CanopyBase(pos, height) then []
    else CanopyCells(pos, height, yEnd - 1)
         + Square(pos.x, yEnd - 1, pos.z, LeafRadius(yEnd - 1 - (pos.y + height)))
  }

  /** Every cell of the canopy. */
  function Canopy(pos: Pos, height: int): seq<Pos>
  {
    CanopyCells(pos, height, pos.y + height + 1)
  }

  lemma ColumnSnoc(x: int, y: int, z0: int, z: int)
    requires z0 <= z
    ensures Column(x, y, z0, z + 1) == Column(x, y, z0, z) + [Pos(x, y, z)]
  {
  }

  lemma RowsSnoc(cx: int, y: int, cz: int, r: int, x: int)
    requires cx - r <= x
    ensures Rows(cx, y, cz, r, x + 1) == Rows(cx, y, cz, r, x) + Column(x, y, cz - r, cz + r + 1)
  {
  }

  lemma ClearanceSnoc(species: Species, pos: Pos, minHeight: int, h: int)
    requires 0 <= h
    ensures ClearanceCells(species, pos, minHeight, h + 1)
         == ClearanceCells(species, pos, minHeight, h) + Square(pos.x, pos.y + h, pos.z, MooreRadiusAtHeight(species, h, minHeight))
  {
  }

  lemma CanopySnoc(pos: Pos, height: int, y: int)
    requires CanopyBase(pos, height) <= y
    ensures CanopyCells(pos, height, y + 1)
         == CanopyCells(pos, height, y) + Square(pos.x, y, pos.z, LeafRadius(y - (pos.y + height)))
  {
  }

  lemma {:induction false} ColumnMember(x: int, y: int, z0: int, zEnd: int, c: Pos)
    ensures c in Column(x, y, z0, zEnd) <==> c.x == x && c.y == y && z0 <= c.z < zEnd
    decreases zEnd - z0
  {
    if zEnd > z0 {
      ColumnMember(x, y, z0, zEnd - 1, c);
    }
  }

  lemma {:induction false} RowsMember(cx: int, y: int, cz: int, r: int, xEnd: int, c: Pos)
    ensures c in Rows(cx, y, cz, r, xEnd) <==>
      c.y == y && cx - r <= c.x < xEnd && cz - r <= c.z <= cz + r
    decreases xEnd - (cx - r)
  {
    if xEnd > cx - r {
      RowsMember(cx, y, cz, r, xEnd - 1, c);
      ColumnMember(xEnd - 1, y, cz - r, cz + r + 1, c);
    }
  }

  /** A cell is in the square of radius r iff it is at most r away along x and z. */
  lemma SquareMember(cx: int, y: int, cz: int, r: int, c: Pos)
    ensures c in Square(cx, y, cz, r) <==>
      c.y == y && Abs(c.x - cx) <= r && Abs(c.z - cz) <= r
  {
    RowsMember(cx, y, cz, r, cx + r + 1, c);
    assert (cx - r <= c.x < cx + r + 1) <==> Abs(c.x - cx) <= r;
    assert (cz - r <= c.z <= cz + r) <==> Abs(c.z - cz) <= r;
  }

  /** A square of negative radius holds no cell. */
  lemma NegativeSquareEmpty(cx: int, y: int, cz: int, r: int)
    requires r < 0
    ensures Square(cx, y, cz, r) == []
  {
  }

  /** Membership in layer h of the clearance, stated with the radius of c's own layer. */
  lemma ClearanceLayerMember(species: Species, pos: Pos, minHeight: int, h: int, c: Pos)
    ensures c in Square(pos.x, pos.y + h, pos.z, MooreRadiusAtHeight(species, h, minHeight)) <==>
      c.y - pos.y == h
      && Abs(c.x - pos.x) <= MooreRadiusAtHeight(species, c.y - pos.y, minHeight)
      && Abs(c.z - pos.z) <= MooreRadiusAtHeight(species, c.y - pos.y, minHeight)
  {
    SquareMember(pos.x, pos.y + h, pos.z, MooreRadiusAtHeight(species, h, minHeight), c);
  }

  lemma {:induction false} ClearanceMember(species: Species, pos: Pos, minHeight: int, hEnd: int, c: Pos)
    ensures c in ClearanceCells(species, pos, minHeight, hEnd) <==>
      0 <= c.y - pos.y < hEnd
      && Abs(c.x - pos.x) <= MooreRadiusAtHeight(species, c.y - pos.y, minHeight)
      && Abs(c.z - pos.z) <= MooreRadiusAtHeight(species, c.y - pos.y, minHeight)
    decreases hEnd
  {
    if hEnd > 0 {
      var h := hEnd - 1;
      var below := ClearanceCells(species, pos, minHeight, h);
      var square := Square(pos.x, pos.y + h, pos.z, MooreRadiusAtHeight(species, h, minHeight));
      ClearanceSnoc(species, pos, minHeight, h);
      ClearanceMember(species, pos, minHeight, h, c);
      ClearanceLayerMember(species, pos, minHeight, h, c);
      assert c in below + square <==> c in below || c in square;
      if c.y - pos.y == h {
        assert c !in below;
      } else {
        assert c !in square;
      }
    } else {
      assert ClearanceCells(species, pos, minHeight, hEnd) == [];
    }
  }

  /** c lies within the radius of its own canopy layer. */
  predicate WithinLeafRadius(pos: Pos, height: int, c: Pos)
  {
    var r := LeafRadius(c.y - (pos.y + height));
    Abs(c.x - pos.x) <= r && Abs(c.z - pos.z) <= r
  }

  /** Membership in canopy layer y. */
  lemma CanopyLayerMember(pos: Pos, height: int, y: int, c: Pos)
    ensures c in Square(pos.x, y, pos.z, LeafRadius(y - (pos.y + height))) <==>
      c.y == y && WithinLeafRadius(pos, height, c)
  {
    SquareMember(pos.x, y, pos.z, LeafRadius(y - (pos.y + height)), c);
  }

  lemma {:induction false} CanopyMember(pos: Pos, height: int, yEnd: int, c: Pos)
    ensures c in CanopyCells(pos, height, yEnd) <==>
      CanopyBase(pos, height) <= c.y < yEnd && WithinLeafRadius(pos, height, c)
    decreases yEnd - CanopyBase(pos, height)
  {
    if yEnd > CanopyBase(pos, height) {
      var y := yEnd - 1;
      var below := CanopyCells(pos, height, y);
      var square := Square(pos.x, y, pos.z, LeafRadius(y - (pos.y + height)));
      CanopySnoc(pos, height, y);
      CanopyMember(pos, height, y, c);
      CanopyLayerMember(pos, height, y, c);
      assert c in below + square <==> c in below || c in square;
      if c.y == y {
        assert c !in below;
      } else {
        assert c !in square;
      }
    } else {
      assert CanopyCells(pos, height, yEnd) == [];
    }
  }

  // Prefix facts for the early exit of the clearance test.

  lemma {:induction false} ColumnPrefix(x: int, y: int, z0: int, a: int, b: int)
    requires a <= b
    ensures Column(x, y, z0, a) <= Column(x, y, z0, b)
    decreases b - a
  {
    if a < b {
      ColumnPrefix(x, y, z0, a, b - 1);
      if b > z0 {
        assert Column(x, y, z0, b - 1) <= Column(x, y, z0, b);
      }
    }
  }

  lemma {:induction false} RowsPrefix(cx: int, y: int, cz: int, r: int, a: int, b: int)
    requires a <= b
    ensures Rows(cx, y, cz, r, a) <= Rows(cx, y, cz, r, b)
    decreases b - a
  {
    if a < b {
      RowsPrefix(cx, y, cz, r, a, b - 1);
      if b > cx - r {
        assert Rows(cx, y, cz, r, b - 1) <= Rows(cx, y, cz, r, b);
      }
    }
  }

  lemma {:induction false} ClearancePrefix(species: Species, pos: Pos, minHeight: int, a: int, b: int)
    requires a <= b
    ensures ClearanceCells(species, pos, minHeight, a) <= ClearanceCells(species, pos, minHeight, b)
    decreases b - a
  {
    if a < b {
      ClearancePrefix(species, pos, minHeight, a, b - 1);
      if b > 0 {
        assert ClearanceCells(species, pos, minHeight, b - 1) <= ClearanceCells(species, pos, minHeight, b);
      }
    }
  }

  lemma PrefixConcat<T>(p: seq<T>, a: seq<T>, b: seq<T>)
    requires a <= b
    ensures p + a <= p + b
  {
    assert (p + b)[..|p + a|] == p + b[..|a|];
  }

  lemma PrefixTrans<T>(a: seq<T>, b: seq<T>, c: seq<T>)
    requires a <= b && b <= c
    ensures a <= c
  {
    assert c[..|b|][..|a|] == c[..|a|];
  }

  // ---------------------------------------------------------------------
  // The clearance test
  // ---------------------------------------------------------------------

  /** isSuitableLocation's verdict: every cell it can inspect is replaceable. */
  predicate Clear(species: Species, blocks: Blocks, pos: Pos, minHeight: int)
  {
    AllReplaceable(blocks, ClearanceCells(species, pos, minHeight, minHeight + 2))
  }

  predicate AllReplaceable(blocks: Blocks, cells: seq<Pos>)
  {
    forall i :: 0 <= i < |cells| ==> IsReplaceable(blocks, cells[i])
  }

  /** isReplaceable holds at a position the world leaves empty (air), on an
      air or leaves block, and on the six vanilla blocks whatever their
      material; on nothing else. */
  lemma ReplaceableIff(blocks: Blocks, p: Pos)
    ensures IsReplaceable(blocks, p) <==>
      p !in blocks || !blocks[p].block.material.OtherMaterial? || blocks[p].block.id in VanillaGrowInto
    ensures forall m :: CanGrowInto(Block("minecraft:dirt", m)) && CanGrowInto(Block("minecraft:vine", m))
    ensures !CanGrowInto(Block("minecraft:stone", OtherMaterial("rock")))
  {
  }

  /** In an empty world the clearance test passes for any species. */
  lemma EmptyWorldClear(species: Species, pos: Pos, minHeight: int)
    ensures Clear(species, map[], pos, minHeight)
  {
  }

  lemma AllReplaceableSnoc(blocks: Blocks, cells: seq<Pos>, c: Pos)
    ensures AllReplaceable(blocks, cells + [c]) <==> AllReplaceable(blocks, cells) && IsReplaceable(blocks, c)
  {
    if AllReplaceable(blocks, cells + [c]) {
      forall i | 0 <= i < |cells| ensures IsReplaceable(blocks, cells[i]) {
        assert (cells + [c])[i] == cells[i];
      }
      assert (cells + [c])[|cells|] == c;
    }
  }

  /** A cell of layers 0 .. minHeight + 1 within that layer's Moore radius. */
  predicate InClearance(species: Species, pos: Pos, minHeight: int, c: Pos)
  {
    && 0 <= c.y - pos.y <= minHeight + 1
    && Abs(c.x - pos.x) <= MooreRadiusAtHeight(species, c.y - pos.y, minHeight)
    && Abs(c.z - pos.z) <= MooreRadiusAtHeight(species, c.y - pos.y, minHeight)
  }

  lemma ClearCell(species: Species, blocks: Blocks, pos: Pos, minHeight: int, c: Pos)
    requires Clear(species, blocks, pos, minHeight) && InClearance(species, pos, minHeight, c)
    ensures IsReplaceable(blocks, c)
  {
    var cells := ClearanceCells(species, pos, minHeight, minHeight + 2);
    ClearanceMember(species, pos, minHeight, minHeight + 2, c);
    var i :| 0 <= i < |cells| && cells[i] == c;
  }

  lemma BlockedCell(species: Species, blocks: Blocks, pos: Pos, minHeight: int) returns (c: Pos)
    requires !Clear(species, blocks, pos, minHeight)
    ensures InClearance(species, pos, minHeight, c) && !IsReplaceable(blocks, c)
  {
    var cells := ClearanceCells(species, pos, minHeight, minHeight + 2);
    assert !AllReplaceable(blocks, cells);
    var i :| 0 <= i < |cells| && !IsReplaceable(blocks, cells[i]);
    c := cells[i];
    assert c in cells;
    ClearanceMember(species, pos, minHeight, minHeight + 2, c);
  }

  /** The clearance test passes iff every cell of layers 0 .. minHeight + 1
      within that layer's Moore radius is replaceable; a layer whose radius is
      negative asks for nothing. */
  lemma ClearanceIff(species: Species, blocks: Blocks, pos: Pos, minHeight: int)
    ensures Clear(species, blocks, pos, minHeight) <==>
      forall c: Pos :: InClearance(species, pos, minHeight, c) ==> IsReplaceable(blocks, c)
  {
    if Clear(species, blocks, pos, minHeight) {
      forall c: Pos | InClearance(species, pos, minHeight, c)
        ensures IsReplaceable(blocks, c)
      {
        ClearCell(species, blocks, pos, minHeight, c);
      }
    } else {
      var c := BlockedCell(species, blocks, pos, minHeight);
    }
  }

  /** For the lemon, whose radius is 0 everywhere, the clearance test
      inspects the trunk column alone, bottom to top. */
  lemma {:induction false} LemonClearanceColumn(pos: Pos, minHeight: int, hEnd: nat)
    ensures ClearanceCells(Lemon, pos, minHeight, hEnd) == seq(hEnd, h => Pos(pos.x, pos.y + h, pos.z))
    decreases hEnd
  {
    if hEnd > 0 {
      LemonClearanceColumn(pos, minHeight, hEnd - 1);
      var y := pos.y + hEnd - 1;
      assert Column(pos.x, y, pos.z, pos.z + 1) == [Pos(pos.x, y, pos.z)];
      assert Rows(pos.x, y, pos.z, 0, pos.x) == [];
      assert Square(pos.x, y, pos.z, 0) == [Pos(pos.x, y, pos.z)];
      assert MooreRadiusAtHeight(Lemon, hEnd - 1, minHeight) == 0;
    }
  }

  /** So the lemon's clearance test looks at exactly minHeight + 2 cells. */
  lemma LemonClearanceSize(pos: Pos, minHeight: nat)
    ensures |ClearanceCells(Lemon, pos, minHeight, minHeight + 2)| == minHeight + 2
    ensures forall c: Pos :: c in ClearanceCells(Lemon, pos, minHeight, minHeight + 2) <==>
      c.x == pos.x && c.z == pos.z && pos.y <= c.y <= pos.y + minHeight + 1
  {
    LemonClearanceColumn(pos, minHeight, minHeight + 2);
    var cells := ClearanceCells(Lemon, pos, minHeight, minHeight + 2);
    forall c: Pos | c.x == pos.x && c.z == pos.z && pos.y <= c.y <= pos.y + minHeight + 1
      ensures c in cells
    {
      assert cells[c.y - pos.y] == c;
    }
  }

  /** The last cell fails and every earlier one passes. */
  predicate StopsAtFirstFailure(blocks: Blocks, cells: seq<Pos>)
  {
    |cells| > 0 && !IsReplaceable(blocks, cells[|cells| - 1]) && AllReplaceable(blocks, cells[..|cells| - 1])
  }

  /** What a scan of `cells` that stops at the first failing cell answers
      and what it has looked at: all of `cells` when it passes, a prefix of
      them ending with the failing cell when it fails. */
  predicate ScanResult(blocks: Blocks, cells: seq<Pos>, ok: bool, inspected: seq<Pos>)
  {
    && (ok <==> AllReplaceable(blocks, cells))
    && inspected <= cells
    && (ok ==> inspected == cells)
    && (!ok ==> StopsAtFirstFailure(blocks, inspected))
  }

  lemma AllReplaceableConcat(blocks: Blocks, a: seq<Pos>, b: seq<Pos>)
    ensures AllReplaceable(blocks, a + b) <==> AllReplaceable(blocks, a) && AllReplaceable(blocks, b)
  {
    if AllReplaceable(blocks, a + b) {
      forall i | 0 <= i < |a| ensures IsReplaceable(blocks, a[i]) {
        assert (a + b)[i] == a[i];
      }
      forall i | 0 <= i < |b| ensures IsReplaceable(blocks, b[i]) {
        assert (a + b)[|a| + i] == b[i];
      }
    }
  }

  /** A failing cell right after passing ones ends the scan. */
  lemma ScanFails(blocks: Blocks, prior: seq<Pos>, cell: Pos, cells: seq<Pos>)
    requires prior + [cell] <= cells && AllReplaceable(blocks, prior) && !IsReplaceable(blocks, cell)
    ensures ScanResult(blocks, cells, false, prior + [cell])
  {
    assert cells[|prior|] == (prior + [cell])[|prior|] == cell;
    assert (prior + [cell])[..|prior|] == prior;
  }

  /** Scanning `rest` after cells that all passed is scanning `done + rest`. */
  lemma ScanAfter(blocks: Blocks, done: seq<Pos>, rest: seq<Pos>, ok: bool, inspected: seq<Pos>)
    requires AllReplaceable(blocks, done) && ScanResult(blocks, rest, ok, inspected)
    ensures ScanResult(blocks, done + rest, ok, done + inspected)
  {
    AllReplaceableConcat(blocks, done, rest);
    PrefixConcat(done, inspected, rest);
    if !ok {
      var n := |inspected| - 1;
      assert (done + inspected)[|done| + n] == inspected[n];
      assert (done + inspected)[..|done| + n] == done + inspected[..n];
      AllReplaceableConcat(blocks, done, inspected[..n]);
    }
  }

  /** A scan that failed on a prefix of `cells` has failed on `cells`. */
  lemma ScanWiden(blocks: Blocks, part: seq<Pos>, cells: seq<Pos>, inspected: seq<Pos>)
    requires part <= cells && ScanResult(blocks, part, false, inspected)
    ensures ScanResult(blocks, cells, false, inspected)
  {
    PrefixTrans(inspected, part, cells);
    assert cells[|inspected| - 1] == inspected[|inspected| - 1];
  }

  /** One layer of the clearance test added to the layers below it. */
  lemma LayerScanned(species: Species, blocks: Blocks, pos: Pos, minHeight: int, height: int,
                     inspected: seq<Pos>, layerOk: bool, layer: seq<Pos>)
    requires 0 <= height <= minHeight + 1
    requires inspected == ClearanceCells(species, pos, minHeight, height) && AllReplaceable(blocks, inspected)
    requires ScanResult(blocks, Square(pos.x, pos.y + height, pos.z, MooreRadiusAtHeight(species, height, minHeight)), layerOk, layer)
    ensures layerOk ==> inspected + layer == ClearanceCells(species, pos, minHeight, height + 1)
    ensures layerOk ==> AllReplaceable(blocks, inspected + layer)
    ensures !layerOk ==> !Clear(species, blocks, pos, minHeight)
    ensures !layerOk ==> ScanResult(blocks, ClearanceCells(species, pos, minHeight, minHeight + 2), false, inspected + layer)
  {
    var square := Square(pos.x, pos.y + height, pos.z, MooreRadiusAtHeight(species, height, minHeight));
    ScanAfter(blocks, inspected, square, layerOk, layer);
    ClearanceSnoc(species, pos, minHeight, height);
    if !layerOk {
      ClearancePrefix(species, pos, minHeight, height + 1, minHeight + 2);
      ScanWiden(blocks, inspected + square, ClearanceCells(species, pos, minHeight, minHeight + 2), inspected + layer);
    }
  }

  /** One row of a square added to the rows before it. */
  lemma RowScanned(blocks: Blocks, cx: int, y: int, cz: int, r: int, x: int,
                   inspected: seq<Pos>, rowOk: bool, row: seq<Pos>)
    requires cx - r <= x <= cx + r
    requires inspected == Rows(cx, y, cz, r, x) && AllReplaceable(blocks, inspected)
    requires ScanResult(blocks, Column(x, y, cz - r, cz + r + 1), rowOk, row)
    ensures rowOk ==> inspected + row == Rows(cx, y, cz, r, x + 1)
    ensures rowOk ==> AllReplaceable(blocks, inspected + row)
    ensures !rowOk ==> ScanResult(blocks, Square(cx, y, cz, r), false, inspected + row)
  {
    var column := Column(x, y, cz - r, cz + r + 1);
    ScanAfter(blocks, inspected, column, rowOk, row);
    RowsSnoc(cx, y, cz, r, x);
    if !rowOk {
      RowsPrefix(cx, y, cz, r, x + 1, cx + r + 1);
      ScanWiden(blocks, inspected + column, Square(cx, y, cz, r), inspected + row);
    }
  }

  /** Every layer of the clearance test passed. */
  lemma AllLayersScanned(species: Species, blocks: Blocks, pos: Pos, minHeight: int, height: int, inspected: seq<Pos>)
    requires 0 <= height && (height <= minHeight + 2 || height == 0) && height > minHeight + 1
    requires inspected == ClearanceCells(species, pos, minHeight, height) && AllReplaceable(blocks, inspected)
    ensures Clear(species, blocks, pos, minHeight)
    ensures ScanResult(blocks, ClearanceCells(species, pos, minHeight, minHeight + 2), true, inspected)
  {
    assert ClearanceCells(species, pos, minHeight, height) == ClearanceCells(species, pos, minHeight, minHeight + 2);
  }

  // ---------------------------------------------------------------------
  // The canopy
  // ---------------------------------------------------------------------

  /** A cell on one of the four corners of its canopy layer. */
  predicate IsCorner(pos: Pos, height: int, c: Pos)
  {
    var r := LeafRadius(c.y - (pos.y + height));
    Abs(c.x - pos.x) == r && Abs(c.z - pos.z) == r
  }

  /** The top canopy layer. */
  predicate OnTop(pos: Pos, height: int, c: Pos)
  {
    c.y == pos.y + height
  }

  /** The host's verdict on putting leaves on cell c: it is given the state
      found at c but the origin `pos`, not c. */
  predicate LeafReplaceable(env: Env, st: Gen, pos: Pos, c: Pos)
  {
    var state := At(st.blocks, c);
    env.host.blockIsReplaceable(state.block, st.blocks, pos) || env.host.canBeReplacedByLeaves(state, st.blocks, pos)
  }

  /** One cell of generateLeaves. A cell off the corners gets leaves when the
      host allows it; a corner cell first takes a `nextInt(2)` draw and gets
      leaves only when the draw is non-zero, the layer is not the top one and
      the host allows it. */
  function LeafStep(env: Env, pos: Pos, height: int, leaves: BlockState, st: Gen, c: Pos): Gen
  {
    if !IsCorner(pos, height, c) then
      if LeafReplaceable(env, st, pos, c) then Notified(env, st, c, leaves) else st
    else
      var (roll, st1) := Draw(env, st, 2);
      if roll != 0 && !OnTop(pos, height, c) && LeafReplaceable(env, st1, pos, c) then Notified(env, st1, c, leaves) else st1
  }

  /** The cells processed one after another. */
  function LeafScan(env: Env, pos: Pos, height: int, leaves: BlockState, st: Gen, cells: seq<Pos>): Gen
    decreases |cells|
  {
    if |cells| == 0 then st
    else LeafStep(env, pos, height, leaves, LeafScan(env, pos, height, leaves, st, cells[..|cells| - 1]), cells[|cells| - 1])
  }

  lemma LeafScanSnoc(env: Env, pos: Pos, height: int, leaves: BlockState, st: Gen, cells: seq<Pos>, c: Pos)
    ensures LeafScan(env, pos, height, leaves, st, cells + [c])
         == LeafStep(env, pos, height, leaves, LeafScan(env, pos, height, leaves, st, cells), c)
  {
    assert (cells + [c])[..|cells|] == cells;
  }

  lemma {:induction false} LeafScanConcat(env: Env, pos: Pos, height: int, leaves: BlockState, st: Gen, a: seq<Pos>, b: seq<Pos>)
    ensures LeafScan(env, pos, height, leaves, st, a + b)
         == LeafScan(env, pos, height, leaves, LeafScan(env, pos, height, leaves, st, a), b)
    decreases |b|
  {
    if |b| == 0 {
      assert a + b == a;
    } else {
      assert (a + b)[..|a + b| - 1] == a + b[..|b| - 1];
      assert (a + b)[|a + b| - 1] == b[|b| - 1];
      LeafScanConcat(env, pos, height, leaves, st, a, b[..|b| - 1]);
    }
  }

  /** One more cell of a row: the scan of the row so far, then that cell. */
  lemma ColumnScanStep(env: Env, pos: Pos, height: int, leaves: BlockState, st0: Gen, mid: Gen, after: Gen,
                       x: int, y: int, z0: int, z: int)
    requires z0 <= z
    requires mid == LeafScan(env, pos, height, leaves, st0, Column(x, y, z0, z))
    requires after == LeafStep(env, pos, height, leaves, mid, Pos(x, y, z))
    ensures after == LeafScan(env, pos, height, leaves, st0, Column(x, y, z0, z + 1))
  {
    ColumnSnoc(x, y, z0, z);
    LeafScanSnoc(env, pos, height, leaves, st0, Column(x, y, z0, z), Pos(x, y, z));
  }

  /** One more row of a layer: the scan of the rows so far, then that row. */
  lemma RowsScanStep(env: Env, pos: Pos, height: int, leaves: BlockState, st0: Gen, mid: Gen, after: Gen,
                     y: int, r: int, x: int)
    requires pos.x - r <= x
    requires mid == LeafScan(env, pos, height, leaves, st0, Rows(pos.x, y, pos.z, r, x))
    requires after == LeafScan(env, pos, height, leaves, mid, Column(x, y, pos.z - r, pos.z + r + 1))
    ensures after == LeafScan(env, pos, height, leaves, st0, Rows(pos.x, y, pos.z, r, x + 1))
  {
    RowsSnoc(pos.x, y, pos.z, r, x);
    LeafScanConcat(env, pos, height, leaves, st0, Rows(pos.x, y, pos.z, r, x), Column(x, y, pos.z - r, pos.z + r + 1));
  }

  /** One more layer of the canopy: the scan of the layers so far, then that layer. */
  lemma CanopyScanStep(env: Env, pos: Pos, height: int, leaves: BlockState, st0: Gen, mid: Gen, after: Gen, y: int)
    requires CanopyBase(pos, height) <= y
    requires mid == LeafScan(env, pos, height, leaves, st0, CanopyCells(pos, height, y))
    requires after == LeafScan(env, pos, height, leaves, mid, Square(pos.x, y, pos.z, LeafRadius(y - (pos.y + height))))
    ensures after == LeafScan(env, pos, height, leaves, st0, CanopyCells(pos, height, y + 1))
  {
    CanopySnoc(pos, height, y);
    LeafScanConcat(env, pos, height, leaves, st0, CanopyCells(pos, height, y), Square(pos.x, y, pos.z, LeafRadius(y - (pos.y + height))));
  }

  /** The number of corner cells among `cells`. */
  function CornerCount(pos: Pos, height: int, cells: seq<Pos>): nat
    decreases |cells|
  {
    if |cells| == 0 then 0
    else CornerCount(pos, height, cells[..|cells| - 1]) + (if IsCorner(pos, height, cells[|cells| - 1]) then 1 else 0)
  }

  function Twos(n: nat): seq<int>
  {
    seq(n, _ => 2)
  }

  /** Processing cells adds to the log only leaves, only on those cells and
      never on a corner of the top layer, and takes exactly one
      `nextInt(2)` draw per corner cell. */
  lemma {:induction false} LeafScanShape(env: Env, pos: Pos, height: int, leaves: BlockState, st: Gen, cells: seq<Pos>)
    ensures var r := LeafScan(env, pos, height, leaves, st, cells);
      && st.log <= r.log
      && |r.log| <= |st.log| + |cells|
      && r.consumed == st.consumed + CornerCount(pos, height, cells)
      && r.bounds == st.bounds + Twos(CornerCount(pos, height, cells))
      && (forall i :: |st.log| <= i < |r.log| ==>
            && r.log[i].state == leaves
            && r.log[i].pos in cells
            && !(IsCorner(pos, height, r.log[i].pos) && OnTop(pos, height, r.log[i].pos)))
    decreases |cells|
  {
    if |cells| > 0 {
      var prefix := cells[..|cells| - 1];
      var c := cells[|cells| - 1];
      LeafScanShape(env, pos, height, leaves, st, prefix);
      var mid := LeafScan(env, pos, height, leaves, st, prefix);
      var r := LeafStep(env, pos, height, leaves, mid, c);
      var n := CornerCount(pos, height, prefix);
      assert cells == prefix + [c];
      if IsCorner(pos, height, c) {
        assert st.bounds + Twos(n) + [2] == st.bounds + Twos(n + 1);
      }
      forall i | |st.log| <= i < |r.log|
        ensures r.log[i].state == leaves && r.log[i].pos in cells
        ensures !(IsCorner(pos, height, r.log[i].pos) && OnTop(pos, height, r.log[i].pos))
      {
        if i < |mid.log| {
          assert r.log[i] == mid.log[i];
          assert r.log[i].pos in prefix;
        } else {
          assert r.log[i] == Placement(c, leaves);
        }
      }
    }
  }

  lemma {:induction false} CornerCountConcat(pos: Pos, height: int, a: seq<Pos>, b: seq<Pos>)
    ensures CornerCount(pos, height, a + b) == CornerCount(pos, height, a) + CornerCount(pos, height, b)
    decreases |b|
  {
    if |b| == 0 {
      assert a + b == a;
    } else {
      assert (a + b)[..|a + b| - 1] == a + b[..|b| - 1];
      assert (a + b)[|a + b| - 1] == b[|b| - 1];
      CornerCountConcat(pos, height, a, b[..|b| - 1]);
    }
  }

  /** The corners met along one row of a canopy layer of radius r >= 1:
      two on the outermost rows, none elsewhere. */
  lemma {:induction false} ColumnCorners(pos: Pos, height: int, x: int, y: int, r: int, zEnd: int)
    requires r == LeafRadius(y - (pos.y + height)) && r >= 1
    requires pos.z - r <= zEnd <= pos.z + r + 1
    ensures CornerCount(pos, height, Column(x, y, pos.z - r, zEnd)) ==
      if Abs(x - pos.x) != r then 0
      else (if zEnd > pos.z - r then 1 else 0) + (if zEnd == pos.z + r + 1 then 1 else 0)
    decreases zEnd - (pos.z - r)
  {
    if zEnd > pos.z - r {
      ColumnCorners(pos, height, x, y, r, zEnd - 1);
      var col := Column(x, y, pos.z - r, zEnd - 1);
      assert Column(x, y, pos.z - r, zEnd) == col + [Pos(x, y, zEnd - 1)];
      assert Column(x, y, pos.z - r, zEnd)[..|col|] == col;
    } else {
      assert Column(x, y, pos.z - r, zEnd) == [];
    }
  }

  /** A whole row holds two corners when it is an outermost row, none otherwise. */
  lemma RowCorners(pos: Pos, height: int, x: int, y: int, r: int)
    requires r == LeafRadius(y - (pos.y + height)) && r >= 1
    ensures CornerCount(pos, height, Column(x, y, pos.z - r, pos.z + r + 1)) == if Abs(x - pos.x) == r then 2 else 0
  {
    ColumnCorners(pos, height, x, y, r, pos.z + r + 1);
  }

  lemma {:induction false} RowsCorners(pos: Pos, height: int, y: int, r: int, xEnd: int)
    requires r == LeafRadius(y - (pos.y + height)) && r >= 1
    requires pos.x - r <= xEnd <= pos.x + r + 1
    ensures CornerCount(pos, height, Rows(pos.x, y, pos.z, r, xEnd)) ==
      (if xEnd > pos.x - r then 2 else 0) + (if xEnd == pos.x + r + 1 then 2 else 0)
    decreases xEnd - (pos.x - r)
  {
    if xEnd > pos.x - r {
      var prev := Rows(pos.x, y, pos.z, r, xEnd - 1);
      var row := Column(xEnd - 1, y, pos.z - r, pos.z + r + 1);
      assert Rows(pos.x, y, pos.z, r, xEnd) == prev + row;
      RowsCorners(pos, height, y, r, xEnd - 1);
      RowCorners(pos, height, xEnd - 1, y, r);
      CornerCountConcat(pos, height, prev, row);
    } else {
      assert Rows(pos.x, y, pos.z, r, xEnd) == [];
    }
  }

  /** One canopy layer holds four corners. */
  lemma LayerCorners(pos: Pos, height: int, y: int)
    requires CanopyBase(pos, height) <= y <= pos.y + height
    ensures CornerCount(pos, height, Square(pos.x, y, pos.z, LeafRadius(y - (pos.y + height)))) == 4
  {
    var layer := y - (pos.y + height);
    LeafRadiusTapers(layer, layer);
    var r := LeafRadius(layer);
    RowsCorners(pos, height, y, r, pos.x + r + 1);
  }

  /** Each canopy layer has four corners. */
  lemma {:induction false} CanopyCorners(pos: Pos, height: int, yEnd: int)
    requires CanopyBase(pos, height) <= yEnd <= pos.y + height + 1
    ensures CornerCount(pos, height, CanopyCells(pos, height, yEnd)) == 4 * (yEnd - CanopyBase(pos, height))
    decreases yEnd - CanopyBase(pos, height)
  {
    if yEnd > CanopyBase(pos, height) {
      var y := yEnd - 1;
      var below := CanopyCells(pos, height, y);
      var layer := Square(pos.x, y, pos.z, LeafRadius(y - (pos.y + height)));
      CanopySnoc(pos, height, y);
      CanopyCorners(pos, height, y);
      LayerCorners(pos, height, y);
      CornerCountConcat(pos, height, below, layer);
      calc {
        CornerCount(pos, height, CanopyCells(pos, height, yEnd));
        CornerCount(pos, height, below + layer);
        CornerCount(pos, height, below) + CornerCount(pos, height, layer);
      }
    } else {
      assert CanopyCells(pos, height, yEnd) == [];
    }
  }

  /** A canopy leaf lies in one of the four top layers, within that layer's
      radius of the trunk, and never on a corner of the top layer. */
  ghost predicate InCanopy(pos: Pos, height: int, c: Pos)
  {
    && CanopyBase(pos, height) <= c.y <= pos.y + height
    && Abs(c.x - pos.x) <= LeafRadius(c.y - (pos.y + height)) <= 2
    && Abs(c.z - pos.z) <= LeafRadius(c.y - (pos.y + height))
    && !(IsCorner(pos, height, c) && OnTop(pos, height, c))
  }

  /** generateLeaves as a whole: leaves only inside the canopy and exactly
      sixteen `nextInt(2)` draws, one per corner of the four layers. */
  lemma CanopyCellInCanopy(pos: Pos, height: int, c: Pos)
    requires c in Canopy(pos, height) && !(IsCorner(pos, height, c) && OnTop(pos, height, c))
    ensures InCanopy(pos, height, c)
  {
    CanopyMember(pos, height, pos.y + height + 1, c);
    LeafRadiusTapers(c.y - (pos.y + height), c.y - (pos.y + height));
  }

  lemma CanopyShape(env: Env, pos: Pos, height: int, leaves: BlockState, st: Gen)
    ensures var r := LeafScan(env, pos, height, leaves, st, Canopy(pos, height));
      && st.log <= r.log
      && r.consumed == st.consumed + 16
      && r.bounds == st.bounds + Twos(16)
      && (forall i :: |st.log| <= i < |r.log| ==> r.log[i].state == leaves && InCanopy(pos, height, r.log[i].pos))
  {
    var cells := Canopy(pos, height);
    var r := LeafScan(env, pos, height, leaves, st, cells);
    LeafScanShape(env, pos, height, leaves, st, cells);
    CanopyCorners(pos, height, pos.y + height + 1);
    forall i | |st.log| <= i < |r.log|
      ensures InCanopy(pos, height, r.log[i].pos)
    {
      CanopyCellInCanopy(pos, height, r.log[i].pos);
    }
  }

  /** One cell gets leaves when the host allows it and the cell is off the
      corners, or is a corner below the top layer whose draw is non-zero. */
  lemma LeafStepPlaces(env: Env, pos: Pos, height: int, leaves: BlockState, st: Gen, c: Pos)
    requires LeafReplaceable(env, st, pos, c)
    requires !IsCorner(pos, height, c) || (!OnTop(pos, height, c) && env.stream(st.consumed) % 2 != 0)
    ensures LeafStep(env, pos, height, leaves, st, c).log == st.log + [Placement(c, leaves)]
  {
    if IsCorner(pos, height, c) {
      var (roll, st1) := Draw(env, st, 2);
      assert st1.blocks == st.blocks;
    }
  }

  /** A notifier that only records placements: a scan keeps the world and
      takes one draw per corner. */
  lemma {:induction false} LeafScanRecords(env: Env, pos: Pos, height: int, leaves: BlockState, st: Gen, cells: seq<Pos>)
    requires !env.applies
    ensures LeafScan(env, pos, height, leaves, st, cells).blocks == st.blocks
    ensures LeafScan(env, pos, height, leaves, st, cells).consumed == st.consumed + CornerCount(pos, height, cells)
    decreases |cells|
  {
    if |cells| > 0 {
      LeafScanRecords(env, pos, height, leaves, st, cells[..|cells| - 1]);
    }
  }

  /** With a notifier that only records placements, the i-th cell gets
      leaves whenever the host allows it and the cell is off the corners, or
      is a corner below the top layer whose `nextInt(2)` draw, the one taken
      after the corners before it, is non-zero. */
  lemma {:induction false} LeafScanCovers(env: Env, pos: Pos, height: int, leaves: BlockState, st: Gen, cells: seq<Pos>, i: int)
    requires !env.applies
    requires 0 <= i < |cells|
    requires LeafReplaceable(env, st, pos, cells[i])
    requires !IsCorner(pos, height, cells[i])
          || (!OnTop(pos, height, cells[i]) && env.stream(st.consumed + CornerCount(pos, height, cells[..i])) % 2 != 0)
    ensures Placement(cells[i], leaves) in LeafScan(env, pos, height, leaves, st, cells).log
    decreases |cells|
  {
    var prefix := cells[..|cells| - 1];
    var c := cells[|cells| - 1];
    var mid := LeafScan(env, pos, height, leaves, st, prefix);
    if i == |cells| - 1 {
      assert prefix == cells[..i];
      LeafScanRecords(env, pos, height, leaves, st, prefix);
      assert LeafReplaceable(env, mid, pos, c);
      LeafStepPlaces(env, pos, height, leaves, mid, c);
    } else {
      assert prefix[..i] == cells[..i] && prefix[i] == cells[i];
      LeafScanCovers(env, pos, height, leaves, st, prefix, i);
      assert mid.log <= LeafStep(env, pos, height, leaves, mid, c).log;
    }
  }

  /** generateLeaves with a notifier that only records placements: every
      off-corner cell of the four layers within its layer's radius gets
      leaves when the host allows it. */
  lemma CanopyCovers(env: Env, pos: Pos, height: int, leaves: BlockState, st: Gen, c: Pos)
    requires !env.applies
    requires CanopyBase(pos, height) <= c.y <= pos.y + height && WithinLeafRadius(pos, height, c)
    requires !IsCorner(pos, height, c) && LeafReplaceable(env, st, pos, c)
    ensures Placement(c, leaves) in LeafScan(env, pos, height, leaves, st, Canopy(pos, height)).log
  {
    var cells := Canopy(pos, height);
    CanopyMember(pos, height, pos.y + height + 1, c);
    var i :| 0 <= i < |cells| && cells[i] == c;
    LeafScanCovers(env, pos, height, leaves, st, cells, i);
  }

  // ---------------------------------------------------------------------
  // The trunk
  // ---------------------------------------------------------------------

  /** `logState.withProperty(LOG_AXIS, EnumAxis.Y)`. */
  function WithAxisY(s: BlockState): (r: BlockState)
    ensures r.block == s.block
    ensures r.properties.Keys == s.properties.Keys + {"axis"} && r.properties["axis"] == "y"
    ensures forall k :: k in s.properties && k != "axis" ==> r.properties[k] == s.properties[k]
  {
    s.(properties := s.properties["axis" := "y"])
  }

  /** The item model of a log block, whose properties are overridden with
      the vertical axis, is rendered from the very state the trunk places. */
  lemma LogItemModelMatchesTrunk(s: BlockState)
    ensures MetaBlocks.MergeOverrides(s.properties, map["axis" := "y"]) == WithAxisY(s).properties
  {
  }

  /** One step of generateTrunk: the block one above offset k decides
      whether a log goes at offset k. */
  function TrunkStep(env: Env, pos: Pos, log: BlockState, st: Gen, k: int): Gen
  {
    var above := Up(pos, k + 1);
    var state := At(st.blocks, above);
    if env.host.isAir(state, st.blocks, above) || env.host.isLeaves(state, st.blocks, above)
    then Notified(env, st, Up(pos, k), log)
    else st
  }

  /** The first n steps of generateTrunk. */
  function TrunkScan(env: Env, pos: Pos, log: BlockState, st: Gen, n: nat): Gen
    decreases n
  {
    if n == 0 then st else TrunkStep(env, pos, log, TrunkScan(env, pos, log, st, n - 1), n - 1)
  }

  /** The trunk is at most n logs, all in the origin's column at offsets
      0 .. n - 1 going up, and takes no random draw. */
  lemma {:induction false} TrunkShape(env: Env, pos: Pos, log: BlockState, st: Gen, n: nat)
    ensures var r := TrunkScan(env, pos, log, st, n);
      && st.log <= r.log
      && |r.log| <= |st.log| + n
      && r.consumed == st.consumed && r.bounds == st.bounds
      && (forall i :: |st.log| <= i < |r.log| ==>
            && r.log[i].state == log
            && r.log[i].pos.x == pos.x && r.log[i].pos.z == pos.z
            && pos.y <= r.log[i].pos.y < pos.y + n)
      && (forall i, j :: |st.log| <= i < j < |r.log| ==> r.log[i].pos.y < r.log[j].pos.y)
    decreases n
  {
    if n > 0 {
      TrunkShape(env, pos, log, st, n - 1);
      var mid := TrunkScan(env, pos, log, st, n - 1);
      var r := TrunkStep(env, pos, log, mid, n - 1);
      assert r.log == mid.log || r.log == mid.log + [Placement(Up(pos, n - 1), log)];
      forall i, j | |st.log| <= i < j < |r.log|
        ensures r.log[i].pos.y < r.log[j].pos.y
      {
        if j >= |mid.log| {
          assert r.log[j].pos.y == pos.y + n - 1;
          assert r.log[i] == mid.log[i];
        } else {
          assert r.log[i] == mid.log[i] && r.log[j] == mid.log[j];
        }
      }
    }
  }

  /** The trunk writes only offsets below n: the column from offset n up
      is as it was. */
  lemma {:induction false} TrunkKeepsAbove(env: Env, pos: Pos, log: BlockState, st: Gen, n: nat, k: int)
    requires k >= n
    ensures At(TrunkScan(env, pos, log, st, n).blocks, Up(pos, k)) == At(st.blocks, Up(pos, k))
    decreases n
  {
    if n > 0 {
      TrunkKeepsAbove(env, pos, log, st, n - 1, k);
    }
  }

  /** A notifier that only records placements leaves the world as it was. */
  lemma {:induction false} TrunkKeepsWorld(env: Env, pos: Pos, log: BlockState, st: Gen, n: nat)
    requires !env.applies
    ensures TrunkScan(env, pos, log, st, n).blocks == st.blocks
    decreases n
  {
    if n > 0 {
      TrunkKeepsWorld(env, pos, log, st, n - 1);
    }
  }

  /** When the host calls every cell from offset 1 to n air, in whatever
      world it is asked about, the trunk is exactly n logs at offsets
      0 .. n - 1, for either notifier. */
  lemma {:induction false} TrunkInAir(env: Env, pos: Pos, log: BlockState, st: Gen, n: nat)
    requires forall k, b :: 1 <= k <= n ==> env.host.isAir(At(st.blocks, Up(pos, k)), b, Up(pos, k))
    ensures TrunkScan(env, pos, log, st, n).log == st.log + seq(n, k => Placement(Up(pos, k), log))
    ensures !env.applies ==> TrunkScan(env, pos, log, st, n).blocks == st.blocks
    decreases n
  {
    if n > 0 {
      TrunkInAir(env, pos, log, st, n - 1);
      var mid := TrunkScan(env, pos, log, st, n - 1);
      TrunkKeepsAbove(env, pos, log, st, n - 1, n);
      assert env.host.isAir(At(mid.blocks, Up(pos, n)), mid.blocks, Up(pos, n));
      assert st.log + seq(n - 1, k => Placement(Up(pos, k), log)) + [Placement(Up(pos, n - 1), log)]
          == st.log + seq(n, k => Placement(Up(pos, k), log));
    }
  }

  /** The trunk only appends to the log. */
  lemma {:induction false} TrunkLogGrows(env: Env, pos: Pos, log: BlockState, st: Gen, n: nat)
    ensures st.log <= TrunkScan(env, pos, log, st, n).log
    decreases n
  {
    if n > 0 {
      TrunkLogGrows(env, pos, log, st, n - 1);
    }
  }

  /** The placement t is among the entries of `logs` from index `from` on. */
  predicate LoggedSince(logs: seq<Placement>, from: nat, t: Placement)
  {
    exists i :: from <= i < |logs| && logs[i] == t
  }

  lemma LoggedSinceSnoc(logs: seq<Placement>, from: nat, t: Placement, extra: Placement)
    requires from <= |logs|
    ensures LoggedSince(logs + [extra], from, t) <==> LoggedSince(logs, from, t) || extra == t
  {
    if LoggedSince(logs + [extra], from, t) && extra != t {
      var i :| from <= i < |logs + [extra]| && (logs + [extra])[i] == t;
      assert logs[i] == t;
    }
    if LoggedSince(logs, from, t) {
      var i :| from <= i < |logs| && logs[i] == t;
      assert (logs + [extra])[i] == t;
    }
    if extra == t {
      assert (logs + [extra])[|logs|] == t;
    }
  }

  /** With a notifier that only records placements, the trunk logs a
      placement at offset k exactly when the host calls the block at offset
      k + 1 air or leaves. */
  lemma {:induction false} TrunkLogAt(env: Env, pos: Pos, log: BlockState, st: Gen, n: nat, k: int)
    requires !env.applies
    requires 0 <= k < n
    ensures var above := Up(pos, k + 1);
      var s := At(st.blocks, above);
      (LoggedSince(TrunkScan(env, pos, log, st, n).log, |st.log|, Placement(Up(pos, k), log))
       <==> env.host.isAir(s, st.blocks, above) || env.host.isLeaves(s, st.blocks, above))
    decreases n
  {
    var mid := TrunkScan(env, pos, log, st, n - 1);
    var r := TrunkScan(env, pos, log, st, n);
    TrunkKeepsWorld(env, pos, log, st, n - 1);
    TrunkLogGrows(env, pos, log, st, n - 1);
    var p := Placement(Up(pos, n - 1), log);
    var target := Placement(Up(pos, k), log);
    assert r == TrunkStep(env, pos, log, mid, n - 1);
    LoggedSinceSnoc(mid.log, |st.log|, target, p);
    if k == n - 1 {
      TrunkShape(env, pos, log, st, n - 1);
      assert !LoggedSince(mid.log, |st.log|, target) by {
        assert forall i :: |st.log| <= i < |mid.log| ==> mid.log[i] != target;
      }
      assert At(mid.blocks, Up(pos, n)) == At(st.blocks, Up(pos, n));
    } else {
      TrunkLogAt(env, pos, log, st, n - 1, k);
      assert p != target;
    }
  }

  /** When the host calls nothing air or leaves, no log is placed at all:
      a successful `grow` need not emit a trunk. */
  lemma {:induction false} TrunkMayBeEmpty(env: Env, pos: Pos, log: BlockState, st: Gen, n: nat)
    requires forall s, b, p :: !env.host.isAir(s, b, p) && !env.host.isLeaves(s, b, p)
    ensures TrunkScan(env, pos, log, st, n) == st
    decreases n
  {
    if n > 0 {
      TrunkMayBeEmpty(env, pos, log, st, n - 1);
    }
  }

  // ---------------------------------------------------------------------
  // grow
  // ---------------------------------------------------------------------

  datatype Outcome = Outcome(grown: bool, after: Gen)

  /** The block below the origin. */
  function Ground(pos: Pos): Pos
  {
    Up(pos, -1)
  }

  /** grow, with `getMinTrunkHeight` and the lemon's override of `grow`. */
  function GrowSpec(species: Species, env: Env, worldHeight: int, pos: Pos,
                    leaves: BlockState, log: BlockState, sapling: Block, st: Gen): Outcome
  {
    if species.Lemon? then Outcome(false, st)
    else
      var (roll, st1) := Draw(env, st, 3);
      var minHeight := MinTrunkHeight(roll);
      if !(pos.y >= 1 && pos.y + minHeight + 1 <= worldHeight) then Outcome(false, st1)
      else if !Clear(species, st1.blocks, pos, minHeight) then Outcome(false, st1)
      else
        var state := At(st1.blocks, Ground(pos));
        if !(env.host.canSustainPlant(state, st1.blocks, Ground(pos), sapling) && pos.y < worldHeight - minHeight - 1)
        then Outcome(false, st1)
        else
          var st2 := st1.(blocks := env.host.onPlantGrow(state, st1.blocks, Ground(pos), pos));
          var st3 := LeafScan(env, pos, minHeight, leaves, st2, Canopy(pos, minHeight));
          Outcome(true, TrunkScan(env, pos, WithAxisY(log), st3, minHeight))
  }

  /** GrowSpec of a species that does not override grow, spelled out as
      one verdict and one outcome. */
  lemma GrowSpecSteps(species: Species, env: Env, worldHeight: int, pos: Pos,
                      leaves: BlockState, log: BlockState, sapling: Block, st: Gen)
    requires !species.Lemon?
    ensures var st1 := Draw(env, st, 3).1;
      var h := DrawnHeight(env, st);
      var ground := At(st.blocks, Ground(pos));
      var ok := && pos.y >= 1 && pos.y + h + 1 <= worldHeight
                && Clear(species, st.blocks, pos, h)
                && env.host.canSustainPlant(ground, st.blocks, Ground(pos), sapling)
                && pos.y < worldHeight - h - 1;
      GrowSpec(species, env, worldHeight, pos, leaves, log, sapling, st)
        == if !ok then Outcome(false, st1)
           else Outcome(true, TrunkScan(env, pos, WithAxisY(log),
                  LeafScan(env, pos, h, leaves, st1.(blocks := env.host.onPlantGrow(ground, st.blocks, Ground(pos), pos)), Canopy(pos, h)), h))
  {
  }

  /** The trunk height grow draws first. */
  function DrawnHeight(env: Env, st: Gen): int
  {
    MinTrunkHeight(env.stream(st.consumed) % 3)
  }

  /** grow succeeds iff the species has not switched growth off, the origin
      is at least at y = 1, the tree plus one block stays strictly below the
      world height (the lenient first check is subsumed by the strict one),
      the clearance test passes and the ground sustains the sapling. */
  lemma GrowAccepts(species: Species, env: Env, worldHeight: int, pos: Pos,
                    leaves: BlockState, log: BlockState, sapling: Block, st: Gen)
    ensures var h := DrawnHeight(env, st);
      GrowSpec(species, env, worldHeight, pos, leaves, log, sapling, st).grown <==>
        && !species.Lemon?
        && 1 <= pos.y
        && pos.y + h + 1 < worldHeight
        && Clear(species, st.blocks, pos, h)
        && env.host.canSustainPlant(At(st.blocks, Ground(pos)), st.blocks, Ground(pos), sapling)
  {
  }

  /** A rejected grow calls the notifier not once and leaves the world
      alone; it has taken the trunk-height draw unless the species is the
      lemon, which takes none. */
  lemma GrowRejectsCleanly(species: Species, env: Env, worldHeight: int, pos: Pos,
                           leaves: BlockState, log: BlockState, sapling: Block, st: Gen)
    requires !GrowSpec(species, env, worldHeight, pos, leaves, log, sapling, st).grown
    ensures var r := GrowSpec(species, env, worldHeight, pos, leaves, log, sapling, st).after;
      && r.log == st.log
      && r.blocks == st.blocks
      && (species.Lemon? ==> r == st)
      && (!species.Lemon? ==> r.consumed == st.consumed + 1 && r.bounds == st.bounds + [3])
  {
  }

  /** The canopy, then the trunk, from state st: the leaves come first and
      lie in the canopy, the logs follow in the origin's column, going up. */
  lemma LeavesThenTrunk(env: Env, pos: Pos, h: int, leaves: BlockState, log: BlockState, st: Gen)
    returns (split: nat)
    ensures var r := TrunkScan(env, pos, WithAxisY(log), LeafScan(env, pos, h, leaves, st, Canopy(pos, h)), if h < 0 then 0 else h);
      && st.log <= r.log
      && |st.log| <= split <= |r.log|
      && (forall i :: |st.log| <= i < split ==> r.log[i].state == leaves && InCanopy(pos, h, r.log[i].pos))
      && (forall i :: split <= i < |r.log| ==>
            && r.log[i].state == WithAxisY(log)
            && r.log[i].pos.x == pos.x && r.log[i].pos.z == pos.z
            && pos.y <= r.log[i].pos.y < pos.y + h)
      && (forall i, j :: split <= i < j < |r.log| ==> r.log[i].pos.y < r.log[j].pos.y)
      && r.consumed == st.consumed + 16
      && r.bounds == st.bounds + Twos(16)
  {
    var st3 := LeafScan(env, pos, h, leaves, st, Canopy(pos, h));
    var n: nat := if h < 0 then 0 else h;
    CanopyShape(env, pos, h, leaves, st);
    TrunkShape(env, pos, WithAxisY(log), st3, n);
    var r := TrunkScan(env, pos, WithAxisY(log), st3, n);
    split := |st3.log|;
    forall i | |st.log| <= i < split
      ensures r.log[i] == st3.log[i]
    {
    }
  }

  /** A successful grow first notifies the canopy leaves, then the trunk
      logs; the leaves lie in the canopy of the drawn height, the logs in the
      origin's column below it, going up, with the vertical axis; it has
      taken the trunk-height draw and then the sixteen corner draws. */
  lemma GrowLeavesThenTrunk(species: Species, env: Env, worldHeight: int, pos: Pos,
                            leaves: BlockState, log: BlockState, sapling: Block, st: Gen)
    returns (split: nat)
    requires GrowSpec(species, env, worldHeight, pos, leaves, log, sapling, st).grown
    ensures var r := GrowSpec(species, env, worldHeight, pos, leaves, log, sapling, st).after;
      var h := DrawnHeight(env, st);
      && st.log <= r.log
      && |st.log| <= split <= |r.log|
      && (forall i :: |st.log| <= i < split ==> r.log[i].state == leaves && InCanopy(pos, h, r.log[i].pos))
      && (forall i :: split <= i < |r.log| ==>
            && r.log[i].state == WithAxisY(log)
            && r.log[i].pos.x == pos.x && r.log[i].pos.z == pos.z
            && pos.y <= r.log[i].pos.y < pos.y + h)
      && (forall i, j :: split <= i < j < |r.log| ==> r.log[i].pos.y < r.log[j].pos.y)
      && r.consumed == st.consumed + 17
      && r.bounds == st.bounds + [3] + Twos(16)
  {
    GrowSpecSteps(species, env, worldHeight, pos, leaves, log, sapling, st);
    var h := DrawnHeight(env, st);
    var st1 := Draw(env, st, 3).1;
    var ground := At(st.blocks, Ground(pos));
    var st2 := st1.(blocks := env.host.onPlantGrow(ground, st.blocks, Ground(pos), pos));
    split := LeavesThenTrunk(env, pos, h, leaves, log, st2);
    assert h >= 0;
    assert st.bounds + [3] + Twos(16) == st2.bounds + Twos(16);
  }

  /** The lemon never grows and leaves the world and the random source as
      they were, whatever it is given. */
  lemma LemonNeverGrows(env: Env, worldHeight: int, pos: Pos,
                        leaves: BlockState, log: BlockState, sapling: Block, st: Gen)
    ensures GrowSpec(Lemon, env, worldHeight, pos, leaves, log, sapling, st) == Outcome(false, st)
  {
  }

  // ---------------------------------------------------------------------
  // updatePlacePercentage
  // ---------------------------------------------------------------------

  /** The two counters, as Java `int`s. */
  datatype Stats = Stats(checked: int32, placed: int32)

  /** The counters after one call, and whether that call logs a report. */
  datatype Recorded = Recorded(stats: Stats, reported: bool)

  /** One call of updatePlacePercentage. */
  function Record(s: Stats, didSucceed: bool): Recorded
  {
    var checked := Inc(s.checked);
    var placed := if didSucceed then Inc(s.placed) else s.placed;
    Recorded(Stats(checked, placed), Rem(checked as int, 1000) == 0)
  }

  predicate StatsInvariant(s: Stats)
  {
    0 <= s.placed as int <= s.checked as int
  }

  /** Short of overflow, a call counts one more chunk checked, one more
      placed iff it succeeded, keeps `placed <= checked`, and reports iff the
      new checked count is a multiple of 1000. */
  lemma RecordStep(s: Stats, didSucceed: bool)
    requires StatsInvariant(s) && s.checked as int < INT_MAX
    ensures var r := Record(s, didSucceed);
      && r.stats.checked as int == s.checked as int + 1
      && r.stats.placed as int == s.placed as int + (if didSucceed then 1 else 0)
      && StatsInvariant(r.stats)
      && (r.reported <==> r.stats.checked as int % 1000 == 0)
  {
  }

  /** At Integer.MAX_VALUE the checked counter wraps to Integer.MIN_VALUE. */
  lemma RecordWraps(s: Stats, didSucceed: bool)
    requires s.checked as int == INT_MAX
    ensures Record(s, didSucceed).stats.checked as int == INT_MIN
    ensures !StatsInvariant(Record(s, didSucceed).stats)
  {
  }

  /** A run of calls: the final counters and how many reports were logged. */
  function RecordAll(s: Stats, outcomes: seq<bool>): (Stats, nat)
    decreases |outcomes|
  {
    if |outcomes| == 0 then (s, 0)
    else
      var (mid, reports) := RecordAll(s, outcomes[..|outcomes| - 1]);
      var r := Record(mid, outcomes[|outcomes| - 1]);
      (r.stats, reports + (if r.reported then 1 else 0))
  }

  /** From fresh counters, fewer than 2^31 calls count every call, count the
      successful ones, and log one report per thousand calls. */
  lemma {:induction false} RecordRun(outcomes: seq<bool>)
    requires |outcomes| <= INT_MAX
    ensures var (s, reports) := RecordAll(Stats(0, 0), outcomes);
      && s.checked as int == |outcomes|
      && s.placed as int == multiset(outcomes)[true]
      && reports == |outcomes| / 1000
    decreases |outcomes|
  {
    if |outcomes| > 0 {
      var prefix := outcomes[..|outcomes| - 1];
      RecordRun(prefix);
      assert outcomes == prefix + [outcomes[|outcomes| - 1]];
      assert multiset(outcomes) == multiset(prefix) + multiset{outcomes[|outcomes| - 1]};
      assert multiset(prefix)[true] <= |prefix| by {
        assert |multiset(prefix)| == |prefix|;
        assert multiset(prefix)[true] <= |multiset(prefix)|;
      }
    }
  }

  // ---------------------------------------------------------------------
  // setupBlocks and initRecipes: which block and meta stand for a seed
  // ---------------------------------------------------------------------

  /** An index into one of the block lists and a metadata value. */
  datatype BlockRef = BlockRef(group: int, meta: int)

  /** Java's `x << n` on a value that does not overflow. */
  function Shl(x: int, n: nat): (r: int)
    ensures n == 1 ==> r == 2 * x
    ensures n == 2 ==> r == 4 * x
  {
    if n == 0 then x else 2 * Shl(x, n - 1)
  }

  /** Leaves and logs: list `seed / 4`, meta `seed % 4 << 2`. */
  function LeavesRef(seed: int): (r: BlockRef)
    ensures seed >= 0 ==> r.group >= 0 && r.meta in {0, 4, 8, 12}
    ensures seed >= 0 ==> r.group * 4 + r.meta / 4 == seed
  {
    BlockRef(Div(seed, 4), Shl(Rem(seed, 4), 2))
  }

  /** Saplings: list `seed / 8`, meta `seed % 8 << 1`. */
  function SaplingRef(seed: int): (r: BlockRef)
    ensures seed >= 0 ==> r.group >= 0 && r.meta % 2 == 0 && 0 <= r.meta <= 14
    ensures seed >= 0 ==> r.group * 8 + r.meta / 2 == seed
  {
    BlockRef(Div(seed, 8), Shl(Rem(seed, 8), 1))
  }

  /** Planks in initRecipes: list `seed / 16`, meta `seed % 16`. */
  function PlanksRef(seed: int): (r: BlockRef)
    ensures seed >= 0 ==> r.group >= 0 && 0 <= r.meta < 16
    ensures seed >= 0 ==> r.group * 16 + r.meta == seed
  {
    BlockRef(Div(seed, 16), Rem(seed, 16))
  }

  /** Different non-negative seeds never share a leaves, log, sapling or
      planks slot. */
  lemma SlotsDistinct(a: int, b: int)
    requires 0 <= a && 0 <= b && a != b
    ensures LeavesRef(a) != LeavesRef(b)
    ensures SaplingRef(a) != SaplingRef(b)
    ensures PlanksRef(a) != PlanksRef(b)
  {
    var la, lb := LeavesRef(a), LeavesRef(b);
    var sa, sb := SaplingRef(a), SaplingRef(b);
    var pa, pb := PlanksRef(a), PlanksRef(b);
  }

  /** Every seed below the number of trees has its blocks among those `init`
      creates for that many trees. */
  lemma SlotsWithinInit(seed: int, treeCount: nat)
    requires 0 <= seed < treeCount
    ensures 0 <= LeavesRef(seed).group < treeCount / 4 + 1
    ensures 0 <= SaplingRef(seed).group < treeCount / 8 + 1
  {
    assert seed / 4 <= treeCount / 4;
    assert seed / 8 <= treeCount / 8;
  }

  /** The lemon, seed 4: leaves and log list 1 meta 0, sapling list 0 meta 8,
      planks list 0 meta 4. */
  lemma LemonSlots()
    ensures LeavesRef(LemonTree.Seed) == BlockRef(1, 0)
    ensures SaplingRef(LemonTree.Seed) == BlockRef(0, 8)
    ensures PlanksRef(LemonTree.Seed) == BlockRef(0, 4)
  {
  }

  /** An item stack: a slot and a count. */
  datatype Stack = Stack(ref: BlockRef, count: nat)

  /** The shapeless recipe initRecipes registers: one log gives four planks. */
  datatype Recipe = Recipe(name: string, output: Stack, input: Stack)

  function PlanksRecipe(name: string, seed: int): (r: Recipe)
    ensures r.output.count == 4 && r.input.count == 1
    ensures r.name == name + "_wood_planks"
    ensures seed >= 0 ==> 0 <= r.output.ref.meta < 16 && r.input.ref.meta in {0, 4, 8, 12}
  {
    Recipe(name + "_wood_planks", Stack(PlanksRef(seed), 4), Stack(LeavesRef(seed), 1))
  }

  datatype Option<T> = None | Some(value: T)

  /** initRecipes against lists of the given sizes: the planks list and then
      the log list are indexed, and an index out of range throws, so no
      recipe is built. */
  function InitRecipes(counts: MetaBlocks.GroupCounts, name: string, seed: int): (r: Option<Recipe>)
    ensures r.Some? <==> 0 <= PlanksRef(seed).group < counts.planks && 0 <= LeavesRef(seed).group < counts.logs
    ensures r.Some? ==> r.value.name == name + "_wood_planks" && r.value.input == Stack(LeavesRef(seed), 1)
  {
    if !(0 <= PlanksRef(seed).group < counts.planks) then None
    else if !(0 <= LeavesRef(seed).group < counts.logs) then None
    else Some(PlanksRecipe(name, seed))
  }

  /** The recipe consumes the very log slot setupBlocks gives the tree. */
  lemma RecipeUsesTreeLog(name: string, seed: int)
    ensures PlanksRecipe(name, seed).input.ref == LeavesRef(seed)
  {
  }

  /** Which of the three block lists a state is taken from. */
  datatype Kind = LeavesKind | LogKind | SaplingKind

  /** A biome condition the tree is registered with; only its identity is kept. */
  datatype BiomeCondition = BiomeCondition(tag: string)

  /** One line of the diagnostic log: name, placed and checked counters. */
  datatype Diagnostic = Diagnostic(tree: string, placed: int32, checked: int32)

  /** The static list every tree adds itself to. */
  class Registry {
    var trees: seq<Tree>

    constructor ()
      ensures trees == []
    {
      trees := [];
    }
  }

  ghost function Snapshot(level: Level, random: Random): Gen
    reads level, random
  {
    Gen(level.blocks, level.log, random.consumed, random.bounds)
  }

  /** The innermost loop of isSuitableLocation: the cells `(x, y, z)` for
      `z0 <= z <= zMax`, stopping at the first one that is not replaceable. */
  method ScanColumn(level: Level, x: int, y: int, z0: int, zMax: int) returns (ok: bool, ghost inspected: seq<Pos>)
    ensures ok <==> AllReplaceable(level.blocks, Column(x, y, z0, zMax + 1))
    ensures ScanResult(level.blocks, Column(x, y, z0, zMax + 1), ok, inspected)
  {
    inspected := [];
    var checkZ := z0;
    while checkZ <= zMax
      invariant z0 <= checkZ && (checkZ <= zMax + 1 || checkZ == z0)
      invariant inspected == Column(x, y, z0, checkZ)
      invariant AllReplaceable(level.blocks, inspected)
    {
      var cell := Pos(x, y, checkZ);
      ColumnSnoc(x, y, z0, checkZ);
      if !IsReplaceable(level.blocks, cell) {
        ColumnPrefix(x, y, z0, checkZ + 1, zMax + 1);
        ScanFails(level.blocks, inspected, cell, Column(x, y, z0, zMax + 1));
        inspected := inspected + [cell];
        return false, inspected;
      }
      AllReplaceableSnoc(level.blocks, inspected, cell);
      inspected := inspected + [cell];
      checkZ := checkZ + 1;
    }
    ok := true;
  }

  /** The middle loop of isSuitableLocation: the square of radius r around
      `(cx, cz)` at height y, row by row, stopping at the first cell that is
      not replaceable. */
  method ScanSquare(level: Level, cx: int, y: int, cz: int, r: int) returns (ok: bool, ghost inspected: seq<Pos>)
    ensures ok <==> AllReplaceable(level.blocks, Square(cx, y, cz, r))
    ensures ScanResult(level.blocks, Square(cx, y, cz, r), ok, inspected)
  {
    inspected := [];
    var checkX := cx - r;
    while checkX <= cx + r
      invariant cx - r <= checkX && (checkX <= cx + r + 1 || checkX == cx - r)
      invariant inspected == Rows(cx, y, cz, r, checkX)
      invariant AllReplaceable(level.blocks, inspected)
    {
      var rowOk, row := ScanColumn(level, checkX, y, cz - r, cz + r);
      RowScanned(level.blocks, cx, y, cz, r, checkX, inspected, rowOk, row);
      if !rowOk {
        inspected := inspected + row;
        return false, inspected;
      }
      inspected := inspected + row;
      checkX := checkX + 1;
    }
    ok := true;
  }

  // ---------------------------------------------------------------------
  // The species object
  // ---------------------------------------------------------------------

  class Tree {
    const name: string
    const seed: int
    const species: Species
    /** The states setupBlocks picks; before it runs they read as air. */
    var leavesState: BlockState
    var logState: BlockState
    var saplingState: BlockState
    var totalChunksChecked: int32
    var totalChunksPlaced: int32
    /** The reports updatePlacePercentage has logged. */
    var diagnostics: seq<Diagnostic>
    var biomeConditions: seq<BiomeCondition>

    /** GTFOTree(name, seed): the new tree appends itself to the registry. */
    constructor (name: string, seed: int, species: Species, registry: Registry)
      modifies registry
      ensures this.name == name && this.seed == seed && this.species == species
      ensures leavesState == AIR_STATE && logState == AIR_STATE && saplingState == AIR_STATE
      ensures totalChunksChecked == 0 && totalChunksPlaced == 0
      ensures diagnostics == [] && biomeConditions == []
      ensures registry.trees == old(registry.trees) + [this]
    {
      this.name := name;
      this.seed := seed;
      this.species := species;
      leavesState, logState, saplingState := AIR_STATE, AIR_STATE, AIR_STATE;
      totalChunksChecked, totalChunksPlaced := 0, 0;
      diagnostics, biomeConditions := [], [];
      new;
      registry.trees := registry.trees + [this];
    }

    /** LemonTree(): `super("lemon", 4)`. */
    constructor OfLemon(registry: Registry)
      modifies registry
      ensures name == LemonTree.Name && seed == LemonTree.Seed && species == Lemon
      ensures leavesState == AIR_STATE && logState == AIR_STATE && saplingState == AIR_STATE
      ensures totalChunksChecked == 0 && totalChunksPlaced == 0
      ensures diagnostics == [] && biomeConditions == []
      ensures registry.trees == old(registry.trees) + [this]
    {
      name := LemonTree.Name;
      seed := LemonTree.Seed;
      species := Lemon;
      leavesState, logState, saplingState := AIR_STATE, AIR_STATE, AIR_STATE;
      totalChunksChecked, totalChunksPlaced := 0, 0;
      diagnostics, biomeConditions := [], [];
      new;
      registry.trees := registry.trees + [this];
    }

    /** updatePlacePercentage(didSucceed). */
    method UpdatePlacePercentage(didSucceed: bool)
      modifies this`totalChunksChecked, this`totalChunksPlaced, this`diagnostics
      ensures var r := Record(Stats(old(totalChunksChecked), old(totalChunksPlaced)), didSucceed);
        && Stats(totalChunksChecked, totalChunksPlaced) == r.stats
        && diagnostics == old(diagnostics) + (if r.reported then [Diagnostic(name, totalChunksPlaced, totalChunksChecked)] else [])
    {
      totalChunksChecked := Inc(totalChunksChecked);
      if didSucceed {
        totalChunksPlaced := Inc(totalChunksPlaced);
      }
      if Rem(totalChunksChecked as int, 1000) == 0 {
        diagnostics := diagnostics + [Diagnostic(name, totalChunksPlaced, totalChunksChecked)];
      }
    }

    /** addCondition(condition): appends and returns the tree itself. */
    method AddCondition(condition: BiomeCondition) returns (self: Tree)
      modifies this`biomeConditions
      ensures biomeConditions == old(biomeConditions) + [condition]
      ensures self == this
    {
      biomeConditions := biomeConditions + [condition];
      self := this;
    }

    /** setupBlocks against lists of the given sizes. A list index out of
        range throws: the fields set before it keep their new value, the rest
        their old one, and `ok` is false. */
    method SetupBlocks(counts: MetaBlocks.GroupCounts, stateFromMeta: (Kind, BlockRef) -> BlockState) returns (ok: bool)
      modifies this`leavesState, this`logState, this`saplingState
      ensures var leavesOk := 0 <= LeavesRef(seed).group < counts.leaves;
        var logOk := leavesOk && LeavesRef(seed).group < counts.logs;
        var saplingOk := logOk && 0 <= SaplingRef(seed).group < counts.saplings;
        && leavesState == (if leavesOk then stateFromMeta(LeavesKind, LeavesRef(seed)) else old(leavesState))
        && logState == (if logOk then stateFromMeta(LogKind, LeavesRef(seed)) else old(logState))
        && saplingState == (if saplingOk then stateFromMeta(SaplingKind, SaplingRef(seed)) else old(saplingState))
        && (ok <==> saplingOk)
    {
      var leaves := LeavesRef(seed);
      if !(0 <= leaves.group < counts.leaves) {
        return false;
      }
      leavesState := stateFromMeta(LeavesKind, leaves);
      var log := LeavesRef(seed);
      if !(0 <= log.group < counts.logs) {
        return false;
      }
      logState := stateFromMeta(LogKind, log);
      var sapling := SaplingRef(seed);
      if !(0 <= sapling.group < counts.saplings) {
        return false;
      }
      saplingState := stateFromMeta(SaplingKind, sapling);
      return true;
    }

    /** getApple: the lemon draws `nextInt(20)` from the given random
        source; every other species hands out nothing and draws nothing. */
    method GetApple(random: Random) returns (drop: LemonTree.Drop)
      modifies random`consumed, random`bounds
      ensures species.Lemon? ==>
        && random.consumed == old(random.consumed) + 1 && random.bounds == old(random.bounds) + [20]
        && (drop == LemonTree.LemonFruit <==> random.stream(old(random.consumed)) % 20 == 0)
      ensures !species.Lemon? ==>
        drop == LemonTree.Empty && random.consumed == old(random.consumed) && random.bounds == old(random.bounds)
    {
      if species.Lemon? {
        var roll := random.NextInt(20);
        drop := LemonTree.GetApple(roll);
      } else {
        drop := LemonTree.Empty;
      }
    }

    /** isSuitableLocation(world, pos, minHeight): the layers 0 .. minHeight + 1,
        each the square of that height's Moore radius, with an early
        `return false` at the first cell that is not replaceable. */
    method IsSuitableLocation(level: Level, pos: Pos, minHeight: int) returns (ok: bool, ghost inspected: seq<Pos>)
      ensures ok <==> Clear(species, level.blocks, pos, minHeight)
      ensures ScanResult(level.blocks, ClearanceCells(species, pos, minHeight, minHeight + 2), ok, inspected)
    {
      inspected := [];
      var height := 0;
      while height <= 1 + minHeight
        invariant 0 <= height && (height <= minHeight + 2 || height == 0)
        invariant inspected == ClearanceCells(species, pos, minHeight, height)
        invariant AllReplaceable(level.blocks, inspected)
      {
        var extraSpaceNeeded := MooreRadiusAtHeight(species, height, minHeight);
        var layerOk, layer := ScanSquare(level, pos.x, pos.y + height, pos.z, extraSpaceNeeded);
        LayerScanned(species, level.blocks, pos, minHeight, height, inspected, layerOk, layer);
        inspected := inspected + layer;
        if !layerOk {
          return false, inspected;
        }
        height := height + 1;
      }
      AllLayersScanned(species, level.blocks, pos, minHeight, height, inspected);
      ok := true;
    }

    /** generateLeaves(world, pos, height, random, notifier): the four
        canopy layers from `pos.y - 3 + height` up to `pos.y + height`. */
    method GenerateLeaves(level: Level, pos: Pos, height: int, random: Random, host: Host)
      modifies level`blocks, level`log, random`consumed, random`bounds
      ensures Snapshot(level, random)
        == LeafScan(Env(host, level.applies, random.stream), pos, height, leavesState, old(Snapshot(level, random)), Canopy(pos, height))
    {
      ghost var env := Env(host, level.applies, random.stream);
      ghost var st0 := Snapshot(level, random);
      var foliageY := pos.y - 3 + height;
      while foliageY <= pos.y + height
        invariant CanopyBase(pos, height) <= foliageY <= pos.y + height + 1
        invariant Snapshot(level, random) == LeafScan(env, pos, height, leavesState, st0, CanopyCells(pos, height, foliageY))
      {
        var foliageLayer := foliageY - (pos.y + height);
        var foliageLayerRadius := LeafRadius(foliageLayer);
        ghost var mid := Snapshot(level, random);
        GenerateLeafLayer(level, pos, height, random, host, leavesState, foliageY, foliageLayer, foliageLayerRadius);
        CanopyScanStep(env, pos, height, leavesState, st0, mid, Snapshot(level, random), foliageY);
        foliageY := foliageY + 1;
      }
    }

    /** One canopy layer of generateLeaves: the rows `foliageX` from
        `pos.x - radius` to `pos.x + radius`. */
    static method GenerateLeafLayer(level: Level, pos: Pos, height: int, random: Random, host: Host, leaves: BlockState,
                             foliageY: int, foliageLayer: int, foliageLayerRadius: int)
      requires foliageLayer == foliageY - (pos.y + height) && foliageLayerRadius == LeafRadius(foliageLayer)
      requires -3 <= foliageLayer <= 0
      modifies level`blocks, level`log, random`consumed, random`bounds
      ensures Snapshot(level, random)
        == LeafScan(Env(host, level.applies, random.stream), pos, height, leaves, old(Snapshot(level, random)),
                    Square(pos.x, foliageY, pos.z, foliageLayerRadius))
    {
      ghost var env := Env(host, level.applies, random.stream);
      ghost var st0 := Snapshot(level, random);
      var foliageX := pos.x - foliageLayerRadius;
      while foliageX <= pos.x + foliageLayerRadius
        invariant pos.x - foliageLayerRadius <= foliageX <= pos.x + foliageLayerRadius + 1
        invariant Snapshot(level, random)
          == LeafScan(env, pos, height, leaves, st0, Rows(pos.x, foliageY, pos.z, foliageLayerRadius, foliageX))
      {
        ghost var mid := Snapshot(level, random);
        GenerateLeafRow(level, pos, height, random, host, leaves, foliageX, foliageY, foliageLayer, foliageLayerRadius);
        RowsScanStep(env, pos, height, leaves, st0, mid, Snapshot(level, random), foliageY, foliageLayerRadius, foliageX);
        foliageX := foliageX + 1;
      }
    }

    /** One row of a canopy layer: the cells `foliageZ` from `pos.z - radius`
        to `pos.z + radius`; a corner cell takes a `nextInt(2)` draw, and only
        a non-zero draw below the top layer lets it have leaves. */
    static method GenerateLeafRow(level: Level, pos: Pos, height: int, random: Random, host: Host, leaves: BlockState,
                           foliageX: int, foliageY: int, foliageLayer: int, foliageLayerRadius: int)
      requires foliageLayer == foliageY - (pos.y + height) && foliageLayerRadius == LeafRadius(foliageLayer)
      requires -3 <= foliageLayer <= 0
      modifies level`blocks, level`log, random`consumed, random`bounds
      ensures Snapshot(level, random)
        == LeafScan(Env(host, level.applies, random.stream), pos, height, leaves, old(Snapshot(level, random)),
                    Column(foliageX, foliageY, pos.z - foliageLayerRadius, pos.z + foliageLayerRadius + 1))
    {
      ghost var env := Env(host, level.applies, random.stream);
      ghost var st0 := Snapshot(level, random);
      var foliageZ := pos.z - foliageLayerRadius;
      while foliageZ <= pos.z + foliageLayerRadius
        invariant pos.z - foliageLayerRadius <= foliageZ <= pos.z + foliageLayerRadius + 1
        invariant Snapshot(level, random)
          == LeafScan(env, pos, height, leaves, st0, Column(foliageX, foliageY, pos.z - foliageLayerRadius, foliageZ))
      {
        ghost var mid := Snapshot(level, random);
        var newLeavesPos := Pos(foliageX, foliageY, foliageZ);
        GenerateLeafCell(level, pos, height, random, host, leaves, newLeavesPos, foliageLayer, foliageLayerRadius);
        ColumnScanStep(env, pos, height, leaves, st0, mid, Snapshot(level, random),
                       foliageX, foliageY, pos.z - foliageLayerRadius, foliageZ);
        foliageZ := foliageZ + 1;
      }
    }

    /** The body of the innermost loop of generateLeaves, for the cell
        `newLeavesPos`: `Math.abs(dx) != radius || Math.abs(dz) != radius ||
        random.nextInt(2) != 0 && foliageLayer != 0` decides whether to try,
        then the host decides whether leaves may replace what is there. */
    static method GenerateLeafCell(level: Level, pos: Pos, height: int, random: Random, host: Host, leaves: BlockState,
                            newLeavesPos: Pos, foliageLayer: int, foliageLayerRadius: int)
      requires foliageLayer == newLeavesPos.y - (pos.y + height) && foliageLayerRadius == LeafRadius(foliageLayer)
      modifies level`blocks, level`log, random`consumed, random`bounds
      ensures Snapshot(level, random)
        == LeafStep(Env(host, level.applies, random.stream), pos, height, leaves, old(Snapshot(level, random)), newLeavesPos)
    {
      ghost var env := Env(host, level.applies, random.stream);
      ghost var mid := Snapshot(level, random);
      var attempt := true;
      ghost var st1 := mid;
      if Abs(newLeavesPos.x - pos.x) == foliageLayerRadius && Abs(newLeavesPos.z - pos.z) == foliageLayerRadius {
        var roll := random.NextInt(2);
        st1 := Draw(env, mid, 2).1;
        assert roll == Draw(env, mid, 2).0;
        attempt := roll != 0 && foliageLayer != 0;
      }
      assert Snapshot(level, random) == st1;
      if attempt {
        var state := At(level.blocks, newLeavesPos);
        if host.blockIsReplaceable(state.block, level.blocks, pos) || host.canBeReplacedByLeaves(state, level.blocks, pos) {
          level.Notify(newLeavesPos, leaves);
          assert Snapshot(level, random) == Notified(env, st1, newLeavesPos, leaves);
        }
      }
    }

    /** generateTrunk(world, pos, minHeight, notifier). */
    method GenerateTrunk(level: Level, pos: Pos, minHeight: int, host: Host, ghost random: Random)
      modifies level`blocks, level`log
      ensures Snapshot(level, random)
        == TrunkScan(Env(host, level.applies, random.stream), pos, WithAxisY(logState), old(Snapshot(level, random)), if minHeight < 0 then 0 else minHeight)
    {
      ghost var env := Env(host, level.applies, random.stream);
      ghost var st0 := Snapshot(level, random);
      var upN := pos;
      var height := 0;
      while height < minHeight
        invariant 0 <= height && (minHeight >= 0 ==> height <= minHeight) && (minHeight < 0 ==> height == 0)
        invariant upN == Up(pos, height)
        invariant Snapshot(level, random) == TrunkScan(env, pos, WithAxisY(logState), st0, height)
      {
        upN := Up(upN, 1);
        var state := At(level.blocks, upN);
        if host.isAir(state, level.blocks, upN) || host.isLeaves(state, level.blocks, upN) {
          level.Notify(Up(pos, height), WithAxisY(logState));
        }
        height := height + 1;
      }
    }

    /** grow(world, pos, random, notifier); the lemon's override answers false
        at once. */
    method Grow(level: Level, pos: Pos, random: Random, host: Host) returns (grown: bool)
      modifies level`blocks, level`log, random`consumed, random`bounds
      ensures var r := GrowSpec(species, Env(host, level.applies, random.stream), level.height, pos,
                                leavesState, logState, saplingState.block, old(Snapshot(level, random)));
        grown == r.grown && Snapshot(level, random) == r.after
    {
      if species.Lemon? {
        return false;
      }
      ghost var env := Env(host, level.applies, random.stream);
      ghost var st := Snapshot(level, random);
      GrowSpecSteps(species, env, level.height, pos, leavesState, logState, saplingState.block, st);
      var roll := random.NextInt(3);
      ghost var st1 := Snapshot(level, random);
      assert st1 == Draw(env, st, 3).1;
      var minHeight := MinTrunkHeight(roll);
      assert minHeight == DrawnHeight(env, st);
      if pos.y >= 1 && pos.y + minHeight + 1 <= level.height {
        var suitable, _ := IsSuitableLocation(level, pos, minHeight);
        if suitable {
          var state := At(level.blocks, Ground(pos));
          if host.canSustainPlant(state, level.blocks, Ground(pos), saplingState.block) && pos.y < level.height - minHeight - 1 {
            level.PlantGrow(host, state, Ground(pos), pos);
            ghost var st2 := Snapshot(level, random);
            assert st2 == st1.(blocks := host.onPlantGrow(state, st.blocks, Ground(pos), pos));
            GenerateLeaves(level, pos, minHeight, random, host);
            ghost var st3 := Snapshot(level, random);
            GenerateTrunk(level, pos, minHeight, host, random);
            assert Snapshot(level, random) == TrunkScan(env, pos, WithAxisY(logState), st3, minHeight);
            return true;
          }
        }
      }
      return false;
    }
  }
}
