/** Terrain generation (`loadstone-world/src/terrain.rs`): a pointwise block function and the
    nested loops that fill a column. The noise is an arbitrary function of seed and column. */
module Terrain {
  import Arith
  import opened Machine
  import opened Chunk

  const MIN_SURFACE: int := MIN_Y + 8
  const MAX_SURFACE: int := 120
  const DIRT_DEPTH: int := 3

  datatype TerrainGenerator = TerrainGenerator(seed: u64, noise: (u64, int, int) -> int) {
    /** The rounded noise, clamped. */
    function SurfaceHeight(x: int, z: int): (h: int)
      ensures MIN_SURFACE <= h <= MAX_SURFACE
    {
      var height := noise(seed, x, z);
      if height < MIN_SURFACE then MIN_SURFACE else if height > MAX_SURFACE then MAX_SURFACE else height
    }

    function Block(x: int, y: int, z: int): u16 {
      if y == MIN_Y then BEDROCK
      else
        var surface := SurfaceHeight(x, z);
        if y > surface then AIR
        else if y == surface then GRASS_BLOCK
        else if y >= surface - DIRT_DEPTH then DIRT
        else STONE
    }
  }

  // ------------------------------------------------------------- what is generated

  /** The block a column at `pos` holds at offset `i`, counting x fastest, then z, then y. */
  function BlockAt(g: TerrainGenerator, pos: ChunkPos, i: nat): u16 {
    g.Block(pos.x * 16 + LocalX(i), MIN_Y + Offset(i), pos.z * 16 + LocalZ(i))
  }

  function SectionStates(g: TerrainGenerator, pos: ChunkPos, s: nat): (states: seq<u16>)
    ensures |states| == SECTION_VOLUME
  {
    var block: nat -> u16 := i => BlockAt(g, pos, s * SECTION_VOLUME + i);
    seq(SECTION_VOLUME, i requires 0 <= i => block(i))
  }

  function Generated(g: TerrainGenerator, pos: ChunkPos): (c: Column)
    ensures c.Valid() && c.pos == pos
  {
    CollapsedAreValid(g, pos);
    Column(pos, seq(SECTION_COUNT, s requires 0 <= s => Collapse(SectionStates(g, pos, s))))
  }

  lemma CollapsedAreValid(g: TerrainGenerator, pos: ChunkPos)
    ensures forall s: nat :: Collapse(SectionStates(g, pos, s)).Valid()
  {}

  /** The generated column agrees with the block function at a coordinate of its own columns
      exactly when y is at or above the bottom of the world: below it one says stone, the other air. */
  lemma GeneratedBlock(g: TerrainGenerator, pos: ChunkPos, x: int, y: int, z: int)
    requires x / 16 == pos.x && z / 16 == pos.z
    ensures Generated(g, pos).Block(x, y, z) == g.Block(x, y, z) <==> y >= MIN_Y
  {
    hide NonAir, Collapse, Section.At, Section.Valid, TerrainGenerator.Block;
    if InRange(y) {
      var s, i := (y - MIN_Y) / 16, Index((y - MIN_Y) % 16, z % 16, x % 16);
      CollapseKeepsBlocks(SectionStates(g, pos, s), i);
      CellCoordinates((y - MIN_Y) / 16, (y - MIN_Y) % 16, z % 16, x % 16);
      assert BlockAt(g, pos, s * SECTION_VOLUME + i) == g.Block(x, y, z);
    }
    OutsideBlock(g, x, y, z);
  }

  lemma CellCoordinates(s: nat, y: nat, z: nat, x: nat)
    requires y < 16 && z < 16 && x < 16
    ensures var k := s * SECTION_VOLUME + Index(y, z, x);
      k % 16 == x && k / 16 % 16 == z && k / 256 == s * 16 + y
  {
    var row := (s * 16 + y) * 16 + z;
    assert s * SECTION_VOLUME + Index(y, z, x) == row * 16 + x;
    Arith.DivMod(row, x, 16);
    Arith.DivMod(s * 16 + y, z, 16);
    Arith.DivDiv(row * 16 + x, 16, 16);
  }

  lemma OutsideBlock(g: TerrainGenerator, x: int, y: int, z: int)
    ensures y < MIN_Y ==> g.Block(x, y, z) != AIR
    ensures y >= MIN_Y + WORLD_HEIGHT ==> g.Block(x, y, z) == AIR
  {}

  // -------------------------------------------------------------- filling a column

  const COLUMN_VOLUME: nat := SECTION_COUNT * SECTION_VOLUME

  /** The part of the loops that is finished when column (`x`, `z`) has been filled below offset `y`. */
  predicate Done(i: nat, x: nat, z: nat, y: nat) { Before(LocalX(i), LocalZ(i), Offset(i), x, z, y) }

  function LocalX(i: nat): nat { i % 16 }

  function LocalZ(i: nat): nat { i / 16 % 16 }

  function Offset(i: nat): nat { i / 256 }

  /** Lexicographic order, as the nested loops go. */
  predicate Before(x0: nat, z0: nat, y0: nat, x: nat, z: nat, y: nat) {
    x0 < x || (x0 == x && (z0 < z || (z0 == z && y0 < y)))
  }

  lemma SameCell(x0: nat, z0: nat, y0: nat, x: nat, z: nat, y: nat, same: bool)
    requires same <==> x0 == x && z0 == z && y0 == y
    ensures Before(x0, z0, y0, x, z, y + 1) <==> same || Before(x0, z0, y0, x, z, y)
  {}

  /** `blocks` holds the generated blocks where the loops are done and air elsewhere. */
  ghost predicate Filled(g: TerrainGenerator, pos: ChunkPos, blocks: seq<u16>, x: nat, z: nat, y: nat) {
    && |blocks| == COLUMN_VOLUME
    && forall i :: 0 <= i < COLUMN_VOLUME ==> blocks[i] == if Done(i, x, z, y) then BlockAt(g, pos, i) else AIR
  }

  lemma FillOne(g: TerrainGenerator, pos: ChunkPos, blocks: seq<u16>, x: nat, z: nat, y: nat)
    requires x < 16 && z < 16 && y < WORLD_HEIGHT && Filled(g, pos, blocks, x, z, y)
    ensures (y * 16 + z) * 16 + x < COLUMN_VOLUME == |blocks|
    ensures Filled(g, pos, blocks[(y * 16 + z) * 16 + x := g.Block(pos.x * 16 + x, MIN_Y + y, pos.z * 16 + z)], x, z,
      y + 1)
  {
    hide TerrainGenerator.Block, Done, LocalX, LocalZ, Offset;
    var k := (y * 16 + z) * 16 + x;
    CellIndex(k, x, z, y, k);
    assert BlockAt(g, pos, k) == g.Block(pos.x * 16 + x, MIN_Y + y, pos.z * 16 + z);
    forall i: nat | i < COLUMN_VOLUME
      ensures Done(i, x, z, y + 1) <==> i == k || Done(i, x, z, y)
    {
      DoneNext(i, x, z, y, k);
    }
  }

  lemma DoneNext(i: nat, x: nat, z: nat, y: nat, k: nat)
    requires x < 16 && z < 16 && k == (y * 16 + z) * 16 + x
    ensures Done(i, x, z, y + 1) <==> i == k || Done(i, x, z, y)
  {
    hide LocalX, LocalZ, Offset;
    CellIndex(i, x, z, y, k);
    SameCell(LocalX(i), LocalZ(i), Offset(i), x, z, y, i == k);
  }

  lemma CellIndex(i: nat, x: nat, z: nat, y: nat, k: nat)
    requires x < 16 && z < 16 && k == (y * 16 + z) * 16 + x
    ensures i == k <==> LocalX(i) == x && LocalZ(i) == z && Offset(i) == y
  {
    var q := i / 16;
    assert i / 256 == q / 16;
    assert q == q / 16 * 16 + q % 16 && i == q * 16 + i % 16;
    if i == k {
      assert q == y * 16 + z;
    }
  }

  /** Above the surface there is only air, so a column filled up to it is finished. */
  lemma FillColumnDone(g: TerrainGenerator, pos: ChunkPos, blocks: seq<u16>, x: nat, z: nat, y: nat)
    requires x < 16 && z < 16 && Filled(g, pos, blocks, x, z, y)
    requires y == g.SurfaceHeight(pos.x * 16 + x, pos.z * 16 + z) + 1 - MIN_Y
    ensures Filled(g, pos, blocks, x, z + 1, 0)
  {
    forall i: nat | i < COLUMN_VOLUME && Done(i, x, z + 1, 0) && !Done(i, x, z, y)
      ensures BlockAt(g, pos, i) == AIR
    {
      assert i % 16 == x && i / 16 % 16 == z && i / 256 >= y;
    }
    forall i: nat | i < COLUMN_VOLUME && Done(i, x, z, y)
      ensures Done(i, x, z + 1, 0)
    {}
  }

  lemma FillRowDone(g: TerrainGenerator, pos: ChunkPos, blocks: seq<u16>, x: nat)
    requires Filled(g, pos, blocks, x, 16, 0)
    ensures Filled(g, pos, blocks, x + 1, 0, 0)
  {
    hide BlockAt;
  }

  /** The sections hold `blocks`, 4096 apiece. */
  ghost predicate Contain(sections: seq<ChunkSection>, blocks: seq<u16>)
    reads sections
  {
    && |sections| == SECTION_COUNT && |blocks| == COLUMN_VOLUME
    && (forall i, j :: 0 <= i < j < |sections| ==> sections[i] != sections[j])
    && (forall s :: 0 <= s < SECTION_COUNT ==> sections[s].blockStates == Slice(blocks, s))
  }

  function Slice(blocks: seq<u16>, s: nat): (states: seq<u16>)
    requires |blocks| == COLUMN_VOLUME && s < SECTION_COUNT
    ensures |states| == SECTION_VOLUME
  {
    blocks[s * SECTION_VOLUME..s * SECTION_VOLUME + SECTION_VOLUME]
  }

  lemma SliceUpdate(blocks: seq<u16>, y: nat, z: nat, x: nat, state: u16, s: nat)
    requires |blocks| == COLUMN_VOLUME && y < WORLD_HEIGHT && z < 16 && x < 16 && s < SECTION_COUNT
    ensures (y * 16 + z) * 16 + x < COLUMN_VOLUME
    ensures Slice(blocks[(y * 16 + z) * 16 + x := state], s)
         == if s == y / 16 then Slice(blocks, s)[(y % 16 * 16 + z) * 16 + x := state] else Slice(blocks, s)
  {
    var k, i := (y * 16 + z) * 16 + x, (y % 16 * 16 + z) * 16 + x;
    assert k == y / 16 * SECTION_VOLUME + i && i < SECTION_VOLUME;
  }

  method StoreBlock(sections: seq<ChunkSection>, ghost blocks: seq<u16>, offset: nat, z: nat, x: nat, state: u16)
    requires offset < WORLD_HEIGHT && z < 16 && x < 16 && Contain(sections, blocks)
    modifies sections
    ensures (offset * 16 + z) * 16 + x < COLUMN_VOLUME
    ensures Contain(sections, blocks[(offset * 16 + z) * 16 + x := state])
  {
    hide Slice;
    var section := sections[offset / 16];
    section.blockStates := section.blockStates[(offset % 16 * 16 + z) * 16 + x := state];
    forall s | 0 <= s < SECTION_COUNT
      ensures sections[s].blockStates == Slice(blocks[(offset * 16 + z) * 16 + x := state], s)
    {
      SliceUpdate(blocks, offset, z, x, state, s);
    }
  }

  method AirSections() returns (sections: seq<ChunkSection>)
    ensures Contain(sections, seq(COLUMN_VOLUME, _ => AIR)) && fresh(sections)
  {
    sections := [];
    for k := 0 to SECTION_COUNT
      invariant |sections| == k && fresh(sections)
      invariant forall i, j :: 0 <= i < j < k ==> sections[i] != sections[j]
      invariant forall s :: 0 <= s < k ==> sections[s].blockStates == AllOf(AIR)
    {
      var section := new ChunkSection();
      section.blockStates := AllOf(AIR);
      sections := sections + [section];
    }
    ghost var blocks: seq<u16> := seq(COLUMN_VOLUME, _ => AIR);
    forall s | 0 <= s < SECTION_COUNT
      ensures Slice(blocks, s) == AllOf(AIR)
    {}
  }

  method FillSections(g: TerrainGenerator, pos: ChunkPos, sections: seq<ChunkSection>) returns (ghost blocks: seq<u16>)
    requires Contain(sections, seq(COLUMN_VOLUME, _ => AIR))
    modifies sections
    ensures Contain(sections, blocks) && Filled(g, pos, blocks, 16, 0, 0)
  {
    hide Contain, Filled, TerrainGenerator.Block;
    blocks := seq(COLUMN_VOLUME, _ => AIR);
    NothingFilled(g, pos);
    for x := 0 to 16
      invariant Contain(sections, blocks) && Filled(g, pos, blocks, x, 0, 0)
    {
      var worldX := pos.x * 16 + x;
      for z := 0 to 16
        invariant Contain(sections, blocks) && Filled(g, pos, blocks, x, z, 0)
      {
        var worldZ := pos.z * 16 + z;
        var surface := g.SurfaceHeight(worldX, worldZ);
        for y := MIN_Y to surface + 1
          invariant Contain(sections, blocks) && Filled(g, pos, blocks, x, z, y - MIN_Y)
        {
          var state := g.Block(worldX, y, worldZ);
          var offset := y - MIN_Y;
          StoreBlock(sections, blocks, offset, z, x, state);
          FillOne(g, pos, blocks, x, z, offset);
          blocks := blocks[(offset * 16 + z) * 16 + x := state];
        }
        FillColumnDone(g, pos, blocks, x, z, surface + 1 - MIN_Y);
      }
      FillRowDone(g, pos, blocks, x);
    }
  }

  lemma NothingFilled(g: TerrainGenerator, pos: ChunkPos)
    ensures Filled(g, pos, seq(COLUMN_VOLUME, _ => AIR), 0, 0, 0)
  {
    hide BlockAt;
  }

  method CollapseSections(sections: seq<ChunkSection>, ghost blocks: seq<u16>)
    requires Contain(sections, blocks)
    modifies sections
    ensures forall s :: 0 <= s < SECTION_COUNT ==> sections[s].Value() == Collapse(Slice(blocks, s))
  {
    hide Slice, NonAir;
    for k := 0 to SECTION_COUNT
      invariant forall s :: 0 <= s < k ==> sections[s].Value() == Collapse(Slice(blocks, s))
      invariant forall s :: k <= s < SECTION_COUNT ==> sections[s].blockStates == Slice(blocks, s)
    {
      sections[k].Recount();
      if sections[k].nonAirBlocks == 0 {
        sections[k].blockStates := [];
      }
    }
  }

  /** `TerrainGenerator::chunk`: the loops build the generated column. */
  method GenerateChunk(g: TerrainGenerator, pos: ChunkPos) returns (c: Chunk)
    ensures fresh(c) && fresh(c.sections)
    ensures c.Valid() && c.Value() == Generated(g, pos)
  {
    hide Filled, Collapse, Section.Valid, SectionStates, Slice;
    var sections := AirSections();
    ghost var blocks := FillSections(g, pos, sections);
    CollapseSections(sections, blocks);
    c := new Chunk(pos, sections);
    forall s | 0 <= s < SECTION_COUNT
      ensures sections[s].Value() == Generated(g, pos).sections[s]
    {
      SliceIsGenerated(g, pos, blocks, s);
    }
    assert c.Value().sections == Generated(g, pos).sections;
  }

  lemma SliceIsGenerated(g: TerrainGenerator, pos: ChunkPos, blocks: seq<u16>, s: nat)
    requires Filled(g, pos, blocks, 16, 0, 0) && s < SECTION_COUNT
    ensures Slice(blocks, s) == SectionStates(g, pos, s)
  {
    hide BlockAt;
  }
}
