/** Column heights and their packed form (`column_heights` and `pack_heightmap` of
    `loadstone-world/src/encode.rs`, `Heightmap::from_packed` of `loadstone-protocol/src/chunk.rs`). */
module Heightmap {
  import opened Machine
  import opened Arith
  import opened Packing
  import opened Chunk

  const COLUMNS: nat := 256
  const BITS: nat := 9

  /** One more than the topmost non-air offset below `n`, or 0. */
  function HeightBelow(c: Column, x: nat, z: nat, n: nat): (h: u16)
    requires c.Valid() && n <= WORLD_HEIGHT
    ensures h <= n
  {
    if n == 0 then 0
    else if c.Block(x, MIN_Y + n - 1, z) != AIR then n
    else HeightBelow(c, x, z, n - 1)
  }

  function Heights(c: Column): (heights: seq<u16>)
    requires c.Valid()
    ensures |heights| == COLUMNS
  {
    seq(COLUMNS, i requires 0 <= i < COLUMNS => HeightBelow(c, i % 16, i / 16, WORLD_HEIGHT))
  }

  /** What a height says: zero for a column of air, otherwise one more than the topmost non-air offset. */
  ghost predicate IsHeight(c: Column, x: nat, z: nat, h: nat)
    requires c.Valid()
  {
    && h <= WORLD_HEIGHT
    && (h > 0 ==> c.Block(x, MIN_Y + h - 1, z) != AIR)
    && (forall y :: MIN_Y + h <= y < MIN_Y + WORLD_HEIGHT ==> c.Block(x, y, z) == AIR)
  }

  lemma {:induction false} HeightBelowIsHighest(c: Column, x: nat, z: nat, n: nat)
    requires c.Valid() && n <= WORLD_HEIGHT
    ensures var h := HeightBelow(c, x, z, n);
      && (h > 0 ==> c.Block(x, MIN_Y + h - 1, z) != AIR)
      && (forall y :: MIN_Y + h <= y < MIN_Y + n ==> c.Block(x, y, z) == AIR)
  {
    hide Column.Block;
    if n > 0 && c.Block(x, MIN_Y + n - 1, z) == AIR {
      HeightBelowIsHighest(c, x, z, n - 1);
    }
  }

  /** A number is a column's height exactly when the function says so. */
  lemma HeightMeaning(c: Column, x: nat, z: nat, h: nat)
    requires c.Valid() && x < 16 && z < 16
    ensures IsHeight(c, x, z, h) <==> h == Heights(c)[z * 16 + x]
  {
    hide Column.Block;
    var i := z * 16 + x;
    assert i % 16 == x && i / 16 == z;
    HeightBelowIsHighest(c, x, z, WORLD_HEIGHT);
    var top := HeightBelow(c, x, z, WORLD_HEIGHT);
    assert Heights(c)[i] == top;
    var atH, atTop := c.Block(x, MIN_Y + h - 1, z), c.Block(x, MIN_Y + top - 1, z);
    assert IsHeight(c, x, z, h) && top < h ==> atH == AIR;
    assert IsHeight(c, x, z, h) && h < top ==> atTop == AIR;
  }

  // ------------------------------------------------------------------ the scan

  /** A section whose count is zero can be skipped. */
  lemma {:induction false} SkipEmptySection(c: Column, x: nat, z: nat, s: nat, y: nat)
    requires c.Valid() && s < SECTION_COUNT && c.sections[s].nonAir == 0 && y <= 16
    ensures HeightBelow(c, x, z, s * 16 + y) == HeightBelow(c, x, z, s * 16)
    decreases y
  {
    hide NonAir, Section.Valid;
    if y > 0 {
      var world := MIN_Y + s * 16 + y - 1;
      assert (world - MIN_Y) / 16 == s;
      EmptySectionIsAir(c.sections[s], Index((world - MIN_Y) % 16, z % 16, x % 16));
      SkipEmptySection(c, x, z, s, y - 1);
    }
  }

  lemma EmptySectionIsAir(s: Section, i: nat)
    requires s.Valid() && s.nonAir == 0 && i < SECTION_VOLUME
    ensures s.At(i) == AIR
  {
    CountIsZeroIffAir(s.states);
  }

  lemma BlockInSection(c: Column, x: nat, z: nat, s: nat, y: nat)
    requires c.Valid() && s < SECTION_COUNT && y < 16 && x < 16 && z < 16
    ensures c.Block(x, MIN_Y + s * 16 + y, z) == c.sections[s].At(Index(y, z, x))
  {
    hide Section.Valid, Section.At;
    var world := MIN_Y + s * 16 + y;
    assert (world - MIN_Y) / 16 == s && (world - MIN_Y) % 16 == y;
  }

  lemma ScanStep(c: Column, x: nat, z: nat, s: nat, y: nat)
    requires c.Valid() && s < SECTION_COUNT && c.sections[s].nonAir != 0 && y < 16 && x < 16 && z < 16
    ensures |c.sections[s].states| == SECTION_VOLUME
    ensures HeightBelow(c, x, z, s * 16 + y + 1)
         == if c.sections[s].states[Index(y, z, x)] != AIR then s * 16 + y + 1 else HeightBelow(c, x, z, s * 16 + y)
  {
    hide Column.Block, NonAir;
    assert NonAir([]) == 0 by { NoneInEmpty(); }
    BlockInSection(c, x, z, s, y);
  }

  lemma NoneInEmpty()
    ensures NonAir([]) == 0
  {}

  /** The two inner loops: down through the sections, down through the layers, stopping at the
      first block that is not air. */
  method ColumnHeight(c: Chunk, x: nat, z: nat) returns (height: u16)
    requires c.Valid() && x < 16 && z < 16
    ensures height == HeightBelow(c.Value(), x, z, WORLD_HEIGHT)
  {
    hide HeightBelow, Section.Valid;
    ghost var v := c.Value();
    for s := SECTION_COUNT downto 0
      invariant HeightBelow(v, x, z, s * 16) == HeightBelow(v, x, z, WORLD_HEIGHT)
    {
      assert v.sections[s].nonAir == c.sections[s].nonAirBlocks && v.sections[s].states == c.sections[s].blockStates;
      if c.sections[s].nonAirBlocks == 0 {
        SkipEmptySection(v, x, z, s, 16);
      } else {
        for y := 16 downto 0
          invariant HeightBelow(v, x, z, s * 16 + y) == HeightBelow(v, x, z, WORLD_HEIGHT)
        {
          ScanStep(v, x, z, s, y);
          if c.sections[s].blockStates[(y * 16 + z) * 16 + x] != AIR {
            var worldY := MIN_Y + (s * 16 + y);
            return worldY - MIN_Y + 1;
          }
        }
      }
    }
    height := 0;
    NoHeightBelowZero(v, x, z);
  }

  lemma NoHeightBelowZero(c: Column, x: nat, z: nat)
    requires c.Valid()
    ensures HeightBelow(c, x, z, 0) == 0
  {}

  method ColumnHeights(c: Chunk) returns (heights: seq<u16>)
    requires c.Valid()
    ensures heights == Heights(c.Value())
  {
    hide HeightBelow;
    ghost var v := c.Value();
    heights := seq(COLUMNS, _ => 0);
    for z := 0 to 16
      invariant |heights| == COLUMNS
      invariant forall i :: 0 <= i < z * 16 ==> heights[i] == HeightBelow(v, i % 16, i / 16, WORLD_HEIGHT)
    {
      for x := 0 to 16
        invariant |heights| == COLUMNS
        invariant forall i :: 0 <= i < z * 16 + x ==> heights[i] == HeightBelow(v, i % 16, i / 16, WORLD_HEIGHT)
      {
        var height := ColumnHeight(c, x, z);
        heights := heights[z * 16 + x := height];
      }
    }
  }

  // ------------------------------------------------------------------ packing

  /** `(world_height + 1).next_power_of_two().ilog2()` is the bit length of `world_height`. */
  method PackHeightmap(heights: seq<u16>, worldHeight: nat) returns (longs: seq<i64>)
    requires |heights| == COLUMNS && 1 <= BitLength(worldHeight) < 64
    ensures longs == AsLongs(PerLongWords(heights, BitLength(worldHeight)))
  {
    longs := PackPerLong(heights, BitLength(worldHeight));
  }

  function FromPacked(packed: seq<i64>): (values: seq<u16>)
    ensures |values| == COLUMNS
  {
    UnpackPerLong(packed, BITS, COLUMNS)
  }

  lemma WorldHeightBits()
    ensures BitLength(WORLD_HEIGHT) == BITS
  {
    assert BitLength(3) == 2;
    assert BitLength(12) == 4;
    assert BitLength(48) == 6;
    assert BitLength(192) == 8;
  }

  /** All 256 heights come back from the 37 words they are packed into. */
  lemma HeightsRoundTrip(c: Column)
    requires c.Valid()
    ensures |PerLongWords(Heights(c), BitLength(WORLD_HEIGHT))| == 37
    ensures FromPacked(AsLongs(PerLongWords(Heights(c), BitLength(WORLD_HEIGHT)))) == Heights(c)
  {
    hide PerLongWords, UnpackPerLong, HeightBelow, Pow2;
    WorldHeightBits();
    Pow2Values();
    PerLongRoundTrip(Heights(c), BITS);
  }
}
