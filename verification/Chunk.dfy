/** Chunk columns and their sparse sections (`loadstone-world/src/lib.rs`).

    `Section` and `Column` are the values; the classes update them in place. */
module Chunk {
  import Arith
  import opened Machine

  const MIN_Y: int := -64
  const WORLD_HEIGHT: int := 384
  const SECTION_COUNT: nat := 24
  const SECTION_VOLUME: nat := 4096

  const AIR: u16 := 0
  const STONE: u16 := 1
  const GRASS_BLOCK: u16 := 9
  const DIRT: u16 := 10
  const COBBLESTONE: u16 := 14
  const BEDROCK: u16 := 85
  const SAND: u16 := 118
  const GLASS: u16 := 562

  datatype ChunkPos = ChunkPos(x: i32, z: i32)

  // --------------------------------------------------------------- sections

  function NonAir(states: seq<u16>): (n: nat)
    ensures n <= |states|
  {
    if |states| == 0 then 0
    else NonAir(states[..|states| - 1]) + (if states[|states| - 1] != AIR then 1 else 0)
  }

  /** A section without states is all air; otherwise it has all 4096. The count is kept exact. */
  datatype Section = Section(states: seq<u16>, nonAir: int) {
    predicate Valid() { (|states| == 0 || |states| == SECTION_VOLUME) && nonAir == NonAir(states) }

    function At(i: nat): u16
      requires Valid() && i < SECTION_VOLUME
    {
      if |states| == 0 then AIR else states[i]
    }

    function Put(i: nat, state: u16): Section
      requires Valid() && i < SECTION_VOLUME
    {
      if |states| == 0 && state == AIR then this
      else
        var full := if |states| == 0 then AllOf(AIR) else states;
        Section(full[i := state], NonAir(full[i := state]))
    }
  }

  function AllOf(state: u16): (states: seq<u16>)
    ensures |states| == SECTION_VOLUME && forall i :: 0 <= i < |states| ==> states[i] == state
  {
    seq(SECTION_VOLUME, _ => state)
  }

  function Index(y: nat, z: nat, x: nat): (i: nat)
    requires y < 16 && z < 16 && x < 16
    ensures i < SECTION_VOLUME && i / 256 == y && i / 16 % 16 == z && i % 16 == x
  {
    (y * 16 + z) * 16 + x
  }

  /** The count is zero exactly when everything is air: an empty section and a filled one with
      count zero mean the same. */
  lemma {:induction false} CountIsZeroIffAir(states: seq<u16>)
    ensures NonAir(states) == 0 <==> forall i :: 0 <= i < |states| ==> states[i] == AIR
  {
    if |states| > 0 {
      CountIsZeroIffAir(states[..|states| - 1]);
    }
  }

  lemma PutThenAt(s: Section, i: nat, state: u16, j: nat)
    requires s.Valid() && i < SECTION_VOLUME && j < SECTION_VOLUME
    ensures s.Put(i, state).Valid()
    ensures s.Put(i, state).At(j) == if i == j then state else s.At(j)
  {
    hide NonAir;
  }

  /** Recount, and drop the states when all of them are air. */
  function Collapse(states: seq<u16>): Section {
    Section(if NonAir(states) == 0 then [] else states, NonAir(states))
  }

  lemma CollapseKeepsBlocks(states: seq<u16>, i: nat)
    requires |states| == SECTION_VOLUME && i < SECTION_VOLUME
    ensures Collapse(states).Valid() && Collapse(states).At(i) == states[i]
    ensures Collapse(states).states == [] <==> forall k :: 0 <= k < |states| ==> states[k] == AIR
  {
    CountIsZeroIffAir(states);
  }

  class ChunkSection {
    var blockStates: seq<u16>
    var nonAirBlocks: i16

    function Value(): Section
      reads this
    {
      Section(blockStates, nonAirBlocks)
    }

    constructor ()
      ensures Value() == Section([], 0)
    {
      blockStates, nonAirBlocks := [], 0;
    }

    function State(y: nat, z: nat, x: nat): (state: u16)
      requires y < 16 && z < 16 && x < 16 && Value().Valid()
      reads this
      ensures state == Value().At(Index(y, z, x))
    {
      if |blockStates| == 0 then AIR else blockStates[(y * 16 + z) * 16 + x]
    }

    method Set(y: nat, z: nat, x: nat, state: u16)
      requires y < 16 && z < 16 && x < 16 && Value().Valid()
      modifies this
      ensures Value() == old(Value()).Put(Index(y, z, x), state)
    {
      hide NonAir;
      if |blockStates| == 0 {
        if state == AIR {
          return;
        }
        blockStates := AllOf(AIR);
      }
      blockStates := blockStates[Index(y, z, x) := state];
      Recount();
    }

    method Recount()
      requires |blockStates| <= SECTION_VOLUME
      modifies this`nonAirBlocks
      ensures nonAirBlocks == NonAir(blockStates)
    {
      var count: nat := 0;
      for i := 0 to |blockStates|
        invariant count == NonAir(blockStates[..i])
      {
        assert blockStates[..i + 1][..i] == blockStates[..i];
        if blockStates[i] != AIR {
          count := count + 1;
        }
      }
      assert blockStates[..|blockStates|] == blockStates;
      nonAirBlocks := count;
    }
  }

  // ---------------------------------------------------------------- columns

  predicate InRange(y: int) { MIN_Y <= y < MIN_Y + WORLD_HEIGHT }

  datatype Column = Column(pos: ChunkPos, sections: seq<Section>) {
    predicate Valid() { |sections| == SECTION_COUNT && forall i :: 0 <= i < |sections| ==> sections[i].Valid() }

    /** The block at world coordinates, air outside the build height. */
    function Block(x: int, y: int, z: int): u16
      requires Valid()
    {
      if InRange(y) then sections[(y - MIN_Y) / 16].At(Index((y - MIN_Y) % 16, z % 16, x % 16)) else AIR
    }

    function Placed(x: int, y: int, z: int, state: u16): Column
      requires Valid()
    {
      if !InRange(y) then this
      else
        var s := (y - MIN_Y) / 16;
        this.(sections := sections[s := sections[s].Put(Index((y - MIN_Y) % 16, z % 16, x % 16), state)])
    }
  }

  /** Two columns that cannot be told apart by looking at blocks. */
  ghost predicate SameBlocks(a: Column, b: Column)
    requires a.Valid() && b.Valid()
  {
    forall x, y, z :: a.Block(x, y, z) == b.Block(x, y, z)
  }

  /** An edit changes the block it names and no other. Coordinates name a block of the column
      up to multiples of 16, and edits outside the build height do nothing. */
  lemma PlacedThenBlock(c: Column, x: int, y: int, z: int, state: u16, x': int, y': int, z': int)
    requires c.Valid()
    ensures c.Placed(x, y, z, state).Valid() && c.Placed(x, y, z, state).pos == c.pos
    ensures c.Placed(x, y, z, state).Block(x', y', z')
         == if y' == y && x' % 16 == x % 16 && z' % 16 == z % 16 && InRange(y) then state else c.Block(x', y', z')
  {
    hide Section.Put, Section.At, Section.Valid;
    if InRange(y) {
      var s, i := (y - MIN_Y) / 16, Index((y - MIN_Y) % 16, z % 16, x % 16);
      PutThenAt(c.sections[s], i, state, i);
      if InRange(y') {
        var i' := Index((y' - MIN_Y) % 16, z' % 16, x' % 16);
        PutThenAt(c.sections[s], i, state, i');
      }
    }
  }

  class Chunk {
    const pos: ChunkPos
    const sections: seq<ChunkSection>

    /** All sections, each its own object and each valid. */
    ghost predicate Valid()
      reads sections
    {
      && |sections| == SECTION_COUNT
      && (forall i, j :: 0 <= i < j < |sections| ==> sections[i] != sections[j])
      && (forall i :: 0 <= i < |sections| ==> sections[i].Value().Valid())
    }

    function Value(): (c: Column)
      reads sections
      ensures c.pos == pos && (Valid() ==> c.Valid())
    {
      Column(pos, seq(|sections|, i requires 0 <= i < |sections| reads sections => sections[i].Value()))
    }

    constructor (pos: ChunkPos, sections: seq<ChunkSection>)
      ensures this.pos == pos && this.sections == sections
    {
      this.pos, this.sections := pos, sections;
    }

    function GetBlock(x: int, y: int, z: int): (state: u16)
      requires Valid()
      reads sections
      ensures state == Value().Block(x, y, z)
    {
      var index := (y - MIN_Y) / 16;
      if index < 0 || index >= |sections| then AIR
      else sections[index].State((y - MIN_Y) % 16, z % 16, x % 16)
    }

    method SetBlock(x: int, y: int, z: int, state: u16)
      requires Valid()
      modifies sections
      ensures Valid() && Value() == old(Value()).Placed(x, y, z, state)
    {
      hide Section.Put, Section.At, Section.Valid;
      var index := (y - MIN_Y) / 16;
      if index < 0 || index >= |sections| {
        return;
      }
      var i := Index((y - MIN_Y) % 16, z % 16, x % 16);
      PutThenAt(sections[index].Value(), i, state, i);
      sections[index].Set((y - MIN_Y) % 16, z % 16, x % 16, state);
      assert Value().sections == old(Value()).Placed(x, y, z, state).sections;
    }

    /** `is_empty`: looks at the counts only, and so finds out about every block. */
    method IsEmpty() returns (empty: bool)
      requires Valid()
      ensures empty <==> forall x, y, z :: Value().Block(x, y, z) == AIR
    {
      empty := forall i :: 0 <= i < |sections| ==> sections[i].nonAirBlocks == 0;
      ghost var c := Value();
      assert forall i :: 0 <= i < |sections| ==> c.sections[i].nonAir == sections[i].nonAirBlocks;
      EmptyIffAir(c);
    }
  }

  lemma EmptyIffAir(c: Column)
    requires c.Valid()
    ensures (forall i :: 0 <= i < |c.sections| ==> c.sections[i].nonAir == 0)
       <==> (forall x, y, z :: c.Block(x, y, z) == AIR)
  {
    hide Section.Valid, Section.At;
    forall i | 0 <= i < |c.sections|
      ensures c.sections[i].nonAir == 0 <==> AllAir(c.sections[i])
    {
      EmptySection(c.sections[i]);
    }
    if forall x, y, z :: c.Block(x, y, z) == AIR {
      forall i, k | 0 <= i < |c.sections| && 0 <= k < SECTION_VOLUME
        ensures c.sections[i].At(k) == AIR
      {
        CellIsBlock(c, i, k);
      }
    }
  }

  ghost predicate AllAir(s: Section)
    requires s.Valid()
  {
    forall k :: 0 <= k < SECTION_VOLUME ==> s.At(k) == AIR
  }

  lemma EmptySection(s: Section)
    requires s.Valid()
    ensures s.nonAir == 0 <==> AllAir(s)
  {
    hide NonAir;
    CountIsZeroIffAir(s.states);
    if |s.states| > 0 {
      assert forall k :: 0 <= k < SECTION_VOLUME ==> s.At(k) == s.states[k];
    }
  }

  /** Every cell of every section is some block of the column. */
  lemma CellIsBlock(c: Column, i: nat, k: nat)
    requires c.Valid() && i < |c.sections| && k < SECTION_VOLUME
    ensures c.Block(k % 16, MIN_Y + i * 16 + k / 256, k / 16 % 16) == c.sections[i].At(k)
  {
    hide Section.Valid, Section.At;
    CellIndex(k);
    Arith.DivMod(i, k / 256, 16);
  }

  lemma CellIndex(k: nat)
    requires k < SECTION_VOLUME
    ensures k / 256 < 16 && Index(k / 256, k / 16 % 16, k % 16) == k
  {
    Arith.DivDiv(k, 16, 16);
    assert k == k / 16 * 16 + k % 16 && k / 16 == k / 16 / 16 * 16 + k / 16 % 16;
  }
}
