/** The block table (`loadstone-world/src/blocks.rs`): numeric states and their stored names. */
module Blocks {
  import opened Options
  import opened Machine
  import opened Chunk

  /** The bytes of an ASCII literal. */
  function Ascii(s: string): (bytes: seq<byte>)
    ensures |bytes| == |s| && forall i :: 0 <= i < |bytes| ==> bytes[i] == s[i] as int % 0x80
  {
    seq(|s|, i requires 0 <= i < |s| => s[i] as int % 0x80)
  }

  datatype BlockDef = BlockDef(state: u16, name: seq<byte>, snowy: Option<bool>)

  const SUPPORTED_BLOCKS: seq<BlockDef> := [
    BlockDef(AIR, Ascii("minecraft:air"), None),
    BlockDef(STONE, Ascii("minecraft:stone"), None),
    BlockDef(GRASS_BLOCK, Ascii("minecraft:grass_block"), Some(false)),
    BlockDef(DIRT, Ascii("minecraft:dirt"), None),
    BlockDef(COBBLESTONE, Ascii("minecraft:cobblestone"), None),
    BlockDef(SAND, Ascii("minecraft:sand"), None),
    BlockDef(BEDROCK, Ascii("minecraft:bedrock"), None),
    BlockDef(GLASS, Ascii("minecraft:glass"), None)
  ]

  function FindState(blocks: seq<BlockDef>, state: u16): (r: Option<BlockDef>)
    ensures r.Some? ==> r.value in blocks && r.value.state == state
    ensures r.None? ==> forall b :: b in blocks ==> b.state != state
  {
    if |blocks| == 0 then None
    else if blocks[0].state == state then Some(blocks[0])
    else FindState(blocks[1..], state)
  }

  function FindName(blocks: seq<BlockDef>, name: seq<byte>): (r: Option<BlockDef>)
    ensures r.Some? ==> r.value in blocks && r.value.name == name
    ensures r.None? ==> forall b :: b in blocks ==> b.name != name
  {
    if |blocks| == 0 then None
    else if blocks[0].name == name then Some(blocks[0])
    else FindName(blocks[1..], name)
  }

  function BlockDefOf(state: u16): Option<BlockDef> { FindState(SUPPORTED_BLOCKS, state) }

  function StateForName(name: seq<byte>): Option<u16> {
    match FindName(SUPPORTED_BLOCKS, name)
    case Some(def) => Some(def.state)
    case None => None
  }

  predicate Supported(state: u16) { BlockDefOf(state).Some? }

  /** What a state becomes when it is stored by name and read back. */
  function Stored(state: u16): u16 { if Supported(state) then state else AIR }

  lemma NamesDiffer()
    ensures forall i, j :: 0 <= i < j < |SUPPORTED_BLOCKS| ==>
      && SUPPORTED_BLOCKS[i].state != SUPPORTED_BLOCKS[j].state
      && SUPPORTED_BLOCKS[i].name != SUPPORTED_BLOCKS[j].name
  {
    assert Ascii("minecraft:stone")[10] != Ascii("minecraft:glass")[10];
    assert Ascii("minecraft:grass_block")[10] != Ascii("minecraft:cobblestone")[10];
    assert Ascii("minecraft:dirt")[10] != Ascii("minecraft:sand")[10];
  }

  /** The table is a partial bijection: a state has a definition exactly when its name leads back to it,
      and different definitions have different names. */
  lemma NamesLeadBack(state: u16)
    ensures Supported(state) ==> StateForName(BlockDefOf(state).value.name) == Some(state)
    ensures forall name :: StateForName(name) == Some(state) ==>
      Supported(state) && BlockDefOf(state).value.name == name
  {
    hide Ascii, FindState, FindName;
    NamesDiffer();
  }

  /** Air and everything the generator makes or a player places is in the table; these eight states are all. */
  lemma SupportedStates(state: u16)
    ensures Supported(state) <==>
      state in {AIR, STONE, GRASS_BLOCK, DIRT, COBBLESTONE, SAND, BEDROCK, GLASS}
  {
    hide Ascii, FindState;
    var s := SUPPORTED_BLOCKS;
    assert s[0].state == AIR && s[1].state == STONE && s[2].state == GRASS_BLOCK && s[3].state == DIRT;
    assert s[4].state == COBBLESTONE && s[5].state == SAND && s[6].state == BEDROCK && s[7].state == GLASS;
  }

  /** The name of each state of the table. */
  lemma TableNames()
    ensures NamedState(AIR, "minecraft:air") && NamedState(STONE, "minecraft:stone")
    ensures NamedState(GRASS_BLOCK, "minecraft:grass_block") && NamedState(DIRT, "minecraft:dirt")
    ensures NamedState(COBBLESTONE, "minecraft:cobblestone") && NamedState(SAND, "minecraft:sand")
    ensures NamedState(BEDROCK, "minecraft:bedrock") && NamedState(GLASS, "minecraft:glass")
  {
    hide Ascii, BlockDefOf;
    FoundInTable(0);
    FoundInTable(1);
    FoundInTable(2);
    FoundInTable(3);
    FoundInTable(4);
    FoundInTable(5);
    FoundInTable(6);
    FoundInTable(7);
  }

  predicate NamedState(state: u16, name: string) {
    BlockDefOf(state).Some? && BlockDefOf(state).value.name == Ascii(name)
  }

  lemma FoundInTable(i: nat)
    requires i < 8
    ensures BlockDefOf(SUPPORTED_BLOCKS[i].state) == Some(SUPPORTED_BLOCKS[i])
  {
    hide Ascii, FindState;
    NamesDiffer();
  }
}
