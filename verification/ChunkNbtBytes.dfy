/** A column's tree is one the NBT encoder can write, so it survives as bytes. */
module ChunkNbtBytes {
  import opened Options
  import opened Machine
  import opened Arith
  import opened Protocol
  import opened Packing
  import opened Palette
  import opened Chunk
  import opened Blocks
  import opened Heightmap
  import opened Nbt
  import opened ChunkNbt
  import opened ChunkNbtProofs
  import NbtProofs

  lemma AsciiIsName(s: string)
    requires |s| < 0x1_0000
    ensures IsName(Ascii(s))
  {
    hide Utf8;
    AsciiIsUtf8(Ascii(s));
  }

  lemma {:induction false} EntriesAreWellFormed(entries: seq<Entry>)
    requires forall i :: 0 <= i < |entries| ==> IsName(entries[i].name) && WellFormed(entries[i].value)
    ensures WellFormedEntries(entries)
  {
    hide IsName, WellFormed;
    if |entries| > 0 {
      EntriesAreWellFormed(entries[1..]);
    }
  }

  lemma {:induction false} ItemsAreWellFormed(items: seq<Nbt>, ty: byte)
    requires forall i :: 0 <= i < |items| ==> Id(items[i]) == ty && WellFormed(items[i])
    ensures WellFormedItems(items, ty)
  {
    hide WellFormed;
    if |items| > 0 {
      ItemsAreWellFormed(items[1..], ty);
    }
  }

  lemma CompoundIsWellFormed(entries: seq<Entry>)
    requires forall i :: 0 <= i < |entries| ==> IsName(entries[i].name) && WellFormed(entries[i].value)
    ensures WellFormed(Compound(entries))
  {
    hide IsName, WellFormedEntries;
    EntriesAreWellFormed(entries);
  }

  /** A list of compounds. */
  lemma CompoundsAreWellFormed(items: seq<Nbt>)
    requires |items| < 0x8000_0000 && forall i :: 0 <= i < |items| ==> items[i].Compound? && WellFormed(items[i])
    ensures WellFormed(List(items))
  {
    hide WellFormedItems;
    forall i | 0 <= i < |items|
      ensures Id(items[i]) == 0x0A
    {}
    ItemsAreWellFormed(items, 0x0A);
    ItemsAreWellFormed(items, ElementId(items));
  }

  lemma StringIsWellFormed(s: string)
    requires |s| < 0x1_0000
    ensures WellFormed(String(Ascii(s)))
  {
    hide IsName;
    AsciiIsName(s);
  }

  lemma BlockNamesAreNames()
    ensures forall i :: 0 <= i < |SUPPORTED_BLOCKS| ==> IsName(SUPPORTED_BLOCKS[i].name)
  {
    hide IsName, Ascii;
    AsciiIsName("minecraft:air");
    AsciiIsName("minecraft:stone");
    AsciiIsName("minecraft:grass_block");
    AsciiIsName("minecraft:dirt");
    AsciiIsName("minecraft:cobblestone");
    AsciiIsName("minecraft:sand");
    AsciiIsName("minecraft:bedrock");
    AsciiIsName("minecraft:glass");
  }

  lemma PropertiesAreWellFormed(snowy: Option<bool>)
    ensures forall i :: 0 <= i < |Properties(snowy)| ==>
      IsName(Properties(snowy)[i].name) && WellFormed(Properties(snowy)[i].value)
  {
    hide IsName, Ascii, WellFormed;
    if snowy.Some? {
      AsciiIsName("Properties");
      AsciiIsName("snowy");
      StringIsWellFormed("true");
      StringIsWellFormed("false");
      CompoundIsWellFormed([Entry(Ascii("snowy"), String(if snowy.value then Ascii("true") else Ascii("false")))]);
    }
  }

  lemma NameIsWellFormed(name: seq<byte>)
    requires IsName(name)
    ensures WellFormed(String(name))
  {}

  lemma PaletteEntryIsWellFormed(state: u16)
    ensures PaletteEntry(state).Compound? && WellFormed(PaletteEntry(state))
  {
    hide IsName, Ascii, WellFormed, Properties, BlockDefOf;
    AsciiIsName("Name");
    BlockNamesAreNames();
    var def := match BlockDefOf(state) case Some(d) => d case None => SUPPORTED_BLOCKS[0];
    assert def in SUPPORTED_BLOCKS by { DefIsInTable(state); }
    NameIsWellFormed(def.name);
    PropertiesAreWellFormed(def.snowy);
    CompoundIsWellFormed([Entry(Ascii("Name"), String(def.name))] + Properties(def.snowy));
  }

  lemma DefIsInTable(state: u16)
    ensures BlockDefOf(state).Some? ==> BlockDefOf(state).value in SUPPORTED_BLOCKS
    ensures SUPPORTED_BLOCKS[0] in SUPPORTED_BLOCKS
  {}

  lemma BlockStatesAreWellFormed(states: seq<u16>)
    requires |states| <= SECTION_VOLUME
    ensures WellFormed(BlockStatesNbt(states))
  {
    hide IsName, Ascii, WellFormed, PaletteEntry, PaletteOf, PackedIndices;
    AsciiIsName("palette");
    AsciiIsName("data");
    var palette := WrittenPalette(states);
    forall i | 0 <= i < |palette|
      ensures PaletteEntry(palette[i]).Compound? && WellFormed(PaletteEntry(palette[i]))
    {
      PaletteEntryIsWellFormed(palette[i]);
    }
    CompoundsAreWellFormed(PaletteNbt(palette).items);
    if |palette| > 1 {
      PackedIndicesFit(states);
    }
    CompoundIsWellFormed(BlockStatesNbt(states).entries);
  }

  lemma PackedIndicesFit(states: seq<u16>)
    requires |states| <= SECTION_VOLUME && |PaletteOf(states)| >= 1
    ensures WellFormed(LongArray(PackedIndices(states)))
  {
    hide PaletteOf, PerLongWords, Indices, BitsFor, Pow2;
    WidthBound(|PaletteOf(states)|);
    var p := 64 / BitsFor(|PaletteOf(states)|);
    assert DivCeil(|states|, p) <= SECTION_VOLUME + 64 by { DivCeilBound(|states|, p); }
  }

  lemma DivCeilBound(n: nat, d: nat)
    requires 1 <= d <= 64
    ensures DivCeil(n, d) <= n + 64
  {
    var q := (n + d - 1) / d;
    Euclid(n + d - 1, d);
    MulMono(1, d, q);
  }

  lemma BiomesAreWellFormed()
    ensures WellFormed(BIOMES)
  {
    hide IsName, Ascii;
    AsciiIsName("palette");
    AsciiIsName("minecraft:plains");
    var plains := [String(Ascii("minecraft:plains"))];
    assert plains[1..] == [];
    assert WellFormedItems(plains, 0x08);
    CompoundIsWellFormed([Entry(Ascii("palette"), List(plains))]);
  }

  lemma SectionIsWellFormed(index: nat, s: Section)
    requires s.Valid() && index < SECTION_COUNT
    ensures SectionNbt(index, s).Compound? && WellFormed(SectionNbt(index, s))
  {
    hide IsName, Ascii, WellFormed, BlockStatesNbt, NonAir;
    AsciiIsName("Y");
    AsciiIsName("block_states");
    AsciiIsName("biomes");
    BlockStatesAreWellFormed(s.states);
    BiomesAreWellFormed();
    ScalarsAreWellFormed(MIN_Y / 16 + index, 0, 0);
    CompoundIsWellFormed(SectionNbt(index, s).entries);
  }

  lemma ScalarsAreWellFormed(b: i8, i: i32, l: i64)
    ensures WellFormed(Byte(b)) && WellFormed(Int(i)) && WellFormed(Long(l)) && WellFormed(List([]))
      && WellFormed(NOTHING)
  {}

  lemma HeightmapsAreWellFormed(packed: seq<i64>)
    requires |packed| < 0x8000_0000
    ensures WellFormed(HeightmapsNbt(packed))
  {
    hide IsName, Ascii, WellFormed;
    AsciiIsName("WORLD_SURFACE");
    AsciiIsName("MOTION_BLOCKING");
    AsciiIsName("MOTION_BLOCKING_NO_LEAVES");
    AsciiIsName("OCEAN_FLOOR");
    assert WellFormed(LongArray(packed)) by { LongsAreWellFormed(packed); }
    CompoundIsWellFormed(HeightmapsNbt(packed).entries);
  }

  lemma LongsAreWellFormed(packed: seq<i64>)
    requires |packed| < 0x8000_0000
    ensures WellFormed(LongArray(packed))
  {}

  lemma PostProcessingIsWellFormed(n: nat)
    requires n < 0x8000_0000
    ensures WellFormed(List(seq(n, _ => List([]))))
  {
    hide WellFormedItems;
    var items := seq(n, _ => List([]));
    ScalarsAreWellFormed(0, 0, 0);
    forall i | 0 <= i < n
      ensures Id(items[i]) == 0x09 && WellFormed(items[i])
    {
      assert items[i] == List([]);
    }
    ItemsAreWellFormed(items, 0x09);
    ItemsAreWellFormed(items, ElementId(items));
  }

  lemma StructuresAreWellFormed()
    ensures WellFormed(Compound([Entry(Ascii("References"), NOTHING), Entry(Ascii("starts"), NOTHING)]))
  {
    hide IsName, Ascii, WellFormed;
    AsciiIsName("References");
    AsciiIsName("starts");
    ScalarsAreWellFormed(0, 0, 0);
    CompoundIsWellFormed([Entry(Ascii("References"), NOTHING), Entry(Ascii("starts"), NOTHING)]);
  }

  lemma ChunkNamesAreNames(pos: ChunkPos, lastUpdate: i64, heightmap: seq<i64>, sections: seq<Nbt>)
    ensures var entries := ChunkEntries(pos, lastUpdate, heightmap, sections);
      forall i :: 0 <= i < |entries| ==> IsName(entries[i].name)
  {
    hide IsName, Ascii, HeightmapsNbt;
    AsciiIsName("DataVersion");
    AsciiIsName("xPos");
    AsciiIsName("yPos");
    AsciiIsName("zPos");
    AsciiIsName("Status");
    AsciiIsName("LastUpdate");
    AsciiIsName("InhabitedTime");
    AsciiIsName("isLightOn");
    AsciiIsName("Heightmaps");
    AsciiIsName("sections");
    AsciiIsName("block_entities");
    AsciiIsName("block_ticks");
    AsciiIsName("fluid_ticks");
    AsciiIsName("PostProcessing");
    AsciiIsName("structures");
  }

  lemma ChunkEntriesAreWellFormed(pos: ChunkPos, lastUpdate: i64, heightmap: seq<i64>, sections: seq<Nbt>)
    requires |heightmap| < 0x8000_0000 && WellFormed(List(sections))
    ensures WellFormed(Compound(ChunkEntries(pos, lastUpdate, heightmap, sections)))
  {
    hide IsName, Ascii, WellFormed, HeightmapsNbt;
    ChunkNamesAreNames(pos, lastUpdate, heightmap, sections);
    ScalarsAreWellFormed(0, DATA_VERSION, lastUpdate);
    ScalarsAreWellFormed(0, pos.x, 0);
    ScalarsAreWellFormed(0, pos.z, 0);
    ScalarsAreWellFormed(0, MIN_Y / 16, 0);
    StringIsWellFormed("minecraft:full");
    HeightmapsAreWellFormed(heightmap);
    PostProcessingIsWellFormed(SECTION_COUNT);
    StructuresAreWellFormed();
    CompoundIsWellFormed(ChunkEntries(pos, lastUpdate, heightmap, sections));
  }

  /** Every column is written as a tree the format can express. */
  lemma ChunkIsWellFormed(c: Column, lastUpdate: i64)
    requires c.Valid()
    ensures ToNbt(c, lastUpdate).Compound? && WellFormed(ToNbt(c, lastUpdate))
  {
    hide WellFormed, ChunkEntries, SectionNbt, PerLongWords, Heights;
    HeightsRoundTrip(c);
    forall i | 0 <= i < SECTION_COUNT
      ensures SectionNbt(i, c.sections[i]).Compound? && WellFormed(SectionNbt(i, c.sections[i]))
    {
      SectionIsWellFormed(i, c.sections[i]);
    }
    CompoundsAreWellFormed(SectionsNbt(c));
    ChunkEntriesAreWellFormed(c.pos, lastUpdate, PackedHeights(c), SectionsNbt(c));
  }

  /** A column to bytes and back. */
  lemma ChunkBytesRoundTrip(c: Column, lastUpdate: i64)
    requires c.Valid()
    ensures var bytes := NamedBytes(ToNbt(c, lastUpdate), []);
      && RootAt(bytes, 0) == Ok((([], ToNbt(c, lastUpdate)), |bytes|))
      && FromNbt(RootAt(bytes, 0).value.0.1) == Loaded(Kept(c))
  {
    hide ToNbt, FromNbt, Kept, RootAt, NamedBytes, WellFormed;
    ChunkIsWellFormed(c, lastUpdate);
    NbtProofs.NamedRoundTrip(ToNbt(c, lastUpdate), []);
    ChunkRoundTrip(c, lastUpdate);
  }
}
