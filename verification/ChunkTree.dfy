/** The saved tree of a column field by field, the fields that loading skips included
    (`chunk_to_nbt` of `loadstone-world/src/anvil.rs`). */
module ChunkTree {
  import opened Options
  import opened Machine
  import opened Packing
  import opened Palette
  import opened Chunk
  import opened Blocks
  import opened Heightmap
  import opened Nbt
  import opened ChunkNbt
  import opened ChunkNbtProofs

  /** Names are told apart by their lengths and first letters. */
  ghost predicate TellApart(entries: seq<Entry>) {
    && (forall i :: 0 <= i < |entries| ==> |entries[i].name| > 0)
    && (forall i, j :: 0 <= i < j < |entries| ==>
          |entries[i].name| != |entries[j].name| || entries[i].name[0] != entries[j].name[0])
  }

  lemma FieldAt(entries: seq<Entry>, k: nat)
    requires TellApart(entries) && k < |entries|
    ensures CompoundGet(Compound(entries), entries[k].name) == Some(entries[k].value)
  {
    FindAt(entries, entries[k].name, k);
  }

  /** Length and first letter in one number. */
  function Key(e: Entry): int
    requires |e.name| > 0
  {
    |e.name| * 0x100 + e.name[0]
  }

  /** Those of the fifteen fields. */
  const KEYS: seq<int> := [
    11 * 0x100 + 68, 4 * 0x100 + 120, 4 * 0x100 + 121, 4 * 0x100 + 122, 6 * 0x100 + 83, 10 * 0x100 + 76,
    13 * 0x100 + 73, 9 * 0x100 + 105, 10 * 0x100 + 72, 8 * 0x100 + 115, 14 * 0x100 + 98, 11 * 0x100 + 98,
    11 * 0x100 + 102, 14 * 0x100 + 80, 10 * 0x100 + 115
  ]

  const NAMES: seq<string> := [
    "DataVersion", "xPos", "yPos", "zPos", "Status", "LastUpdate", "InhabitedTime", "isLightOn", "Heightmaps",
    "sections", "block_entities", "block_ticks", "fluid_ticks", "PostProcessing", "structures"
  ]

  lemma EntryNames(pos: ChunkPos, lastUpdate: i64, heightmap: seq<i64>, sections: seq<Nbt>)
    ensures var e := ChunkEntries(pos, lastUpdate, heightmap, sections);
      |e| == 15 == |NAMES| && forall i :: 0 <= i < 15 ==> e[i].name == Ascii(NAMES[i])
  {
    hide HeightmapsNbt, Ascii;
  }

  lemma NameKeys()
    ensures |NAMES| == 15 == |KEYS|
    ensures forall i :: 0 <= i < 15 ==>
      |NAMES[i]| > 0 && NAMES[i][0] < 128 as char && |NAMES[i]| * 0x100 + NAMES[i][0] as int == KEYS[i]
  {}

  lemma AsciiKey(s: string)
    requires |s| > 0 && s[0] < 128 as char
    ensures |Ascii(s)| == |s| && Ascii(s)[0] == s[0] as int
  {}

  lemma EntryKeys(pos: ChunkPos, lastUpdate: i64, heightmap: seq<i64>, sections: seq<Nbt>)
    ensures var e := ChunkEntries(pos, lastUpdate, heightmap, sections);
      |e| == 15 == |KEYS| && forall i :: 0 <= i < 15 ==> |e[i].name| > 0 && Key(e[i]) == KEYS[i]
  {
    hide ChunkEntries, KEYS, NAMES, Ascii;
    EntryNames(pos, lastUpdate, heightmap, sections);
    NameKeys();
    var e := ChunkEntries(pos, lastUpdate, heightmap, sections);
    forall i | 0 <= i < 15
      ensures |e[i].name| > 0 && Key(e[i]) == KEYS[i]
    {
      AsciiKey(NAMES[i]);
    }
  }

  lemma KeysTellApart(entries: seq<Entry>, keys: seq<int>)
    requires |entries| == |keys| && forall i :: 0 <= i < |keys| ==> |entries[i].name| > 0 && Key(entries[i]) == keys[i]
    requires forall i, j :: 0 <= i < j < |keys| ==> keys[i] != keys[j]
    ensures TellApart(entries)
  {}

  lemma ChunkNames(pos: ChunkPos, lastUpdate: i64, heightmap: seq<i64>, sections: seq<Nbt>)
    ensures TellApart(ChunkEntries(pos, lastUpdate, heightmap, sections))
    ensures |ChunkEntries(pos, lastUpdate, heightmap, sections)| == 15
  {
    hide ChunkEntries, Key;
    EntryKeys(pos, lastUpdate, heightmap, sections);
    KeysTellApart(ChunkEntries(pos, lastUpdate, heightmap, sections), KEYS);
  }

  /** The value under `key` in a compound. */
  function Get(n: Nbt, key: string): Option<Nbt> { CompoundGet(n, Ascii(key)) }

  /** What the game wants to know besides blocks and position. */
  lemma PlainFields(c: Column, lastUpdate: i64)
    requires c.Valid()
    ensures var n := ToNbt(c, lastUpdate);
      && Get(n, "DataVersion") == Some(Int(4671))
      && Get(n, "xPos") == Some(Int(c.pos.x)) && Get(n, "zPos") == Some(Int(c.pos.z))
      && Get(n, "yPos") == Some(Int(-4))
      && Get(n, "Status") == Some(String(Ascii("minecraft:full")))
      && Get(n, "LastUpdate") == Some(Long(lastUpdate))
      && Get(n, "InhabitedTime") == Some(Long(0))
      && Get(n, "isLightOn") == Some(Byte(0))
      && Get(n, "block_entities") == Some(List([]))
      && Get(n, "block_ticks") == Some(List([]))
      && Get(n, "fluid_ticks") == Some(List([]))
  {
    hide HeightmapsNbt, SectionsNbt, PackedHeights, CompoundGet, Section.Valid;
    var e := ChunkEntries(c.pos, lastUpdate, PackedHeights(c), SectionsNbt(c));
    ChunkNames(c.pos, lastUpdate, PackedHeights(c), SectionsNbt(c));
    forall k | 0 <= k < 15
      ensures CompoundGet(Compound(e), e[k].name) == Some(e[k].value)
    {
      FieldAt(e, k);
    }
    assert e[0].name == Ascii("DataVersion") && e[1].name == Ascii("xPos") && e[2].name == Ascii("yPos");
    assert e[3].name == Ascii("zPos") && e[4].name == Ascii("Status") && e[5].name == Ascii("LastUpdate");
    assert e[6].name == Ascii("InhabitedTime") && e[7].name == Ascii("isLightOn");
    assert e[10].name == Ascii("block_entities") && e[11].name == Ascii("block_ticks");
    assert e[12].name == Ascii("fluid_ticks");
  }

  /** The lists and compounds that stay empty. */
  lemma EmptyFields(c: Column, lastUpdate: i64)
    requires c.Valid()
    ensures var n := ToNbt(c, lastUpdate);
      && Get(n, "PostProcessing") == Some(List(seq(SECTION_COUNT, _ => List([]))))
      && Get(n, "structures").Some?
      && Get(Get(n, "structures").value, "References") == Some(Compound([]))
      && Get(Get(n, "structures").value, "starts") == Some(Compound([]))
  {
    hide HeightmapsNbt, SectionsNbt, PackedHeights, Section.Valid, CompoundGet;
    var e := ChunkEntries(c.pos, lastUpdate, PackedHeights(c), SectionsNbt(c));
    ChunkNames(c.pos, lastUpdate, PackedHeights(c), SectionsNbt(c));
    FieldAt(e, 13);
    FieldAt(e, 14);
    assert e[13].name == Ascii("PostProcessing") && e[14].name == Ascii("structures");
    var inner := [Entry(Ascii("References"), NOTHING), Entry(Ascii("starts"), NOTHING)];
    assert e[14].value == Compound(inner);
    FieldAt(inner, 0);
    FieldAt(inner, 1);
  }

  ghost predicate HeightAt(c: Column, packed: seq<i64>, x: nat, z: nat)
    requires c.Valid() && x < 16 && z < 16
  {
    IsHeight(c, x, z, FromPacked(packed)[z * 16 + x])
  }

  /** A heightmap: 37 words that unpack to the height of every column, z-major. */
  ghost predicate IsHeightmap(n: Option<Nbt>, c: Column)
    requires c.Valid()
  {
    && n.Some? && n.value.LongArray? && |n.value.longs| == 37
    && forall x, z :: 0 <= x < 16 && 0 <= z < 16 ==> HeightAt(c, n.value.longs, x, z)
  }

  /** All four heightmaps hold the column's heights. */
  lemma HeightmapFields(c: Column, lastUpdate: i64)
    requires c.Valid()
    ensures Get(ToNbt(c, lastUpdate), "Heightmaps").Some?
    ensures var maps := Get(ToNbt(c, lastUpdate), "Heightmaps").value;
      && IsHeightmap(Get(maps, "WORLD_SURFACE"), c) && IsHeightmap(Get(maps, "MOTION_BLOCKING"), c)
      && IsHeightmap(Get(maps, "MOTION_BLOCKING_NO_LEAVES"), c) && IsHeightmap(Get(maps, "OCEAN_FLOOR"), c)
  {
    hide SectionsNbt, PackedHeights, Section.Valid, CompoundGet, IsHeightmap;
    var packed := PackedHeights(c);
    var e := ChunkEntries(c.pos, lastUpdate, packed, SectionsNbt(c));
    ChunkNames(c.pos, lastUpdate, packed, SectionsNbt(c));
    FieldAt(e, 8);
    assert e[8].name == Ascii("Heightmaps");
    var maps := HeightmapsNbt(packed).entries;
    forall k | 0 <= k < 4
      ensures CompoundGet(Compound(maps), maps[k].name) == Some(LongArray(packed))
    {
      FieldAt(maps, k);
    }
    assert maps[0].name == Ascii("WORLD_SURFACE") && maps[1].name == Ascii("MOTION_BLOCKING");
    assert maps[2].name == Ascii("MOTION_BLOCKING_NO_LEAVES") && maps[3].name == Ascii("OCEAN_FLOOR");
    PackedIsHeightmap(c);
  }

  lemma PackedIsHeightmap(c: Column)
    requires c.Valid()
    ensures IsHeightmap(Some(LongArray(PackedHeights(c))), c)
  {
    hide PerLongWords, FromPacked, Heights, IsHeight, Section.Valid;
    HeightsRoundTrip(c);
    forall x, z | 0 <= x < 16 && 0 <= z < 16
      ensures HeightAt(c, PackedHeights(c), x, z)
    {
      HeightMeaning(c, x, z, FromPacked(PackedHeights(c))[z * 16 + x]);
    }
  }

  /** Section `i` of the tree says its height and that its biome is plains. */
  lemma SectionFieldsToo(i: nat, s: Section)
    requires s.Valid() && i < SECTION_COUNT
    ensures Get(SectionNbt(i, s), "Y") == Some(Byte(i - 4))
    ensures Get(SectionNbt(i, s), "biomes").Some?
    ensures Get(Get(SectionNbt(i, s), "biomes").value, "palette") == Some(List([String(Ascii("minecraft:plains"))]))
  {
    hide BlockStatesNbt, NonAir, CompoundGet;
    var e := SectionNbt(i, s).entries;
    FieldAt(e, 0);
    FieldAt(e, 2);
    FieldAt(BIOMES.entries, 0);
  }

  /** A palette entry of a table state carries its name, and of grass that it is not snowy. */
  lemma PaletteEntryFields(state: u16)
    requires Supported(state)
    ensures Get(PaletteEntry(state), "Name") == Some(String(BlockDefOf(state).value.name))
    ensures state == GRASS_BLOCK ==>
      Get(PaletteEntry(state), "Properties") == Some(Compound([Entry(Ascii("snowy"), String(Ascii("false")))]))
    ensures state != GRASS_BLOCK ==> Get(PaletteEntry(state), "Properties") == None
  {
    hide FindState, FindEntry, BlockDefOf;
    SnowyOnlyGrass(state);
    var e := PaletteEntry(state).entries;
    FieldAt(e[..1], 0);
    FindAt(e, e[0].name, 0);
    assert Ascii("Name")[0] != Ascii("Properties")[0];
    if state == GRASS_BLOCK {
      FindAt(e, e[1].name, 1);
    } else {
      assert e == [e[0]];
      NoOther(e[0], Ascii("Properties"));
    }
  }

  lemma NoOther(entry: Entry, key: seq<byte>)
    requires entry.name != key
    ensures FindEntry([entry], key) == None
  {
    assert [entry][1..] == [];
  }

  lemma SnowyOnlyGrass(state: u16)
    requires Supported(state)
    ensures BlockDefOf(state).value.snowy == if state == GRASS_BLOCK then Some(false) else None
  {
    hide FindState, Ascii;
    assert forall i :: 0 <= i < |SUPPORTED_BLOCKS| ==>
      SUPPORTED_BLOCKS[i].snowy == if SUPPORTED_BLOCKS[i].state == GRASS_BLOCK then Some(false) else None;
  }

  // ------------------------------------------------------- trees written by others

  /** Each palette entry is the state its name stands for, and air when the name stands for none. */
  lemma {:induction false} NamedStates(entries: seq<Nbt>, i: nat)
    requires PaletteStates(entries).Loaded? && i < |entries|
    ensures StringField(entries[i], Ascii("Name")).Loaded?
    ensures var state := StateForName(StringField(entries[i], Ascii("Name")).value);
      PaletteStates(entries).value[i] == if state.Some? then state.value else AIR
  {
    hide StringField, StateForName;
    if i > 0 {
      NamedStates(entries[1..], i - 1);
    }
  }

  /** A palette with a nameless entry is refused for that. */
  lemma {:induction false} NamelessIsRefused(entries: seq<Nbt>)
    ensures PaletteStates(entries).Invalid? <==>
      exists i :: 0 <= i < |entries| && StringField(entries[i], Ascii("Name")).Invalid?
    ensures PaletteStates(entries).Invalid? ==> PaletteStates(entries) == Invalid(MissingField(Ascii("Name")))
  {
    hide StateForName, CompoundGet;
    if |entries| > 0 {
      NamelessIsRefused(entries[1..]);
      assert forall i :: 0 < i < |entries| ==> entries[i] == entries[1..][i - 1];
      if i :| 0 <= i < |entries[1..]| && StringField(entries[1..][i], Ascii("Name")).Invalid? {
        assert StringField(entries[i + 1], Ascii("Name")).Invalid?;
      }
    }
  }

  /** What a block of a section becomes: the palette's only state; the state its packed index points at, air when it
      points past the palette; and what it was before when that only state is air or the indices are missing. */
  lemma LoadedCell(before: Section, blockStates: Nbt, states: seq<u16>, k: nat)
    requires before.Valid() && k < SECTION_VOLUME
    ensures LoadedSection(before, blockStates, states).Valid()
    ensures var data, block := Get(blockStates, "data"), LoadedSection(before, blockStates, states).At(k);
      if |states| <= 1 then block == if |states| == 1 && states[0] != AIR then states[0] else before.At(k)
      else if data.Some? && data.value.LongArray? && BitsFor(|states|) < 64 then
        var v := UnpackPerLong(data.value.longs, BitsFor(|states|), SECTION_VOLUME)[k];
        block == if v < |states| then states[v] else AIR
      else block == before.At(k)
  {
    hide NonAir, UnpackPerLong, CompoundGet, BitsFor, Collapse;
    LoadedSectionIsValid(before, blockStates, states);
    if |states| > 1 {
      match Get(blockStates, "data")
      case Some(LongArray(data)) =>
        if BitsFor(|states|) < 64 {
          CollapseKeepsBlocks(Resolve(states, UnpackPerLong(data, BitsFor(|states|), SECTION_VOLUME)), k);
        }
      case _ =>
    }
  }

  /** A section's tree changes the section its Y names and no other, and none at all outside the world. */
  lemma OneSectionLoads(c: Column, n: Nbt, y: i8, i: nat)
    requires c.Valid() && ByteField(n, Ascii("Y")) == Loaded(y) && i < SECTION_COUNT
    ensures y < -4 || y >= 20 ==> LoadSection(c, n) == Loaded(c)
    ensures LoadSection(c, n).Loaded? && i != y + 4 ==> LoadSection(c, n).value.sections[i] == c.sections[i]
  {
    hide ByteField, CompoundField, ListField, PaletteStates, LoadedSection, Section.Valid;
  }
}
