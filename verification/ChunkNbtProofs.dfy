/** A column written as chunk NBT and read back keeps its position and every supported block. */
module ChunkNbtProofs {
  import opened Options
  import opened Machine
  import opened Arith
  import opened Packing
  import opened Palette
  import opened Chunk
  import opened Blocks
  import opened Heightmap
  import opened Nbt
  import opened ChunkNbt

  // ------------------------------------------------------------ what is kept

  function StoredStates(states: seq<u16>): (r: seq<u16>)
    ensures |r| == |states| && forall i :: 0 <= i < |states| ==> r[i] == Stored(states[i])
  {
    seq(|states|, i requires 0 <= i < |states| => Stored(states[i]))
  }

  /** A section after a save and a load: unsupported states are air, and air is sparse. */
  function KeptSection(s: Section): (r: Section)
    requires s.Valid()
    ensures r.Valid()
  {
    NoneInEmpty();
    hide NonAir;
    Collapse(StoredStates(s.states))
  }

  function Kept(c: Column): (r: Column)
    requires c.Valid()
    ensures r.Valid() && r.pos == c.pos
  {
    Column(c.pos, seq(SECTION_COUNT, i requires 0 <= i < SECTION_COUNT => KeptSection(c.sections[i])))
  }

  predicate OnlySupported(c: Column)
    requires c.Valid()
  {
    forall i :: 0 <= i < |c.sections| ==> forall k :: 0 <= k < |c.sections[i].states| ==>
      Supported(c.sections[i].states[k])
  }

  lemma KeptSectionBlock(s: Section, i: nat)
    requires s.Valid() && i < SECTION_VOLUME
    ensures KeptSection(s).At(i) == Stored(s.At(i))
  {
    hide NonAir, Supported;
    AirIsStored();
    if |s.states| == SECTION_VOLUME {
      CollapseKeepsBlocks(StoredStates(s.states), i);
    } else {
      NoneInEmpty();
    }
  }

  lemma AirIsStored()
    ensures Supported(AIR) && Stored(AIR) == AIR
  {
    SupportedStates(AIR);
  }

  lemma KeptBlock(c: Column, x: int, y: int, z: int)
    requires c.Valid()
    ensures Kept(c).Block(x, y, z) == Stored(c.Block(x, y, z))
  {
    hide KeptSection, Section.Valid, Section.At, Stored;
    AirIsStored();
    if InRange(y) {
      KeptSectionBlock(c.sections[(y - MIN_Y) / 16], Index((y - MIN_Y) % 16, z % 16, x % 16));
    }
  }

  lemma BlockIsSupported(c: Column, x: int, y: int, z: int)
    requires c.Valid() && OnlySupported(c)
    ensures Supported(c.Block(x, y, z))
  {
    hide Supported, NonAir;
    AirIsStored();
  }

  lemma StateIsABlock(c: Column, i: nat, k: nat)
    requires c.Valid() && i < SECTION_COUNT && k < |c.sections[i].states|
    ensures c.Block(k % 16, MIN_Y + i * 16 + k / 256, k / 16 % 16) == c.sections[i].states[k]
  {
    hide NonAir, Column.Block;
    BlockInSection(c, k % 16, k / 16 % 16, i, k / 256);
    assert Index(k / 256, k / 16 % 16, k % 16) == k;
  }

  /** Saving and loading is unobservable exactly when every stored state is in the table. */
  lemma KeptIsSameIff(c: Column)
    requires c.Valid()
    ensures SameBlocks(Kept(c), c) <==> OnlySupported(c)
  {
    hide Kept, Supported, NonAir, Column.Block, Section.Valid;
    AirIsStored();
    if OnlySupported(c) {
      forall x, y, z
        ensures Kept(c).Block(x, y, z) == c.Block(x, y, z)
      {
        KeptBlock(c, x, y, z);
        BlockIsSupported(c, x, y, z);
      }
    }
    if SameBlocks(Kept(c), c) {
      forall i: nat, k: nat | i < SECTION_COUNT && k < |c.sections[i].states|
        ensures Supported(c.sections[i].states[k])
      {
        var x, y, z := k % 16, MIN_Y + i * 16 + k / 256, k / 16 % 16;
        StateIsABlock(c, i, k);
        KeptBlock(c, x, y, z);
        assert Kept(c).Block(x, y, z) == c.Block(x, y, z);
      }
    }
  }

  // ------------------------------------------------------------ reading fields

  lemma {:induction false} FindAt(entries: seq<Entry>, key: seq<byte>, k: nat)
    requires k < |entries| && entries[k].name == key
    requires forall j :: 0 <= j < k ==> entries[j].name != key
    ensures FindEntry(entries, key) == Some(entries[k].value)
    decreases k
  {
    if k > 0 {
      FindAt(entries[1..], key, k - 1);
    }
  }

  lemma ChunkFields(pos: ChunkPos, lastUpdate: i64, heightmap: seq<i64>, sections: seq<Nbt>)
    ensures var n := Compound(ChunkEntries(pos, lastUpdate, heightmap, sections));
      && IntField(n, Ascii("xPos")) == Loaded(pos.x)
      && IntField(n, Ascii("zPos")) == Loaded(pos.z)
      && ListField(n, Ascii("sections")) == Loaded(sections)
  {
    hide FindEntry, HeightmapsNbt, ChunkEntries;
    FieldX(pos, lastUpdate, heightmap, sections);
    FieldZ(pos, lastUpdate, heightmap, sections);
    FieldSections(pos, lastUpdate, heightmap, sections);
  }

  lemma FieldX(pos: ChunkPos, lastUpdate: i64, heightmap: seq<i64>, sections: seq<Nbt>)
    ensures IntField(Compound(ChunkEntries(pos, lastUpdate, heightmap, sections)), Ascii("xPos")) == Loaded(pos.x)
  {
    hide FindEntry, HeightmapsNbt;
    FindAt(ChunkEntries(pos, lastUpdate, heightmap, sections), Ascii("xPos"), 1);
  }

  lemma FieldZ(pos: ChunkPos, lastUpdate: i64, heightmap: seq<i64>, sections: seq<Nbt>)
    ensures IntField(Compound(ChunkEntries(pos, lastUpdate, heightmap, sections)), Ascii("zPos")) == Loaded(pos.z)
  {
    hide FindEntry, HeightmapsNbt;
    assert Ascii("zPos")[0] != Ascii("xPos")[0] && Ascii("zPos")[0] != Ascii("yPos")[0];
    FindAt(ChunkEntries(pos, lastUpdate, heightmap, sections), Ascii("zPos"), 3);
  }

  lemma FieldSections(pos: ChunkPos, lastUpdate: i64, heightmap: seq<i64>, sections: seq<Nbt>)
    ensures ListField(Compound(ChunkEntries(pos, lastUpdate, heightmap, sections)), Ascii("sections"))
         == Loaded(sections)
  {
    hide FindEntry, HeightmapsNbt;
    FindAt(ChunkEntries(pos, lastUpdate, heightmap, sections), Ascii("sections"), 9);
  }

  lemma SectionFields(index: nat, s: Section)
    requires s.Valid() && index < SECTION_COUNT
    ensures ByteField(SectionNbt(index, s), Ascii("Y")) == Loaded(MIN_Y / 16 + index)
    ensures CompoundField(SectionNbt(index, s), Ascii("block_states")) == Loaded(BlockStatesNbt(s.states))
  {
    hide FindEntry, WrittenPalette, PackedIndices, PaletteNbt, NonAir;
    var entries := SectionNbt(index, s).entries;
    FindAt(entries, Ascii("Y"), 0);
    FindAt(entries, Ascii("block_states"), 1);
  }

  lemma BlockStatesFields(states: seq<u16>)
    requires |states| <= SECTION_VOLUME
    ensures var n := BlockStatesNbt(states);
      && ListField(n, Ascii("palette")) == Loaded(PaletteNbt(WrittenPalette(states)).items)
      && (|WrittenPalette(states)| > 1 ==> CompoundGet(n, Ascii("data")) == Some(LongArray(PackedIndices(states))))
  {
    hide FindEntry, WrittenPalette, PackedIndices, PaletteNbt;
    var entries := BlockStatesNbt(states).entries;
    FindAt(entries, Ascii("palette"), 0);
    if |WrittenPalette(states)| > 1 {
      FindAt(entries, Ascii("data"), 1);
    }
  }

  lemma PaletteEntryName(state: u16)
    ensures StringField(PaletteEntry(state), Ascii("Name"))
         == Loaded(if Supported(state) then BlockDefOf(state).value.name else SUPPORTED_BLOCKS[0].name)
  {
    hide FindEntry, BlockDefOf, Properties;
    FindAt(PaletteEntry(state).entries, Ascii("Name"), 0);
  }

  /** A palette entry names a state that reads back as the state itself, or as air. */
  lemma PaletteEntryState(state: u16)
    ensures var name := StringField(PaletteEntry(state), Ascii("Name"));
      name.Loaded? && StateForName(name.value) == Some(Stored(state))
  {
    hide StringField, PaletteEntry, BlockDefOf, StateForName;
    PaletteEntryName(state);
    NamesLeadBack(state);
    NamesLeadBack(AIR);
    AirIsStored();
    AirIsFirst();
  }

  lemma AirIsFirst()
    ensures BlockDefOf(AIR) == Some(SUPPORTED_BLOCKS[0])
  {}

  lemma {:induction false} PaletteStatesRoundTrip(palette: seq<u16>, k: nat)
    requires k <= |palette|
    ensures PaletteStates(PaletteNbt(palette).items[k..]) == Loaded(StoredStates(palette)[k..])
    decreases |palette| - k
  {
    hide StringField, PaletteEntry, StateForName, Stored;
    var items := PaletteNbt(palette).items;
    if k < |palette| {
      PaletteEntryState(palette[k]);
      PaletteStatesRoundTrip(palette, k + 1);
      assert items[k..][1..] == items[k + 1..];
      assert StoredStates(palette)[k..] == [Stored(palette[k])] + StoredStates(palette)[k + 1..];
    }
  }

  // ------------------------------------------------------------------ sections

  lemma IndicesRoundTrip(states: seq<u16>)
    requires |states| == SECTION_VOLUME
    ensures |PaletteOf(states)| >= 1 && BitsFor(|PaletteOf(states)|) <= 12
    ensures var palette := PaletteOf(states);
      Resolve(StoredStates(palette), UnpackPerLong(PackedIndices(states), BitsFor(|palette|), SECTION_VOLUME))
        == StoredStates(states)
  {
    hide PaletteOf, BitsFor, PerLongWords, UnpackPerLong, Pow2, Stored, IndexOf, Indices;
    PaletteIsExact(states);
    EmptyPalette(states);
    var palette := PaletteOf(states);
    WidthBound(|palette|);
    var indices := Indices(states, palette);
    PerLongRoundTrip(indices, BitsFor(|palette|));
    assert Resolve(StoredStates(palette), indices) == StoredStates(states);
  }

  /** A written section is read into an empty one as what is kept of it. */
  lemma SectionRoundTrip(s: Section)
    requires s.Valid()
    ensures LoadedSection(Section([], 0), BlockStatesNbt(s.states), StoredStates(WrittenPalette(s.states)))
      == KeptSection(s)
  {
    hide PaletteOf, BitsFor, UnpackPerLong, PackedIndices, NonAir, Resolve, Stored, BlockStatesNbt, CompoundGet;
    BlockStatesFields(s.states);
    NoneInEmpty();
    AirIsStored();
    if |s.states| == 0 {
      assert StoredStates([]) == [];
    } else {
      EmptyPalette(s.states);
      if |PaletteOf(s.states)| == 1 {
        UniformSection(s);
      } else {
        IndicesRoundTrip(s.states);
      }
    }
  }

  lemma UniformSection(s: Section)
    requires s.Valid() && |s.states| == SECTION_VOLUME && |PaletteOf(s.states)| == 1
    ensures var state := Stored(PaletteOf(s.states)[0]);
      KeptSection(s) == if state != AIR then Section(AllOf(state), NonAir(AllOf(state))) else Section([], 0)
  {
    hide PaletteOf, NonAir, Stored;
    UniformPalette(s.states);
    var state := Stored(PaletteOf(s.states)[0]);
    assert StoredStates(s.states) == AllOf(state);
    CountIsZeroIffAir(AllOf(state));
    assert state != AIR ==> AllOf(state)[0] != AIR;
  }

  lemma LoadSectionNbt(c: Column, index: nat, s: Section)
    requires c.Valid() && index < SECTION_COUNT && s.Valid() && c.sections[index] == Section([], 0)
    ensures LoadSection(c, SectionNbt(index, s)) == Loaded(c.(sections := c.sections[index := KeptSection(s)]))
  {
    hide ByteField, CompoundField, ListField, SectionNbt, BlockStatesNbt, WrittenPalette, PaletteNbt, PaletteStates,
         KeptSection, StoredStates, NonAir, LoadedSection;
    SectionFields(index, s);
    BlockStatesFields(s.states);
    var palette := WrittenPalette(s.states);
    PaletteStatesRoundTrip(palette, 0);
    assert PaletteNbt(palette).items[0..] == PaletteNbt(palette).items;
    assert StoredStates(palette)[0..] == StoredStates(palette);
    SectionRoundTrip(s);
  }

  /** The column while it is read: the first `k` sections kept, the rest still empty. */
  function KeptUpTo(c: Column, k: nat): (r: Column)
    requires c.Valid()
    ensures r.Valid() && r.pos == c.pos
  {
    NoneInEmpty();
    hide NonAir;
    Column(c.pos, seq(SECTION_COUNT, i requires 0 <= i < SECTION_COUNT =>
      if i < k then KeptSection(c.sections[i]) else Section([], 0)))
  }

  lemma {:induction false} LoadSectionsNbt(c: Column, k: nat)
    requires c.Valid() && k <= SECTION_COUNT
    ensures LoadSections(KeptUpTo(c, k), SectionsNbt(c)[k..]) == Loaded(Kept(c))
    decreases SECTION_COUNT - k
  {
    hide LoadSection, SectionNbt, KeptSection, Section.Valid;
    var sections := SectionsNbt(c);
    if k < SECTION_COUNT {
      LoadSectionNbt(KeptUpTo(c, k), k, c.sections[k]);
      assert KeptUpTo(c, k).sections[k := KeptSection(c.sections[k])] == KeptUpTo(c, k + 1).sections;
      LoadSectionsNbt(c, k + 1);
      assert sections[k..][1..] == sections[k + 1..];
    } else {
      assert KeptUpTo(c, k).sections == Kept(c).sections;
    }
  }

  /** Chunk to NBT and back: the same position, and at every coordinate the same block, or air where
      the state has no name. */
  lemma ChunkRoundTrip(c: Column, lastUpdate: i64)
    requires c.Valid()
    ensures FromNbt(ToNbt(c, lastUpdate)) == Loaded(Kept(c))
  {
    hide IntField, ListField, ChunkEntries, SectionsNbt, PackedHeights, LoadSections, Kept, KeptSection;
    ChunkFields(c.pos, lastUpdate, PackedHeights(c), SectionsNbt(c));
    LoadSectionsNbt(c, 0);
    assert SectionsNbt(c)[0..] == SectionsNbt(c);
    assert KeptUpTo(c, 0).sections == EmptyColumn(c.pos).sections;
  }

  // ------------------------------------------------------------ what is loaded

  lemma LoadedStatesAreSupported(entries: seq<Nbt>)
    ensures PaletteStates(entries).Loaded? ==>
      forall i :: 0 <= i < |PaletteStates(entries).value| ==> Supported(PaletteStates(entries).value[i])
  {
    hide StringField, Supported;
    if |entries| > 0 && PaletteStates(entries).Loaded? {
      LoadedStatesAreSupported(entries[1..]);
      AirIsStored();
      var name := StringField(entries[0], Ascii("Name")).value;
      if StateForName(name).Some? {
        NamesLeadBack(StateForName(name).value);
      }
    }
  }

  lemma LoadedSectionIsSupported(before: Section, blockStates: Nbt, states: seq<u16>)
    requires forall i :: 0 <= i < |states| ==> Supported(states[i])
    requires forall i :: 0 <= i < |before.states| ==> Supported(before.states[i])
    ensures var s := LoadedSection(before, blockStates, states);
      forall i :: 0 <= i < |s.states| ==> Supported(s.states[i])
  {
    hide Supported, CompoundGet, BitsFor, UnpackPerLong, NonAir;
    AirIsStored();
  }

  lemma {:induction false} LoadSectionsSupported(c: Column, sections: seq<Nbt>)
    requires c.Valid() && OnlySupported(c)
    ensures LoadSections(c, sections).Loaded? ==> OnlySupported(LoadSections(c, sections).value)
    decreases |sections|
  {
    hide ByteField, CompoundField, ListField, PaletteStates, LoadedSection, Supported;
    if |sections| > 0 && LoadSections(c, sections).Loaded? {
      var n := sections[0];
      var index := ByteField(n, Ascii("Y")).value - MIN_Y / 16;
      if 0 <= index < SECTION_COUNT {
        var blockStates := CompoundField(n, Ascii("block_states")).value;
        var palette := ListField(blockStates, Ascii("palette")).value;
        LoadedStatesAreSupported(palette);
        LoadedSectionIsSupported(c.sections[index], blockStates, PaletteStates(palette).value);
      }
      LoadSectionsSupported(LoadSection(c, n).value, sections[1..]);
    }
  }

  /** Whatever tree is read, the column holds only states the table knows: it can be saved again
      without losing anything. */
  lemma LoadedIsSupported(n: Nbt)
    ensures FromNbt(n).Loaded? ==> OnlySupported(FromNbt(n).value)
  {
    hide IntField, ListField, LoadSections, OnlySupported;
    if FromNbt(n).Loaded? {
      var pos := ChunkPos(IntField(n, Ascii("xPos")).value, IntField(n, Ascii("zPos")).value);
      NothingUnsupported(pos);
      LoadSectionsSupported(EmptyColumn(pos), ListField(n, Ascii("sections")).value);
    }
  }

  lemma NothingUnsupported(pos: ChunkPos)
    ensures OnlySupported(EmptyColumn(pos))
  {}
}
