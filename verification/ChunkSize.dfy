/** How large a column's record can get: a column of table states never comes near the 255 sectors
    the region header can count. */
module ChunkSize {
  import opened Options
  import opened Machine
  import opened Arith
  import opened Compression
  import opened Packing
  import opened Palette
  import opened Chunk
  import opened Blocks
  import opened Heightmap
  import opened Nbt
  import opened ChunkNbt
  import opened ChunkNbtProofs
  import opened Region
  import opened RegionProofs

  // ------------------------------------------------------------- payload lengths

  function EntryLength(e: Entry): nat { 3 + |e.name| + |Payload(e.value)| }

  lemma {:induction false} EntriesBound(entries: seq<Entry>, per: nat)
    requires forall i :: 0 <= i < |entries| ==> EntryLength(entries[i]) <= per
    ensures |EntriesPayload(entries)| <= |entries| * per + 1
  {
    hide Payload, Id, NameBytes;
    if |entries| > 0 {
      EntriesBound(entries[1..], per);
      FirstEntryLength(entries);
      MulAdd(per, |entries| - 1, 1);
    }
  }

  lemma NoEntriesLength()
    ensures |EntriesPayload([])| == 1
  {}

  lemma FirstEntryLength(entries: seq<Entry>)
    requires |entries| > 0
    ensures |EntriesPayload(entries)| == EntryLength(entries[0]) + |EntriesPayload(entries[1..])|
  {
    hide Payload, Id;
  }

  lemma {:induction false} EntriesSplit(a: seq<Entry>, b: seq<Entry>)
    ensures |EntriesPayload(a + b)| + 1 == |EntriesPayload(a)| + |EntriesPayload(b)|
  {
    hide Payload, Id, NameBytes, EntriesPayload, EntryLength;
    if |a| == 0 {
      NoEntriesLength();
      assert a == [] && a + b == b;
    } else {
      FirstEntryLength(a);
      FirstEntryLength(a + b);
      assert (a + b)[1..] == a[1..] + b;
      EntriesSplit(a[1..], b);
    }
  }

  lemma TwoEntries(a: Entry, b: Entry)
    ensures |EntriesPayload([a, b])| == EntryLength(a) + EntryLength(b) + 1
    ensures |EntriesPayload([a])| == EntryLength(a) + 1
  {
    hide Payload, Id, NameBytes, EntriesPayload, EntryLength;
    NoEntriesLength();
    FirstEntryLength([a]);
    FirstEntryLength([b]);
    EntriesSplit([a], [b]);
    assert [a] + [b] == [a, b] && [a][1..] == [] && [b][1..] == [];
  }

  lemma {:induction false} ItemsBound(items: seq<Nbt>, per: nat)
    requires forall i :: 0 <= i < |items| ==> |Payload(items[i])| <= per
    ensures |ItemsPayload(items)| <= |items| * per
  {
    hide Payload;
    if |items| > 0 {
      ItemsBound(items[1..], per);
      MulAdd(per, |items| - 1, 1);
    }
  }

  lemma ListBound(items: seq<Nbt>, per: nat)
    requires forall i :: 0 <= i < |items| ==> |Payload(items[i])| <= per
    ensures |Payload(List(items))| <= 5 + |items| * per
  {
    hide ItemsPayload, ElementId;
    ItemsBound(items, per);
  }

  lemma CompoundBound(entries: seq<Entry>, per: nat)
    requires forall i :: 0 <= i < |entries| ==> EntryLength(entries[i]) <= per
    ensures |Payload(Compound(entries))| <= |entries| * per + 1
  {
    hide EntriesPayload, EntryLength;
    EntriesBound(entries, per);
  }

  lemma LongArrayLength(v: seq<i64>)
    ensures |Payload(LongArray(v))| == 4 + 8 * |v|
  {
    hide I64sBytes;
    LongsLength(v);
  }

  lemma StringLength(s: seq<byte>)
    ensures |Payload(String(s))| == 2 + |s|
  {}

  // -------------------------------------------------------------- table states

  /** Distinct members of a set are at most as many as the set has. */
  lemma {:induction false} DistinctInSet(s: seq<u16>, all: set<u16>)
    requires forall i :: 0 <= i < |s| ==> s[i] in all
    requires forall i, j :: 0 <= i < j < |s| ==> s[i] != s[j]
    ensures |s| <= |all|
    decreases |s|
  {
    if |s| > 0 {
      DistinctInSet(s[1..], all - {s[0]});
    }
  }

  lemma SupportedPalette(states: seq<u16>)
    requires forall k :: 0 <= k < |states| ==> Supported(states[k])
    ensures |PaletteOf(states)| <= 8
  {
    hide PaletteOf, Supported;
    PaletteIsExact(states);
    var all: set<u16> := {AIR, STONE, GRASS_BLOCK, DIRT, COBBLESTONE, SAND, BEDROCK, GLASS};
    forall i | 0 <= i < |PaletteOf(states)|
      ensures PaletteOf(states)[i] in all
    {
      assert PaletteOf(states)[i] in states;
      SupportedStates(PaletteOf(states)[i]);
    }
    DistinctInSet(PaletteOf(states), all);
  }

  lemma BlockNameLength(state: u16)
    ensures BlockDefOf(state).Some? ==> |BlockDefOf(state).value.name| <= 21
    ensures |SUPPORTED_BLOCKS[0].name| <= 21
  {
    hide FindState;
    assert forall i :: 0 <= i < |SUPPORTED_BLOCKS| ==> |SUPPORTED_BLOCKS[i].name| <= 21;
  }

  lemma PropertiesLength(snowy: Option<bool>)
    ensures forall i :: 0 <= i < |Properties(snowy)| ==> EntryLength(Properties(snowy)[i]) <= 30
    ensures |Properties(snowy)| <= 1
  {
    hide Payload;
    if snowy.Some? {
      var text := if snowy.value then Ascii("true") else Ascii("false");
      StringLength(text);
      CompoundBound([Entry(Ascii("snowy"), String(text))], 15);
    }
  }

  lemma PaletteEntryLength(state: u16)
    ensures |Payload(PaletteEntry(state))| <= 61
  {
    hide Payload, BlockDefOf, Properties;
    BlockNameLength(state);
    var def := match BlockDefOf(state) case Some(d) => d case None => SUPPORTED_BLOCKS[0];
    StringLength(def.name);
    PropertiesLength(def.snowy);
    CompoundBound([Entry(Ascii("Name"), String(def.name))] + Properties(def.snowy), 30);
  }

  // -------------------------------------------------------------------- the tree

  lemma SmallPalettePacks(states: seq<u16>)
    requires |states| <= SECTION_VOLUME && 1 <= |PaletteOf(states)| <= 8
    ensures |PackedIndices(states)| <= 256
  {
    hide PaletteOf, PerLongWords, Indices, BitsFor;
    SmallWidth(|PaletteOf(states)|);
  }

  lemma SmallWidth(n: nat)
    requires 1 <= n <= 8
    ensures BitsFor(n) == 4
  {
    hide BitLength, Pow2;
    BitLengthBounds(n - 1);
    Pow2Values();
    var bits := BitLength(n - 1);
    if bits > 4 && n > 1 {
      Pow2Monotone(4, bits - 1);
    }
    NoBits();
  }

  lemma NoBits()
    ensures BitLength(0) == 0
  {}

  /** At any width a packed section has at most one word per index. */
  lemma AnyPalettePacks(states: seq<u16>)
    requires |states| <= SECTION_VOLUME && |PaletteOf(states)| >= 1
    ensures |PackedIndices(states)| <= SECTION_VOLUME
  {
    hide PaletteOf, PerLongWords, Indices, BitsFor;
    WidthBound(|PaletteOf(states)|);
    PerLongPositive(BitsFor(|PaletteOf(states)|));
    FewerWords(|states|, 64 / BitsFor(|PaletteOf(states)|));
  }

  lemma FewerWords(n: nat, p: nat)
    requires p >= 1
    ensures DivCeil(n, p) <= n
  {
    Euclid(n + p - 1, p);
    if DivCeil(n, p) > n {
      MulMono(n + 1, DivCeil(n, p), p);
      MulMono(1, p, n + 1);
      MulAdd(p, n, 1);
      MulAdd(n, p - 1, 1);
    }
  }

  lemma BlockStatesLength(states: seq<u16>, longs: nat)
    requires |states| <= SECTION_VOLUME && (|WrittenPalette(states)| > 1 ==> |PackedIndices(states)| <= longs)
    ensures |Payload(BlockStatesNbt(states))| <= 61 * |WrittenPalette(states)| + 8 * longs + 27
  {
    hide Payload, PaletteOf, PackedIndices, PaletteEntry;
    var palette := WrittenPalette(states);
    var items := PaletteNbt(palette).items;
    forall i | 0 <= i < |items|
      ensures |Payload(items[i])| <= 61
    {
      PaletteEntryLength(palette[i]);
    }
    ListBound(items, 61);
    var first := Entry(Ascii("palette"), PaletteNbt(palette));
    if |palette| > 1 {
      LongArrayLength(PackedIndices(states));
      var second := Entry(Ascii("data"), LongArray(PackedIndices(states)));
      TwoEntries(first, second);
      assert BlockStatesNbt(states) == Compound([first, second]);
      PayloadOfCompound([first, second]);
    } else {
      TwoEntries(first, first);
      assert BlockStatesNbt(states) == Compound([first]);
      PayloadOfCompound([first]);
    }
  }

  lemma PayloadOfCompound(entries: seq<Entry>)
    ensures Payload(Compound(entries)) == EntriesPayload(entries)
  {
    hide EntriesPayload;
  }

  lemma SupportedStatesLength(states: seq<u16>)
    requires |states| <= SECTION_VOLUME && forall k :: 0 <= k < |states| ==> Supported(states[k])
    ensures |Payload(BlockStatesNbt(states))| <= 2563
  {
    hide Payload, PaletteOf, PackedIndices, BlockStatesNbt, Supported;
    SupportedPalette(states);
    EmptyPalette(states);
    if |WrittenPalette(states)| > 1 {
      SmallPalettePacks(states);
    }
    BlockStatesLength(states, 256);
  }

  lemma AnyStatesLength(states: seq<u16>)
    requires |states| <= SECTION_VOLUME
    ensures |Payload(BlockStatesNbt(states))| <= 282_651
  {
    hide Payload, PaletteOf, PackedIndices, BlockStatesNbt;
    EmptyPalette(states);
    if |WrittenPalette(states)| > 1 {
      AnyPalettePacks(states);
    }
    BlockStatesLength(states, SECTION_VOLUME);
  }

  lemma BiomesLength()
    ensures |Payload(BIOMES)| <= 34
  {
    hide Payload;
    var plains := [String(Ascii("minecraft:plains"))];
    StringLength(Ascii("minecraft:plains"));
    ListBound(plains, 18);
    CompoundBound([Entry(Ascii("palette"), List(plains))], 33);
  }

  lemma ScalarLength(b: i8, i: i32, l: i64)
    ensures |Payload(Byte(b))| == 1 && |Payload(Int(i))| == 4 && |Payload(Long(l))| == 8
    ensures |Payload(List([]))| == 5 && |Payload(NOTHING)| == 1
  {}

  lemma SectionLength(index: nat, s: Section, n: nat)
    requires s.Valid() && index < SECTION_COUNT && |Payload(BlockStatesNbt(s.states))| <= n
    ensures |Payload(SectionNbt(index, s))| <= n + 64
  {
    hide Payload, BlockStatesNbt, NonAir;
    BiomesLength();
    ScalarLength(MIN_Y / 16 + index, 0, 0);
    var entries := SectionNbt(index, s).entries;
    EntriesSplit([entries[0]], [entries[1], entries[2]]);
    TwoEntries(entries[0], entries[0]);
    TwoEntries(entries[1], entries[2]);
    assert entries == [entries[0]] + [entries[1], entries[2]];
    PayloadOfCompound(entries);
  }

  lemma HeightmapsLength(packed: seq<i64>)
    requires |packed| == 37
    ensures |Payload(HeightmapsNbt(packed))| <= 1313
  {
    hide Payload;
    LongArrayLength(packed);
    CompoundBound(HeightmapsNbt(packed).entries, 328);
  }

  lemma PostProcessingLength()
    ensures |Payload(List(seq(SECTION_COUNT, _ => List([]))))| <= 125
  {
    hide Payload;
    ScalarLength(0, 0, 0);
    var items: seq<Nbt> := seq(SECTION_COUNT, _ => List([]));
    ListBound(items, 5);
  }

  lemma StructuresLength()
    ensures |Payload(Compound([Entry(Ascii("References"), NOTHING), Entry(Ascii("starts"), NOTHING)]))| <= 29
  {
    hide Payload;
    ScalarLength(0, 0, 0);
    CompoundBound([Entry(Ascii("References"), NOTHING), Entry(Ascii("starts"), NOTHING)], 14);
  }

  /** All entries but the sections are small. */
  lemma SmallEntries(pos: ChunkPos, lastUpdate: i64, heightmap: seq<i64>, sections: seq<Nbt>)
    requires |heightmap| == 37
    ensures var entries := ChunkEntries(pos, lastUpdate, heightmap, sections);
      |entries| == 15 && forall i :: 0 <= i < 15 && i != 9 ==> EntryLength(entries[i]) <= 1326
  {
    hide Payload, HeightmapsNbt;
    ScalarLength(0, DATA_VERSION, lastUpdate);
    ScalarLength(0, pos.x, 0);
    ScalarLength(0, pos.z, 0);
    ScalarLength(0, MIN_Y / 16, 0);
    StringLength(Ascii("minecraft:full"));
    HeightmapsLength(heightmap);
    PostProcessingLength();
    StructuresLength();
  }

  /** The NBT of a column, from a bound on its sections' blocks. */
  lemma ChunkLength(c: Column, lastUpdate: i64, n: nat)
    requires c.Valid()
    requires forall i :: 0 <= i < SECTION_COUNT ==> |Payload(BlockStatesNbt(c.sections[i].states))| <= n
    ensures |NamedBytes(ToNbt(c, lastUpdate), [])| <= SECTION_COUNT * (n + 64) + 20_000
  {
    hide Payload, EntriesPayload, ChunkEntries, SectionNbt, PerLongWords, Heights, EntryLength, Section.Valid;
    HeightsRoundTrip(c);
    var sections := SectionsNbt(c);
    forall i | 0 <= i < |sections|
      ensures |Payload(sections[i])| <= n + 64
    {
      SectionLength(i, c.sections[i], n);
    }
    ListBound(sections, n + 64);
    var entries := ChunkEntries(c.pos, lastUpdate, PackedHeights(c), sections);
    SmallEntries(c.pos, lastUpdate, PackedHeights(c), sections);
    EntriesBound(entries[..9], 1326);
    EntriesBound(entries[10..], 1326);
    SectionsEntry(c.pos, lastUpdate, PackedHeights(c), sections);
    EntriesBound([entries[9]], EntryLength(entries[9]));
    assert entries == entries[..9] + ([entries[9]] + entries[10..]);
    EntriesSplit([entries[9]], entries[10..]);
    EntriesSplit(entries[..9], [entries[9]] + entries[10..]);
    NamedLength(entries);
  }

  const NBT_BOUND: nat := 90_000

  /** The NBT of a column of table states. */
  lemma ChunkNbtLength(c: Column, lastUpdate: i64)
    requires c.Valid() && OnlySupported(c)
    ensures |NamedBytes(ToNbt(c, lastUpdate), [])| <= NBT_BOUND
  {
    hide Payload, BlockStatesNbt, ToNbt, NamedBytes, Supported, NonAir;
    forall i | 0 <= i < SECTION_COUNT
      ensures |Payload(BlockStatesNbt(c.sections[i].states))| <= 2563
    {
      SupportedStatesLength(c.sections[i].states);
    }
    ChunkLength(c, lastUpdate, 2563);
  }

  const ANY_NBT_BOUND: nat := 7_000_000

  /** The NBT of any column. */
  lemma AnyNbtLength(c: Column, lastUpdate: i64)
    requires c.Valid()
    ensures |NamedBytes(ToNbt(c, lastUpdate), [])| <= ANY_NBT_BOUND
  {
    hide Payload, BlockStatesNbt, ToNbt, NamedBytes, NonAir;
    forall i | 0 <= i < SECTION_COUNT
      ensures |Payload(BlockStatesNbt(c.sections[i].states))| <= 282_651
    {
      AnyStatesLength(c.sections[i].states);
    }
    ChunkLength(c, lastUpdate, 282_651);
  }

  lemma SectionsEntry(pos: ChunkPos, lastUpdate: i64, heightmap: seq<i64>, sections: seq<Nbt>)
    ensures var entries := ChunkEntries(pos, lastUpdate, heightmap, sections);
      |entries| == 15 && EntryLength(entries[9]) == 11 + |Payload(List(sections))|
  {
    hide Payload, HeightmapsNbt;
  }

  lemma NamedLength(entries: seq<Entry>)
    ensures |NamedBytes(Compound(entries), [])| == 3 + |EntriesPayload(entries)|
  {
    hide EntriesPayload;
  }

  // -------------------------------------------------------------------- the record

  /** Compression never more than doubles its input, give or take 64 bytes. */
  ghost predicate IsModest(z: Zlib) { forall d :: |z.compress(d)| <= 2 * |d| + 64 }

  /** So a column of table states always fits the region format. */
  lemma SupportedFits(z: Zlib, c: Column, lastUpdate: i64)
    requires IsModest(z) && c.Valid() && OnlySupported(c)
    ensures Fits(z, c, lastUpdate)
  {
    hide ToNbt, NamedBytes, OnlySupported, SlotOf;
    ChunkNbtLength(c, lastUpdate);
    var bytes := NamedBytes(ToNbt(c, lastUpdate), []);
    assert |z.compress(bytes)| <= 2 * |bytes| + 64;
  }

  const ANY_SECTORS: nat := 3_420

  lemma AnySectors(z: Zlib, c: Column, lastUpdate: i64)
    requires IsModest(z) && c.Valid()
    ensures Sectors(RecordOf(z, c, lastUpdate)) <= ANY_SECTORS
    ensures |RecordOf(z, c, lastUpdate).body| + 1 < 0x1_0000_0000
  {
    hide ToNbt, NamedBytes, SlotOf;
    AnyNbtLength(c, lastUpdate);
    var bytes := NamedBytes(ToNbt(c, lastUpdate), []);
    assert |z.compress(bytes)| <= 2 * |bytes| + 64;
  }

  /** And whatever the columns of a region hold, their file stays within the limits of the header. */
  lemma AnyInLimits(z: Zlib, columns: seq<Column>, lastUpdate: i64, region: (int, int))
    requires IsModest(z) && AllValid(columns) && DistinctPositions(columns) && InOneRegion(columns, region)
    ensures InLimits(Records(z, columns, lastUpdate))
  {
    hide IsModest, RecordOf, StartOf, Sectors, DistinctPositions, InOneRegion, HaveSlots, DistinctSlots;
    var records := Records(z, columns, lastUpdate);
    PositionsGiveSlots(z, columns, lastUpdate, region);
    AtMostAllSlots(records);
    forall k | 0 <= k < |records|
      ensures Sectors(records[k]) <= ANY_SECTORS && |records[k].body| + 1 < 0x1_0000_0000
    {
      AnySectors(z, columns[k], lastUpdate);
    }
    forall k | 0 <= k < |records|
      ensures StartOf(records, k) < 0x100_0000
    {
      StartIsBounded(records, k, ANY_SECTORS);
    }
  }
}
