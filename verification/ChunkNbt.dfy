/** Region-file chunk NBT (`loadstone-world/src/anvil.rs`): the tree a column is written as, how a
    tree is read back, and the loops that do it. */
module ChunkNbt {
  import opened Options
  import opened Machine
  import opened Arith
  import opened Protocol
  import opened Packing
  import opened Palette
  import opened Chunk
  import opened Blocks
  import opened Heightmap
  import opened Nbt

  const DATA_VERSION: i32 := 4671

  datatype LoadError =
    | MissingField(field: seq<byte>)
    | UnsupportedCompression(id: byte)
    | CorruptStream
    | BadNbt(error: ProtocolError)

  datatype Load<+T> = Loaded(value: T) | Invalid(error: LoadError) {
    predicate IsFailure() { Invalid? }

    function PropagateFailure<U>(): Load<U>
      requires Invalid?
    {
      Invalid(error)
    }

    function Extract(): T
      requires Loaded?
    {
      value
    }
  }

  // ------------------------------------------------------------------- writing

  /** `bits_for`: the width of the largest index, but at least four. */
  function BitsFor(paletteLen: nat): (bits: nat)
    requires paletteLen >= 1
    ensures bits >= 4
  {
    var bits := BitLength(paletteLen - 1);
    if bits < 4 then 4 else bits
  }

  function PaletteEntry(state: u16): Nbt {
    var def := match BlockDefOf(state) case Some(d) => d case None => SUPPORTED_BLOCKS[0];
    Compound([Entry(Ascii("Name"), String(def.name))] + Properties(def.snowy))
  }

  function Properties(snowy: Option<bool>): seq<Entry> {
    match snowy
    case None => []
    case Some(v) =>
      [Entry(Ascii("Properties"),
        Compound([Entry(Ascii("snowy"), String(if v then Ascii("true") else Ascii("false")))]))]
  }

  /** The palette that is written: never empty. */
  function WrittenPalette(states: seq<u16>): (palette: seq<u16>)
    ensures |palette| >= 1
  {
    if |states| == 0 then [AIR] else EmptyPalette(states); PaletteOf(states)
  }

  function PaletteNbt(palette: seq<u16>): (n: Nbt)
    ensures n.List? && |n.items| == |palette|
  {
    List(seq(|palette|, i requires 0 <= i < |palette| => PaletteEntry(palette[i])))
  }

  function PackedIndices(states: seq<u16>): seq<i64>
    requires |states| <= SECTION_VOLUME && |PaletteOf(states)| >= 1
  {
    PaletteIsExact(states);
    WidthBound(|PaletteOf(states)|);
    AsLongs(PerLongWords(Indices(states, PaletteOf(states)), BitsFor(|PaletteOf(states)|)))
  }

  lemma WidthBound(n: nat)
    requires 1 <= n <= SECTION_VOLUME
    ensures BitsFor(n) <= 12 && n <= Pow2(BitsFor(n)) && (BitsFor(n) > 4 ==> Pow2(BitsFor(n) - 1) < n)
  {
    hide Pow2;
    BitLengthBounds(n - 1);
    Pow2Values();
    Pow2Add(8, 4);
    var bits := BitLength(n - 1);
    if bits < 4 {
      Pow2Monotone(bits, 4);
    } else if bits > 12 {
      Pow2Monotone(12, bits - 1);
    }
  }

  function BlockStatesNbt(states: seq<u16>): Nbt
    requires |states| <= SECTION_VOLUME
  {
    var palette := WrittenPalette(states);
    Compound([Entry(Ascii("palette"), PaletteNbt(palette))]
      + if |palette| == 1 then [] else [Entry(Ascii("data"), LongArray(PackedIndices(states)))])
  }

  const BIOMES: Nbt := Compound([Entry(Ascii("palette"), List([String(Ascii("minecraft:plains"))]))])

  function SectionNbt(index: nat, s: Section): Nbt
    requires s.Valid() && index < SECTION_COUNT
  {
    Compound([Entry(Ascii("Y"), Byte(MIN_Y / 16 + index)), Entry(Ascii("block_states"), BlockStatesNbt(s.states)),
              Entry(Ascii("biomes"), BIOMES)])
  }

  function SectionsNbt(c: Column): (sections: seq<Nbt>)
    requires c.Valid()
    ensures |sections| == SECTION_COUNT
  {
    seq(SECTION_COUNT, i requires 0 <= i < SECTION_COUNT => SectionNbt(i, c.sections[i]))
  }

  function HeightmapsNbt(packed: seq<i64>): Nbt {
    Compound([Entry(Ascii("WORLD_SURFACE"), LongArray(packed)), Entry(Ascii("MOTION_BLOCKING"), LongArray(packed)),
              Entry(Ascii("MOTION_BLOCKING_NO_LEAVES"), LongArray(packed)),
              Entry(Ascii("OCEAN_FLOOR"), LongArray(packed))])
  }

  const NOTHING: Nbt := Compound([])

  function ChunkEntries(pos: ChunkPos, lastUpdate: i64, heightmap: seq<i64>, sections: seq<Nbt>): seq<Entry> {
    [Entry(Ascii("DataVersion"), Int(DATA_VERSION)),
     Entry(Ascii("xPos"), Int(pos.x)),
     Entry(Ascii("yPos"), Int(MIN_Y / 16)),
     Entry(Ascii("zPos"), Int(pos.z)),
     Entry(Ascii("Status"), String(Ascii("minecraft:full"))),
     Entry(Ascii("LastUpdate"), Long(lastUpdate)),
     Entry(Ascii("InhabitedTime"), Long(0)),
     Entry(Ascii("isLightOn"), Byte(0)),
     Entry(Ascii("Heightmaps"), HeightmapsNbt(heightmap)),
     Entry(Ascii("sections"), List(sections)),
     Entry(Ascii("block_entities"), List([])),
     Entry(Ascii("block_ticks"), List([])),
     Entry(Ascii("fluid_ticks"), List([])),
     Entry(Ascii("PostProcessing"), List(seq(SECTION_COUNT, _ => List([])))),
     Entry(Ascii("structures"), Compound([Entry(Ascii("References"), NOTHING), Entry(Ascii("starts"), NOTHING)]))]
  }

  function PackedHeights(c: Column): seq<i64>
    requires c.Valid()
  {
    WorldHeightBits();
    AsLongs(PerLongWords(Heights(c), BitLength(WORLD_HEIGHT)))
  }

  /** `chunk_to_nbt`. */
  function ToNbt(c: Column, lastUpdate: i64): Nbt
    requires c.Valid()
  {
    Compound(ChunkEntries(c.pos, lastUpdate, PackedHeights(c), SectionsNbt(c)))
  }

  // ------------------------------------------------------------------- reading

  /** The first entry called `key`. */
  function FindEntry(entries: seq<Entry>, key: seq<byte>): Option<Nbt> {
    if |entries| == 0 then None
    else if entries[0].name == key then Some(entries[0].value)
    else FindEntry(entries[1..], key)
  }

  function CompoundGet(n: Nbt, key: seq<byte>): Option<Nbt> {
    if n.Compound? then FindEntry(n.entries, key) else None
  }

  function IntField(n: Nbt, key: seq<byte>): Load<i32> {
    match CompoundGet(n, key) case Some(Int(v)) => Loaded(v) case _ => Invalid(MissingField(key))
  }

  function ByteField(n: Nbt, key: seq<byte>): Load<i8> {
    match CompoundGet(n, key) case Some(Byte(v)) => Loaded(v) case _ => Invalid(MissingField(key))
  }

  function StringField(n: Nbt, key: seq<byte>): Load<seq<byte>> {
    match CompoundGet(n, key) case Some(String(v)) => Loaded(v) case _ => Invalid(MissingField(key))
  }

  function CompoundField(n: Nbt, key: seq<byte>): (r: Load<Nbt>)
    ensures r.Loaded? ==> r.value.Compound?
  {
    match CompoundGet(n, key)
    case Some(Compound(entries)) => Loaded(Compound(entries))
    case _ => Invalid(MissingField(key))
  }

  function ListField(n: Nbt, key: seq<byte>): Load<seq<Nbt>> {
    match CompoundGet(n, key) case Some(List(items)) => Loaded(items) case _ => Invalid(MissingField(key))
  }

  /** The states a palette names; an unknown name is air. */
  function PaletteStates(entries: seq<Nbt>): (r: Load<seq<u16>>)
    ensures r.Loaded? ==> |r.value| == |entries|
  {
    if |entries| == 0 then Loaded([])
    else
      var name :- StringField(entries[0], Ascii("Name"));
      var rest :- PaletteStates(entries[1..]);
      Loaded([match StateForName(name) case Some(s) => s case None => AIR] + rest)
  }

  /** What a section becomes; a palette of two or more without a long array leaves it as it was.
      (A palette too long for 63-bit indices cannot exist in memory.) */
  function LoadedSection(before: Section, blockStates: Nbt, states: seq<u16>): Section {
    if |states| <= 1 then
      var state := if |states| == 0 then AIR else states[0];
      if state != AIR then Section(AllOf(state), NonAir(AllOf(state))) else before
    else
      match CompoundGet(blockStates, Ascii("data"))
      case Some(LongArray(data)) =>
        if BitsFor(|states|) >= 64 then before
        else Collapse(Resolve(states, UnpackPerLong(data, BitsFor(|states|), SECTION_VOLUME)))
      case _ => before
  }

  lemma LoadedSectionIsValid(before: Section, blockStates: Nbt, states: seq<u16>)
    requires before.Valid()
    ensures LoadedSection(before, blockStates, states).Valid()
  {
    hide UnpackPerLong, Resolve;
    assert NonAir([]) == 0;
  }

  function LoadSection(c: Column, n: Nbt): (r: Load<Column>)
    requires c.Valid()
    ensures r.Loaded? ==> r.value.Valid() && r.value.pos == c.pos
  {
    var y :- ByteField(n, Ascii("Y"));
    var index := y - MIN_Y / 16;
    if index < 0 || index >= SECTION_COUNT then Loaded(c)
    else
      var blockStates :- CompoundField(n, Ascii("block_states"));
      var palette :- ListField(blockStates, Ascii("palette"));
      var states :- PaletteStates(palette);
      LoadedSectionIsValid(c.sections[index], blockStates, states);
      hide *;
      Loaded(c.(sections := c.sections[index := LoadedSection(c.sections[index], blockStates, states)]))
  }

  function LoadSections(c: Column, sections: seq<Nbt>): (r: Load<Column>)
    requires c.Valid()
    ensures r.Loaded? ==> r.value.Valid() && r.value.pos == c.pos
    decreases |sections|
  {
    if |sections| == 0 then Loaded(c)
    else
      var c' :- LoadSection(c, sections[0]);
      LoadSections(c', sections[1..])
  }

  function EmptyColumn(pos: ChunkPos): (c: Column)
    ensures c.Valid() && c.pos == pos
  {
    Column(pos, seq(SECTION_COUNT, _ => Section([], 0)))
  }

  /** `chunk_from_nbt`. */
  function FromNbt(n: Nbt): (r: Load<Column>)
    ensures r.Loaded? ==> r.value.Valid()
  {
    var x :- IntField(n, Ascii("xPos"));
    var z :- IntField(n, Ascii("zPos"));
    var sections :- ListField(n, Ascii("sections"));
    LoadSections(EmptyColumn(ChunkPos(x, z)), sections)
  }
}
