/** The loops of `loadstone-world/src/anvil.rs` between a chunk and its NBT tree. */
module ChunkNbtCodec {
  import opened Machine
  import opened Arith
  import opened Packing
  import opened Palette
  import opened Chunk
  import opened Blocks
  import opened Heightmap
  import opened Nbt
  import opened ChunkNbt

  method PackPalette(states: seq<u16>, palette: seq<u16>) returns (longs: seq<i64>)
    requires |states| <= SECTION_VOLUME && |palette| >= 1 && palette == PaletteOf(states)
    ensures longs == PackedIndices(states)
  {
    hide PerLongWords, PaletteOf, BitsFor, Pow2;
    PaletteIsExact(states);
    WidthBound(|palette|);
    longs := PackPerLong(Indices(states, palette), BitsFor(|palette|));
  }

  lemma SlotPosition(w: nat, slot: nat, perLong: nat, bits: nat)
    requires 1 <= bits < 64 && perLong == 64 / bits && slot < perLong
    ensures w * perLong >= 0
    ensures (w * perLong + slot) / perLong == w && (w * perLong + slot) % perLong == slot
    ensures (w + 1) * perLong == w * perLong + perLong
  {
    DivMod(w, slot, perLong);
    MulAdd(perLong, w, 1);
  }

  lemma ValueAt(longs: seq<i64>, bits: nat, w: nat, slot: nat)
    requires 1 <= bits < 64 && w < |longs| && slot < 64 / bits
    ensures 0 <= w * (64 / bits) && 0 <= slot * bits
    ensures PerLongValue(AsWords(longs), bits, w * (64 / bits) + slot)
         == And(Shr(ToU64(longs[w]), slot * bits), Mask(bits))
  {
    hide And, Pow2, Mask, Shr;
    SlotPosition(w, slot, 64 / bits, bits);
  }

  /** `unpack_palette`: word by word, slot by slot, until there are 4096 values; missing words read as zero. */
  method UnpackPalette(data: seq<i64>, paletteLen: nat) returns (values: seq<u16>)
    requires paletteLen >= 1 && BitsFor(paletteLen) < 64
    ensures values == UnpackPerLong(data, BitsFor(paletteLen), SECTION_VOLUME)
  {
    hide And, Pow2, Mask, Shr, PerLongValue, BitsFor;
    var bits := BitsFor(paletteLen);
    var perLong := 64 / bits;
    ghost var all := UnpackPerLong(data, bits, SECTION_VOLUME);
    values := [];
    MulPositiveOrZero(0, perLong);
    assert 0 * perLong == 0;
    for w := 0 to |data|
      invariant w * perLong >= 0 && |values| == Min(w * perLong, SECTION_VOLUME)
      invariant values == all[..|values|]
    {
      var word := ToU64(data[w]);
      for slot := 0 to perLong
        invariant w * perLong >= 0 && |values| == Min(w * perLong + slot, SECTION_VOLUME)
        invariant values == all[..|values|]
      {
        SlotPosition(w, slot, perLong, bits);
        if |values| == SECTION_VOLUME {
          break;
        }
        ValueAt(data, bits, w, slot);
        values := values + [And(Shr(word, slot * bits), Mask(bits)) % 0x1_0000];
      }
      SlotPosition(w, 0, perLong, bits);
    }
    forall i | |values| <= i < SECTION_VOLUME
      ensures all[i] == 0
    {
      PastTheEnd(data, bits, i);
    }
    values := values + ZeroValues(SECTION_VOLUME - |values|);
  }

  function ZeroValues(n: nat): (zeros: seq<u16>)
    ensures |zeros| == n && forall i :: 0 <= i < n ==> zeros[i] == 0
  {
    seq(n, _ => 0)
  }

  lemma PastTheEnd(data: seq<i64>, bits: nat, i: nat)
    requires 1 <= bits < 64 && |data| * (64 / bits) >= 0 && i >= |data| * (64 / bits)
    ensures PerLongValue(AsWords(data), bits, i) == 0
  {
    var p := 64 / bits;
    Euclid(i, p);
    MulAdd(p, i / p, 1);
    if i / p < |data| {
      MulMono(i / p + 1, |data|, p);
    }
  }

  /** `block_states_to_nbt`. */
  method BlockStatesToNbt(states: seq<u16>) returns (n: Nbt)
    requires |states| <= SECTION_VOLUME
    ensures n == BlockStatesNbt(states)
  {
    hide PaletteOf, PackedIndices, PaletteEntry;
    EmptyPalette(states);
    var palette := BuildPalette(states);
    if |palette| == 0 {
      palette := [AIR];
    }
    var paletteNbt := PaletteNbt(palette);
    if |palette| == 1 {
      n := Compound([Entry(Ascii("palette"), paletteNbt)]);
    } else {
      var data := PackPalette(states, palette);
      n := Compound([Entry(Ascii("palette"), paletteNbt), Entry(Ascii("data"), LongArray(data))]);
    }
  }

  method ChunkToNbt(c: Chunk, lastUpdate: i64) returns (n: Nbt)
    requires c.Valid()
    ensures n == ToNbt(c.Value(), lastUpdate)
  {
    hide Heights, PerLongWords, BlockStatesNbt, ChunkEntries;
    var heights := ColumnHeights(c);
    WorldHeightBits();
    var packed := PackHeightmap(heights, WORLD_HEIGHT);
    ghost var v := c.Value();
    var sections := [];
    for i := 0 to SECTION_COUNT
      invariant sections == SectionsNbt(v)[..i]
    {
      assert v.sections[i] == c.sections[i].Value();
      var blockStates := BlockStatesToNbt(c.sections[i].blockStates);
      var section := Compound([Entry(Ascii("Y"), Byte(MIN_Y / 16 + i)), Entry(Ascii("block_states"), blockStates),
                               Entry(Ascii("biomes"), BIOMES)]);
      assert section == SectionNbt(i, v.sections[i]);
      sections := sections + [section];
    }
    assert sections == SectionsNbt(v);
    n := Compound(ChunkEntries(c.pos, lastUpdate, packed, sections));
  }

  /** `chunk_from_nbt` on one section: the target section is rewritten in place. */
  method ReadSection(c: Chunk, n: Nbt) returns (r: Load<()>)
    requires c.Valid()
    modifies c.sections
    ensures c.Valid()
    ensures match LoadSection(old(c.Value()), n)
            case Loaded(v) => r == Loaded(()) && c.Value() == v
            case Invalid(e) => r == Invalid(e)
  {
    hide PaletteStates, Section.Valid, CompoundGet, UnpackPerLong, Resolve, BitsFor;
    ghost var before := c.Value();
    var y :- ByteField(n, Ascii("Y"));
    var index := y - MIN_Y / 16;
    if index < 0 || index >= SECTION_COUNT {
      return Loaded(());
    }
    var blockStates :- CompoundField(n, Ascii("block_states"));
    var palette :- ListField(blockStates, Ascii("palette"));
    var states :- PaletteStates(palette);
    LoadedSectionIsValid(before.sections[index], blockStates, states);
    FillSection(c.sections[index], blockStates, states);
    assert c.Value().sections == before.sections[index := LoadedSection(before.sections[index], blockStates, states)];
    r := Loaded(());
  }

  method FillSection(target: ChunkSection, blockStates: Nbt, states: seq<u16>)
    modifies target
    ensures target.Value() == LoadedSection(old(target.Value()), blockStates, states)
  {
    hide CompoundGet, UnpackPerLong, BitsFor;
    if |states| <= 1 {
      var state := if |states| == 0 then AIR else states[0];
      if state != AIR {
        target.blockStates := AllOf(state);
        target.Recount();
      }
    } else {
      match CompoundGet(blockStates, Ascii("data")) {
        case Some(LongArray(data)) =>
          if BitsFor(|states|) < 64 {
            var values := UnpackPalette(data, |states|);
            target.blockStates := Resolve(states, values);
            target.Recount();
            if target.nonAirBlocks == 0 {
              target.blockStates := [];
            }
          }
        case _ =>
      }
    }
  }

  method EmptyChunk(pos: ChunkPos) returns (c: Chunk)
    ensures fresh(c) && fresh(c.sections) && c.Valid() && c.Value() == EmptyColumn(pos)
  {
    var sections: seq<ChunkSection> := [];
    for k := 0 to SECTION_COUNT
      invariant |sections| == k && fresh(sections)
      invariant forall i, j :: 0 <= i < j < k ==> sections[i] != sections[j]
      invariant forall s :: 0 <= s < k ==> sections[s].Value() == Section([], 0)
    {
      var section := new ChunkSection();
      sections := sections + [section];
    }
    c := new Chunk(pos, sections);
    assert c.Value().sections == EmptyColumn(pos).sections;
  }

  method ChunkFromNbt(n: Nbt) returns (r: Load<Chunk>)
    ensures match FromNbt(n)
            case Loaded(v) => r.Loaded? && fresh(r.value) && fresh(r.value.sections) && r.value.Valid()
              && r.value.Value() == v
            case Invalid(e) => r == Invalid(e)
  {
    hide CompoundGet, LoadSection, Section.Valid;
    var x :- IntField(n, Ascii("xPos"));
    var z :- IntField(n, Ascii("zPos"));
    var c := EmptyChunk(ChunkPos(x, z));
    var sections :- ListField(n, Ascii("sections"));
    ghost var whole := LoadSections(EmptyColumn(ChunkPos(x, z)), sections);
    assert sections[0..] == sections;
    for k := 0 to |sections|
      invariant c.Valid() && fresh(c.sections)
      invariant LoadSections(c.Value(), sections[k..]) == whole
    {
      assert sections[k..][0] == sections[k] && sections[k..][1..] == sections[k + 1..];
      var done := ReadSection(c, sections[k]);
      if done.Invalid? {
        return Invalid(done.error);
      }
    }
    r := Loaded(c);
  }
}
