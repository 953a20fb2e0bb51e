/** What the two sides of a block container mean, each for every palette: the encoder writes what a per-long reader
    reads (`encode.rs:9-10`), and the decoder reads what a spanning writer writes (`chunk.rs:15-18`). */
module ContainerFormat {
  import opened Machine
  import opened Arith
  import opened Protocol
  import opened Reader
  import opened Packing
  import opened Palette
  import opened Chunk
  import opened Container
  import VarInt
  import Nbt
  import NbtProofs

  // ------------------------------------------------------- a reader of per-long containers

  /** `count` values of `bits` bits, whole in their words. */
  function PerLongAt(data: seq<byte>, pos: nat, bits: nat, count: nat): (r: Result<(seq<u16>, nat)>)
    requires pos <= |data| && 1 <= bits < 64
    ensures r.Ok? ==> |r.value.0| == count && pos <= r.value.1 <= |data|
  {
    PerLongPositive(bits);
    var (longs, end) :- Nbt.I64sAt(data, pos, DivCeil(count, 64 / bits));
    Ok((UnpackPerLong(longs, bits, count), end))
  }

  /** A client's reading: one value, palette indices up to eight bits, or fifteen-bit states. */
  function ClientAt(data: seq<byte>, pos: nat, count: nat): (r: Result<(seq<u16>, nat)>)
    requires pos <= |data|
    ensures r.Ok? ==> |r.value.0| == count
  {
    var (bits, p) :- U8At(data, pos);
    if bits == 0 then
      var (v, end) :- VarInt.ReadAt(data, p);
      Ok((Uniform(v % 0x1_0000, count), end))
    else if bits <= 8 then
      var (len, q) :- VarInt.ReadAt(data, p);
      var (palette, s) :- VarIntsAt(data, q, if len < 0 then 0 else len);
      var (indices, end) :- PerLongAt(data, s, bits, count);
      Ok((Resolve(palette, indices), end))
    else PerLongAt(data, p, 15, count)
  }

  lemma IndicesComeBack(data: seq<byte>, pos: nat, states: seq<u16>)
    requires |states| == SECTION_VOLUME && |PaletteOf(states)| >= 2 && At(data, pos, PackedBytes(states))
    requires |PaletteOf(states)| > 256 ==> forall s :: s in states ==> s < 0x8000
    ensures PerLongAt(data, pos, EntryBits(|PaletteOf(states)|), SECTION_VOLUME)
         == Ok((Packed(states), pos + |PackedBytes(states)|))
  {
    hide PaletteOf, PerLongWords, Nbt.I64sBytes, Nbt.I64sAt, UnpackPerLong, Pow2, Indices;
    PaletteIsExact(states);
    var bits, values := EntryBits(|PaletteOf(states)|), Packed(states);
    PackedFit(states);
    var words := PerLongWords(values, bits);
    NbtProofs.I64sRoundTrip(data, pos, AsLongs(words));
    PerLongRoundTrip(values, bits);
  }

  /** Every packed number fits its width. */
  lemma PackedFit(states: seq<u16>)
    requires |PaletteOf(states)| >= 2
    requires |PaletteOf(states)| > 256 ==> forall s :: s in states ==> s < 0x8000
    ensures AreDigits(Packed(states), Pow2(EntryBits(|PaletteOf(states)|)))
    ensures forall i :: 0 <= i < |Packed(states)| ==> Packed(states)[i] < 0x1_0000
  {
    hide PaletteOf, Pow2, Indices;
    PaletteIsExact(states);
    EntryBitsFit(|PaletteOf(states)|);
    assert forall i :: 0 <= i < |states| ==> states[i] in states;
  }

  /** Up to 256 states the width is the least from four on that fits every index; beyond, it is fifteen. */
  lemma EntryBitsFit(n: nat)
    requires n >= 2
    ensures n <= 256 ==> n <= Pow2(EntryBits(n)) <= 256 && (EntryBits(n) > 4 ==> Pow2(EntryBits(n) - 1) < n)
    ensures n > 256 ==> EntryBits(n) == 15 && Pow2(EntryBits(n)) == 0x8000
  {
    hide Pow2;
    Pow2Values();
    Pow2Add(8, 7);
    Pow2Monotone(4, EntryBits(n));
    if n <= 256 {
      Pow2Monotone(EntryBits(n), 8);
      if n > 64 {
        Pow2Monotone(7, EntryBits(n));
      } else if n > 32 {
        Pow2Monotone(6, EntryBits(n));
      } else if n > 16 {
        Pow2Monotone(5, EntryBits(n));
      }
      MiddleWidths();
    }
  }

  lemma MiddleWidths()
    ensures Pow2(5) == 32 && Pow2(6) == 64 && Pow2(7) == 128
  {
    Pow2Add(4, 1);
    Pow2Add(4, 2);
    Pow2Add(4, 3);
  }

  /** Whatever the palette, a per-long reader finds in what the encoder writes exactly the section's states. (Fifteen
      bits hold the states below 32768; a palette of more than 256 states has no other room for one.) */
  lemma ClientReadsStates(data: seq<byte>, pos: nat, states: seq<u16>)
    requires |states| == SECTION_VOLUME && At(data, pos, ContainerBytes(states))
    requires |PaletteOf(states)| > 256 ==> forall s :: s in states ==> s < 0x8000
    ensures ClientAt(data, pos, SECTION_VOLUME) == Ok((states, pos + |ContainerBytes(states)|))
  {
    hide PaletteOf, VarInt.Bytes, VarInt.ReadAt, VarIntsAt, PerLongAt, PackedBytes, PaletteBytes, ClientAt,
         ContainerBytes, Resolve, Indices;
    EmptyPalette(states);
    var palette := PaletteOf(states);
    if |palette| == 1 {
      ClientReadsUniform(data, pos, states);
    } else if |palette| <= 256 {
      ClientReadsPalette(data, pos, states);
      IndicesComeBack(data, pos + 1 + |PaletteBytes(palette)|, states);
      PaletteIsExact(states);
      ResolveIndices(states, palette);
    } else {
      ClientReadsDirect(data, pos, states);
      IndicesComeBack(data, pos + 1, states);
    }
  }

  lemma ClientReadsUniform(data: seq<byte>, pos: nat, states: seq<u16>)
    requires |states| == SECTION_VOLUME && |PaletteOf(states)| == 1 && At(data, pos, ContainerBytes(states))
    ensures ClientAt(data, pos, SECTION_VOLUME) == Ok((states, pos + |ContainerBytes(states)|))
  {
    hide PaletteOf, VarInt.Bytes, VarInt.ReadAt;
    var value := PaletteOf(states)[0];
    AtSplit(data, pos, [0], VarInt.Bytes(value));
    assert data[pos] == data[pos..pos + 1][0];
    VarInt.RoundTrip(data, pos + 1, value);
    UniformPalette(states);
    assert states == Uniform(value, SECTION_VOLUME);
  }

  lemma ClientReadsPalette(data: seq<byte>, pos: nat, states: seq<u16>)
    requires |states| == SECTION_VOLUME && 2 <= |PaletteOf(states)| <= 256 && At(data, pos, ContainerBytes(states))
    ensures var palette := PaletteOf(states);
      var p := pos + 1 + |PaletteBytes(palette)|;
      && At(data, p, PackedBytes(states)) && p + |PackedBytes(states)| == pos + |ContainerBytes(states)|
      && ClientAt(data, pos, SECTION_VOLUME) ==
           match PerLongAt(data, p, EntryBits(|palette|), SECTION_VOLUME)
           case Ok((indices, end)) => Ok((Resolve(palette, indices), end))
           case Err(e) => Err(e)
  {
    hide PaletteOf, VarInt.Bytes, VarInt.ReadAt, VarInts, VarIntsAt, PerLongAt, PackedBytes, ContainerBytes, Resolve;
    var palette := PaletteOf(states);
    var bits := EntryBits(|palette|);
    Forms(states);
    PalettePart(data, pos, bits, palette, PackedBytes(states));
    assert bits <= 8;
  }

  /** Where the parts of a palette container stand. */
  lemma PalettePart(data: seq<byte>, pos: nat, bits: byte, palette: seq<u16>, words: seq<byte>)
    requires |palette| < 0x8000_0000 && At(data, pos, [bits] + PaletteBytes(palette) + words)
    ensures var q := pos + 1 + |VarInt.Bytes(|palette|)|;
      && pos < q <= |data| && U8At(data, pos) == Ok((bits, pos + 1))
      && VarInt.ReadAt(data, pos + 1) == Ok((|palette|, q))
      && VarIntsAt(data, q, |palette|) == Ok((palette, pos + 1 + |PaletteBytes(palette)|))
      && At(data, pos + 1 + |PaletteBytes(palette)|, words)
  {
    hide VarInt.Bytes, VarInt.ReadAt, VarInts, VarIntsAt;
    var len, rest := VarInt.Bytes(|palette|), VarInts(palette);
    AtSplit(data, pos, [bits] + PaletteBytes(palette), words);
    AtSplit(data, pos, [bits], len + rest);
    assert data[pos] == data[pos..pos + 1][0];
    AtSplit(data, pos + 1, len, rest);
    VarInt.RoundTrip(data, pos + 1, |palette|);
    VarIntsRoundTrip(data, pos + 1 + |len|, palette);
  }

  lemma ClientReadsDirect(data: seq<byte>, pos: nat, states: seq<u16>)
    requires |PaletteOf(states)| > 256 && At(data, pos, ContainerBytes(states))
    ensures At(data, pos + 1, PackedBytes(states)) && |ContainerBytes(states)| == 1 + |PackedBytes(states)|
    ensures ClientAt(data, pos, SECTION_VOLUME) == PerLongAt(data, pos + 1, 15, SECTION_VOLUME)
  {
    hide PaletteOf, PerLongAt, PackedBytes, ContainerBytes;
    Forms(states);
    AtSplit(data, pos, [15], PackedBytes(states));
    assert data[pos] == data[pos..pos + 1][0];
  }

  // ------------------------------------------------------ a writer of spanning containers

  /** `longs` are the values as one stream of `bits`-bit numbers. */
  ghost predicate Streams(longs: seq<i64>, values: seq<u16>, bits: nat) {
    1 <= bits <= 16 && AreDigits(values, Pow2(bits)) && IsSpanning(AsWords(longs), values, bits)
  }

  lemma StreamComesBack(data: seq<byte>, pos: nat, longs: seq<i64>, values: seq<u16>, bits: nat)
    requires Streams(longs, values, bits) && At(data, pos, Nbt.I64sBytes(longs))
    ensures SpanningAt(data, pos, bits, |values|) == Ok((values, pos + |Nbt.I64sBytes(longs)|))
  {
    hide Nbt.I64sBytes, Nbt.I64sAt, SpanningValues, Pow2, FromDigits;
    NbtProofs.I64sRoundTrip(data, pos, longs);
    SpanningRoundTrip(AsWords(longs), values, bits);
  }

  /** At every width up to eight bits the decoder resolves spanning indices against the palette. */
  lemma DecodesSpanningPalette(data: seq<byte>, pos: nat, bits: byte, palette: seq<u16>, longs: seq<i64>,
      indices: seq<u16>)
    requires 1 <= bits <= 8 && 0 < |palette| < 0x8000_0000 && Streams(longs, indices, bits)
    requires At(data, pos, [bits] + PaletteBytes(palette) + Nbt.I64sBytes(longs))
    ensures ContainerAt(data, pos, |indices|)
         == Ok((Resolve(palette, indices), pos + 1 + |PaletteBytes(palette)| + |Nbt.I64sBytes(longs)|))
  {
    hide VarInt.Bytes, VarInt.ReadAt, VarInts, VarIntsAt, SpanningAt, Nbt.I64sBytes, Resolve, Streams;
    PalettePart(data, pos, bits, palette, Nbt.I64sBytes(longs));
    StreamComesBack(data, pos + 1 + |PaletteBytes(palette)|, longs, indices, bits);
  }

  /** At every width from nine to sixteen bits it takes spanning values as they are. */
  lemma DecodesSpanningDirect(data: seq<byte>, pos: nat, bits: byte, longs: seq<i64>, values: seq<u16>)
    requires 9 <= bits <= 16 && Streams(longs, values, bits) && At(data, pos, [bits] + Nbt.I64sBytes(longs))
    ensures ContainerAt(data, pos, |values|) == Ok((values, pos + 1 + |Nbt.I64sBytes(longs)|))
  {
    hide VarInt.ReadAt, VarIntsAt, SpanningAt, Nbt.I64sBytes, Streams;
    AtSplit(data, pos, [bits], Nbt.I64sBytes(longs));
    assert data[pos] == data[pos..pos + 1][0];
    StreamComesBack(data, pos + 1, longs, values, bits);
  }
}
