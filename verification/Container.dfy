/** Paletted containers on the wire: the encoder of `loadstone-world/src/encode.rs` against
    the decoder of `loadstone-protocol/src/chunk.rs`. The encoder packs per long, the decoder
    reads a spanning stream. */
module Container {
  import opened Machine
  import opened Arith
  import opened Protocol
  import opened Reader
  import opened Packing
  import opened Palette
  import opened Chunk
  import VarInt
  import Nbt
  import NbtCodec
  import NbtProofs

  // -------------------------------------------------------------- definitions

  function EntryBits(paletteLen: nat): (bits: nat)
    requires paletteLen >= 2
    ensures 4 <= bits <= 15
  {
    if paletteLen <= 16 then 4
    else if paletteLen <= 32 then 5
    else if paletteLen <= 64 then 6
    else if paletteLen <= 128 then 7
    else if paletteLen <= 256 then 8
    else 15
  }

  function VarInts(values: seq<u16>): seq<byte> {
    if |values| == 0 then [] else VarInt.Bytes(values[0]) + VarInts(values[1..])
  }

  /** The numbers that are packed: palette indices, or the states themselves at 15 bits. */
  function Packed(states: seq<u16>): (values: seq<nat>)
    requires |PaletteOf(states)| >= 2
    ensures |values| == |states|
  {
    PaletteIsExact(states);
    if EntryBits(|PaletteOf(states)|) == 15 then states else Indices(states, PaletteOf(states))
  }

  function PackedBytes(states: seq<u16>): seq<byte>
    requires |PaletteOf(states)| >= 2
  {
    Nbt.I64sBytes(AsLongs(PerLongWords(Packed(states), EntryBits(|PaletteOf(states)|))))
  }

  function PaletteBytes(palette: seq<u16>): seq<byte> { VarInt.Bytes(|palette|) + VarInts(palette) }

  function ContainerBytes(states: seq<u16>): seq<byte> {
    hide PaletteOf, PackedBytes, PaletteBytes, VarInt.Bytes;
    var palette := PaletteOf(states);
    if |palette| <= 1 then [0] + VarInt.Bytes(if |palette| == 0 then AIR else palette[0])
    else
      var bits := EntryBits(|palette|);
      [bits] + (if bits < 15 then PaletteBytes(palette) else []) + PackedBytes(states)
  }

  function VarIntsAt(data: seq<byte>, pos: nat, n: nat): (r: Result<(seq<u16>, nat)>)
    requires pos <= |data|
    ensures r.Ok? ==> |r.value.0| == n && pos <= r.value.1 <= |data|
    decreases n
  {
    if n == 0 then Ok(([], pos))
    else
      var (v, p) :- VarInt.ReadAt(data, pos);
      var (rest, end) :- VarIntsAt(data, p, n - 1);
      Ok(([v % 0x1_0000] + rest, end))
  }

  /** `unpack_spanning` over `count` entries of `bits` bits read from the stream. A width of 64 or
      more reads its words and then overflows the shift. */
  function SpanningAt(data: seq<byte>, pos: nat, bits: nat, count: nat): (r: Result<(seq<u16>, nat)>)
    requires pos <= |data| && bits > 0
    ensures r.Ok? ==> |r.value.0| == count && pos <= r.value.1 <= |data|
    ensures r.Ok? ==> count * bits >= 0 && r.value.1 == pos + 8 * DivCeil(count * bits, 64)
  {
    MulPositiveOrZero(count, bits);
    var (longs, end) :- Nbt.I64sAt(data, pos, DivCeil(count * bits, 64));
    if bits >= 64 then Err(Overflow) else Ok((SpanningValues(AsWords(longs), bits, count), end))
  }

  function Uniform(value: u16, count: nat): (values: seq<u16>)
    ensures |values| == count && forall i :: 0 <= i < count ==> values[i] == value
  {
    seq(count, _ => value)
  }

  /** `PalettedContainer::decode`. */
  function ContainerAt(data: seq<byte>, pos: nat, count: nat): (r: Result<(seq<u16>, nat)>)
    requires pos <= |data|
    ensures r.Ok? ==> |r.value.0| == count && pos < r.value.1 <= |data|
  {
    var (bits, p) :- U8At(data, pos);
    if bits == 0 then
      var (v, end) :- VarInt.ReadAt(data, p);
      Ok((Uniform(v % 0x1_0000, count), end))
    else if bits > 8 then SpanningAt(data, p, bits, count)
    else
      var (len, q) :- VarInt.ReadAt(data, p);
      if len <= 0 then Err(InvalidStringLength(len))
      else
        var (palette, s) :- VarIntsAt(data, q, len);
        var (indices, end) :- SpanningAt(data, s, bits, count);
        Ok((Resolve(palette, indices), end))
  }

  // ------------------------------------------------------------------ the code

  lemma {:induction false} VarIntsSnoc(values: seq<u16>, k: nat)
    requires k < |values|
    ensures VarInts(values[..k + 1]) == VarInts(values[..k]) + VarInt.Bytes(values[k])
    decreases k
  {
    hide VarInt.Bytes;
    if k == 0 {
      assert values[..1][1..] == [];
    } else {
      VarIntsSnoc(values[1..], k - 1);
      assert values[..k + 1][1..] == values[1..][..k];
      assert values[..k][1..] == values[1..][..k - 1];
    }
  }

  method WritePalette(out: PacketWriter, palette: seq<u16>)
    requires |palette| < 0x8000_0000
    modifies out
    ensures out.buf == old(out.buf) + PaletteBytes(palette)
  {
    hide VarInt.Bytes, VarInts;
    VarInt.Write(out, |palette|);
    ghost var start := out.buf;
    NoVarInts();
    assert palette[..0] == [];
    for k := 0 to |palette|
      invariant out.buf == start + VarInts(palette[..k])
    {
      VarIntsSnoc(palette, k);
      VarInt.Write(out, palette[k]);
    }
    assert palette[..|palette|] == palette;
  }

  lemma NoVarInts()
    ensures VarInts([]) == []
  {}

  /** `pack_indices`: the shared per-long loop over indices or states, then the words. */
  method WriteIndices(out: PacketWriter, states: seq<u16>, palette: seq<u16>, bits: nat)
    requires palette == PaletteOf(states) && |palette| >= 2 && bits == EntryBits(|palette|)
    modifies out
    ensures out.buf == old(out.buf) + PackedBytes(states)
  {
    hide PaletteOf, PerLongWords, Nbt.I64sBytes;
    PaletteIsExact(states);
    var values: seq<nat> := if bits == 15 then states else Indices(states, palette);
    var words := PackPerLong(values, bits);
    NbtCodec.WriteI64s(words, out);
  }

  /** The three forms of a container. */
  lemma Forms(states: seq<u16>)
    ensures |PaletteOf(states)| == 0 ==> ContainerBytes(states) == [0] + VarInt.Bytes(AIR)
    ensures |PaletteOf(states)| == 1 ==> ContainerBytes(states) == [0] + VarInt.Bytes(PaletteOf(states)[0])
    ensures 2 <= |PaletteOf(states)| <= 256 ==>
      ContainerBytes(states) == [EntryBits(|PaletteOf(states)|)] + PaletteBytes(PaletteOf(states)) + PackedBytes(states)
    ensures |PaletteOf(states)| > 256 ==> ContainerBytes(states) == [15] + PackedBytes(states)
  {
    hide PaletteOf, VarInt.Bytes, PaletteBytes, PackedBytes;
    if |PaletteOf(states)| > 256 {
      assert [15] + [] + PackedBytes(states) == [15] + PackedBytes(states);
    }
  }

  lemma Appended(start: seq<byte>, x: byte, a: seq<byte>, b: seq<byte>)
    ensures start + [x] + a + b == start + ([x] + a + b)
    ensures start + [x] + a == start + ([x] + a)
  {}

  /** The block half of `write_paletted_container`. */
  method WriteBlocks(out: PacketWriter, states: seq<u16>)
    requires |states| < 0x8000_0000
    modifies out
    ensures out.buf == old(out.buf) + ContainerBytes(states)
  {
    hide PaletteOf, VarInt.Bytes, PaletteBytes, PackedBytes, ContainerBytes;
    ghost var start := out.buf;
    Forms(states);
    var palette := BuildPalette(states);
    if |palette| <= 1 {
      var value := if |palette| == 0 then AIR else palette[0];
      out.WriteU8(0);
      VarInt.Write(out, value);
      Appended(start, 0, VarInt.Bytes(value), []);
    } else {
      var bits := EntryBits(|palette|);
      out.WriteU8(bits);
      if bits < 15 {
        WritePalette(out, palette);
      }
      WriteIndices(out, states, palette, bits);
      Appended(start, bits, PaletteBytes(palette), PackedBytes(states));
      Appended(start, bits, PackedBytes(states), []);
    }
  }

  /** `write_paletted_container`: the blocks, then the one-value biome container. */
  method WriteContainer(out: PacketWriter, states: seq<u16>, biome: i32)
    requires |states| < 0x8000_0000
    modifies out
    ensures out.buf == old(out.buf) + ContainerBytes(states) + ([0] + VarInt.Bytes(biome))
  {
    hide VarInt.Bytes, ContainerBytes;
    WriteBlocks(out, states);
    out.WriteU8(0);
    VarInt.Write(out, biome);
  }

  method ReadPalette(reader: PacketReader, n: nat) returns (r: Result<seq<u16>>)
    requires reader.pos <= |reader.data|
    modifies reader
    ensures reader.pos <= |reader.data| && Follows(r, reader.pos, VarIntsAt(reader.data, old(reader.pos), n))
  {
    hide VarInt.ReadAt;
    ghost var start := reader.pos;
    var palette: seq<u16> := [];
    assert VarIntsAt(reader.data, start, n) == NbtCodec.Prepend([], VarIntsAt(reader.data, start, n)) by {
      if VarIntsAt(reader.data, start, n).Ok? {
        assert [] + VarIntsAt(reader.data, start, n).value.0 == VarIntsAt(reader.data, start, n).value.0;
      }
    }
    for k := 0 to n
      invariant reader.pos <= |reader.data|
      invariant VarIntsAt(reader.data, start, n) == NbtCodec.Prepend(palette, VarIntsAt(reader.data, reader.pos, n - k))
    {
      var value :- reader.ReadVarInt();
      NbtCodec.PrependStep(palette, value % 0x1_0000, VarIntsAt(reader.data, reader.pos, n - k - 1));
      palette := palette + [value % 0x1_0000];
    }
    NbtCodec.PrependNil(palette, reader.pos);
    r := Ok(palette);
  }

  method ReadSpanning(reader: PacketReader, bits: nat, count: nat) returns (r: Result<seq<u16>>)
    requires reader.pos <= |reader.data| && bits > 0
    modifies reader
    ensures reader.pos <= |reader.data| && Follows(r, reader.pos, SpanningAt(reader.data, old(reader.pos), bits, count))
  {
    hide Nbt.I64sAt, SpanningValues;
    MulPositiveOrZero(count, bits);
    var longs :- NbtCodec.ReadI64s(reader, DivCeil(count * bits, 64));
    if bits >= 64 {
      return Err(Overflow);
    }
    var values := UnpackSpanning(longs, bits, count);
    r := Ok(values);
  }

  method DecodeContainer(reader: PacketReader, count: nat) returns (r: Result<seq<u16>>)
    requires reader.pos <= |reader.data|
    modifies reader
    ensures reader.pos <= |reader.data| && Follows(r, reader.pos, ContainerAt(reader.data, old(reader.pos), count))
  {
    hide SpanningAt, VarIntsAt, VarInt.ReadAt;
    var bits :- reader.ReadU8();
    if bits == 0 {
      var value :- reader.ReadVarInt();
      return Ok(Uniform(value % 0x1_0000, count));
    }
    if bits > 8 {
      r := ReadSpanning(reader, bits, count);
      return;
    }
    var len :- reader.ReadVarInt();
    if len <= 0 {
      return Err(InvalidStringLength(len));
    }
    var palette :- ReadPalette(reader, len);
    var indices :- ReadSpanning(reader, bits, count);
    r := Ok(Resolve(palette, indices));
  }

  // -------------------------------------------------------------------- the law

  lemma {:induction false} VarIntsRoundTrip(data: seq<byte>, pos: nat, values: seq<u16>)
    requires At(data, pos, VarInts(values))
    ensures VarIntsAt(data, pos, |values|) == Ok((values, pos + |VarInts(values)|))
    decreases |values|
  {
    hide VarInt.Bytes, VarInt.ReadAt;
    if |values| > 0 {
      AtSplit(data, pos, VarInt.Bytes(values[0]), VarInts(values[1..]));
      VarInt.RoundTrip(data, pos, values[0]);
      VarIntsRoundTrip(data, pos + |VarInt.Bytes(values[0])|, values[1..]);
      assert values == [values[0]] + values[1..];
    }
  }

  /** The palette sizes whose packing both sides read the same way: widths 0, 4 and 8. */
  predicate SameScheme(paletteLen: nat) { paletteLen <= 16 || 129 <= paletteLen <= 256 }

  /** The encoder writes as many words as the decoder reads exactly for those sizes. */
  lemma WordCounts(values: seq<nat>, n: nat)
    requires n >= 2 && |values| == SECTION_VOLUME
    ensures var words := |PerLongWords(values, EntryBits(n))|;
      if SameScheme(n) then words == DivCeil(SECTION_VOLUME * EntryBits(n), 64)
      else words > DivCeil(SECTION_VOLUME * EntryBits(n), 64)
  {
    hide PerLongWords;
    var bits := EntryBits(n);
    assert |PerLongWords(values, bits)| == DivCeil(SECTION_VOLUME, 64 / bits);
  }

  /** At widths 4 and 8 the spanning reader finds the packed indices. */
  lemma PackedRoundTrip(data: seq<byte>, pos: nat, states: seq<u16>)
    requires |states| == SECTION_VOLUME && |PaletteOf(states)| >= 2 && SameScheme(|PaletteOf(states)|)
    requires At(data, pos, PackedBytes(states))
    ensures SpanningAt(data, pos, EntryBits(|PaletteOf(states)|), SECTION_VOLUME)
         == Ok((Packed(states), pos + |PackedBytes(states)|))
  {
    hide PaletteOf, PerLongWords, Nbt.I64sBytes, Nbt.I64sAt, SpanningValues, IsSpanning, Pow2, Indices;
    PaletteIsExact(states);
    var bits, values := EntryBits(|PaletteOf(states)|), Packed(states);
    var words := PerLongWords(values, bits);
    WordCounts(values, |PaletteOf(states)|);
    NbtProofs.I64sRoundTrip(data, pos, AsLongs(words));
    PerLongWordsFit(values, bits);
    WordsSurviveTheCast(words);
    PerLongIsSpanning(values, bits);
    Pow2Values();
    SpanningRoundTrip(words, values, bits);
  }

  lemma UniformRoundTrip(data: seq<byte>, pos: nat, states: seq<u16>)
    requires |states| == SECTION_VOLUME && |PaletteOf(states)| == 1
    requires At(data, pos, ContainerBytes(states))
    ensures ContainerAt(data, pos, SECTION_VOLUME) == Ok((states, pos + |ContainerBytes(states)|))
  {
    hide PaletteOf, VarInt.Bytes, VarInt.ReadAt;
    var value := PaletteOf(states)[0];
    AtSplit(data, pos, [0], VarInt.Bytes(value));
    assert data[pos] == data[pos..pos + 1][0];
    VarInt.RoundTrip(data, pos + 1, value);
    UniformPalette(states);
    assert states == Uniform(value, SECTION_VOLUME);
  }

  /** What the decoder does with a palette. */
  lemma DecodesPalette(data: seq<byte>, pos: nat, bits: byte, q: nat, palette: seq<u16>, p: nat)
    requires pos < q <= p <= |data| && U8At(data, pos) == Ok((bits, pos + 1)) && 1 <= bits <= 8
    requires 0 < |palette| < 0x8000_0000 && VarInt.ReadAt(data, pos + 1) == Ok((|palette|, q))
    requires VarIntsAt(data, q, |palette|) == Ok((palette, p))
    ensures ContainerAt(data, pos, SECTION_VOLUME) ==
      match SpanningAt(data, p, bits, SECTION_VOLUME)
      case Ok((indices, end)) => Ok((Resolve(palette, indices), end))
      case Err(e) => Err(e)
  {
    hide U8At, VarInt.ReadAt, VarIntsAt, SpanningAt, Resolve;
  }

  /** The palette form, up to the packed words. */
  lemma PaletteForm(data: seq<byte>, pos: nat, states: seq<u16>)
    requires 2 <= |PaletteOf(states)| <= 256 && |PaletteOf(states)| <= |states| < 0x8000_0000
    requires At(data, pos, ContainerBytes(states))
    ensures var palette := PaletteOf(states);
      var p, bits := pos + 1 + |PaletteBytes(palette)|, EntryBits(|palette|);
      && At(data, p, PackedBytes(states)) && p + |PackedBytes(states)| == pos + |ContainerBytes(states)|
      && ContainerAt(data, pos, SECTION_VOLUME) ==
           match SpanningAt(data, p, bits, SECTION_VOLUME)
           case Ok((indices, end)) => Ok((Resolve(palette, indices), end))
           case Err(e) => Err(e)
  {
    hide PaletteOf, VarInt.Bytes, VarInt.ReadAt, VarInts, VarIntsAt, SpanningAt, PackedBytes, ContainerAt,
         ContainerBytes, Resolve;
    var palette := PaletteOf(states);
    var bits := EntryBits(|palette|);
    var len, rest := VarInt.Bytes(|palette|), VarInts(palette);
    Forms(states);
    AtSplit(data, pos, [bits] + PaletteBytes(palette), PackedBytes(states));
    AtSplit(data, pos, [bits], len + rest);
    assert data[pos] == data[pos..pos + 1][0];
    AtSplit(data, pos + 1, len, rest);
    VarInt.RoundTrip(data, pos + 1, |palette|);
    VarIntsRoundTrip(data, pos + 1 + |len|, palette);
    DecodesPalette(data, pos, bits, pos + 1 + |len|, palette, pos + 1 + |len| + |rest|);
  }

  /** A section's container is decoded to its states with nothing left over, wherever it stands and
      whatever follows, for exactly the palette sizes 1 to 16 and 129 to 256. */
  lemma ContainerRoundTrip(data: seq<byte>, pos: nat, states: seq<u16>)
    requires |states| == SECTION_VOLUME && At(data, pos, ContainerBytes(states))
    ensures ContainerAt(data, pos, SECTION_VOLUME) == Ok((states, pos + |ContainerBytes(states)|))
       <==> SameScheme(|PaletteOf(states)|)
  {
    hide PaletteOf, VarInt.Bytes, VarInt.ReadAt, VarIntsAt, SpanningAt, PackedBytes, PaletteBytes, ContainerAt,
         ContainerBytes;
    EmptyPalette(states);
    var n := |PaletteOf(states)|;
    if n == 1 {
      UniformRoundTrip(data, pos, states);
    } else if n <= 256 {
      PaletteForm(data, pos, states);
      var p := pos + 1 + |PaletteBytes(PaletteOf(states))|;
      if SameScheme(n) {
        PackedRoundTrip(data, p, states);
        PaletteIsExact(states);
        ResolveIndices(states, PaletteOf(states));
      } else {
        TooManyWords(states);
      }
    } else {
      DirectForm(data, pos, states);
      TooManyWords(states);
    }
  }

  lemma TooManyWords(states: seq<u16>)
    requires |states| == SECTION_VOLUME && |PaletteOf(states)| >= 2 && !SameScheme(|PaletteOf(states)|)
    ensures |PackedBytes(states)| > 8 * DivCeil(SECTION_VOLUME * EntryBits(|PaletteOf(states)|), 64)
  {
    hide PaletteOf, PerLongWords, Nbt.I64sBytes;
    WordCounts(Packed(states), |PaletteOf(states)|);
    Nbt.LongsLength(AsLongs(PerLongWords(Packed(states), EntryBits(|PaletteOf(states)|))));
  }

  lemma DirectForm(data: seq<byte>, pos: nat, states: seq<u16>)
    requires |PaletteOf(states)| > 256 && At(data, pos, ContainerBytes(states))
    ensures |ContainerBytes(states)| == 1 + |PackedBytes(states)| && pos + 1 <= |data|
    ensures ContainerAt(data, pos, SECTION_VOLUME) == SpanningAt(data, pos + 1, 15, SECTION_VOLUME)
  {
    hide PaletteOf, SpanningAt, PackedBytes;
    assert ContainerBytes(states)[0] == 15;
    assert data[pos] == data[pos..pos + |ContainerBytes(states)|][0];
  }

  /** An empty section is written as one value and decoded as 4096 blocks of air. */
  lemma EmptyRoundTrip(data: seq<byte>, pos: nat)
    requires At(data, pos, ContainerBytes([]))
    ensures ContainerAt(data, pos, SECTION_VOLUME) == Ok((AllOf(AIR), pos + |ContainerBytes([])|))
  {
    hide VarInt.Bytes, VarInt.ReadAt;
    AtSplit(data, pos, [0], VarInt.Bytes(AIR));
    assert data[pos] == data[pos..pos + 1][0];
    VarInt.RoundTrip(data, pos + 1, AIR);
    assert AllOf(AIR) == Uniform(AIR, SECTION_VOLUME);
  }
}
