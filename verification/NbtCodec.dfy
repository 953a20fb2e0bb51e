/** The NBT encoder and decoder as they run: the encoder appends to a buffer, the
    decoder advances a reader and pushes items in loops (`loadstone-protocol/src/nbt.rs`). */
module NbtCodec {
  import opened Machine
  import opened Protocol
  import opened Reader
  import opened Nbt

  // -------------------------------------------------------------- encoder

  method WriteName(out: PacketWriter, name: seq<byte>)
    modifies out
    ensures out.buf == old(out.buf) + NameBytes(name)
  {
    out.WriteBytes(U16Bytes(|name| % 0x1_0000));
    out.WriteBytes(name);
  }

  lemma {:induction false} ItemsPayloadSnoc(items: seq<Nbt>, k: nat)
    requires k < |items|
    ensures ItemsPayload(items[..k + 1]) == ItemsPayload(items[..k]) + Payload(items[k])
    decreases k
  {
    hide Payload;
    if k == 0 {
      assert items[..1][1..] == [];
    } else {
      ItemsPayloadSnoc(items[1..], k - 1);
      assert items[..k + 1][1..] == items[1..][..k];
      assert items[..k][1..] == items[1..][..k - 1];
    }
  }

  /** The bytes of the entries alone, without the closing zero. */
  ghost function EntriesBody(entries: seq<Entry>): seq<byte> {
    if |entries| == 0 then []
    else [Id(entries[0].value)] + NameBytes(entries[0].name) + Payload(entries[0].value) + EntriesBody(entries[1..])
  }

  lemma {:induction false} EntriesBodyIsPayload(entries: seq<Entry>)
    ensures EntriesPayload(entries) == EntriesBody(entries) + [0]
  {
    hide Payload, NameBytes;
    if |entries| > 0 {
      EntriesBodyIsPayload(entries[1..]);
    }
  }

  lemma {:induction false} EntriesBodySnoc(entries: seq<Entry>, k: nat)
    requires k < |entries|
    ensures EntriesBody(entries[..k + 1])
         == EntriesBody(entries[..k]) + [Id(entries[k].value)] + NameBytes(entries[k].name) + Payload(entries[k].value)
    decreases k
  {
    hide Payload, NameBytes;
    if k == 0 {
      assert entries[..1][1..] == [];
    } else {
      EntriesBodySnoc(entries[1..], k - 1);
      assert entries[..k + 1][1..] == entries[1..][..k];
      assert entries[..k][1..] == entries[1..][..k - 1];
    }
  }

  lemma {:induction false} I32sBytesSnoc(v: seq<i32>, k: nat)
    requires k < |v|
    ensures I32sBytes(v[..k + 1]) == I32sBytes(v[..k]) + I32Bytes(v[k])
    decreases k
  {
    hide I32Bytes;
    if k == 0 {
      assert v[..1][1..] == [];
    } else {
      I32sBytesSnoc(v[1..], k - 1);
      assert v[..k + 1][1..] == v[1..][..k];
      assert v[..k][1..] == v[1..][..k - 1];
    }
  }

  lemma {:induction false} I64sBytesSnoc(v: seq<i64>, k: nat)
    requires k < |v|
    ensures I64sBytes(v[..k + 1]) == I64sBytes(v[..k]) + I64Bytes(v[k])
    decreases k
  {
    hide I64Bytes;
    if k == 0 {
      assert v[..1][1..] == [];
    } else {
      I64sBytesSnoc(v[1..], k - 1);
      assert v[..k + 1][1..] == v[1..][..k];
      assert v[..k][1..] == v[1..][..k - 1];
    }
  }

  method WritePayload(n: Nbt, out: PacketWriter)
    modifies out
    ensures out.buf == old(out.buf) + Payload(n)
    decreases n, 1
  {
    hide I16Bytes, I32Bytes, I64Bytes, NameBytes, ItemsPayload, EntriesPayload, I32sBytes, I64sBytes;
    match n
    case Byte(v) => out.WriteU8(v % 0x100);
    case Short(v) => out.WriteBytes(I16Bytes(v));
    case Int(v) => out.WriteBytes(I32Bytes(v));
    case Long(v) => out.WriteBytes(I64Bytes(v));
    case Float(v) => out.WriteBytes(I32Bytes(v));
    case Double(v) => out.WriteBytes(I64Bytes(v));
    case ByteArray(v) =>
      out.WriteBytes(I32Bytes(|v|));
      out.WriteBytes(v);
    case String(s) => WriteName(out, s);
    case List(items) =>
      out.WriteU8(ElementId(items));
      out.WriteBytes(I32Bytes(|items|));
      WriteItems(items, out);
    case Compound(entries) => WriteEntries(entries, out);
    case IntArray(v) =>
      out.WriteBytes(I32Bytes(|v|));
      WriteI32s(v, out);
    case LongArray(v) =>
      out.WriteBytes(I32Bytes(|v|));
      WriteI64s(v, out);
  }

  method WriteI32s(v: seq<i32>, out: PacketWriter)
    modifies out
    ensures out.buf == old(out.buf) + I32sBytes(v)
  {
    hide I32Bytes, I32sBytes;
    I32sBytesEmpty();
    ghost var start := out.buf;
    assert v[..0] == [];
    for k := 0 to |v|
      invariant out.buf == start + I32sBytes(v[..k])
    {
      I32sBytesSnoc(v, k);
      out.WriteBytes(I32Bytes(v[k]));
    }
    assert v[..|v|] == v;
  }

  method WriteI64s(v: seq<i64>, out: PacketWriter)
    modifies out
    ensures out.buf == old(out.buf) + I64sBytes(v)
  {
    hide I64Bytes, I64sBytes;
    I32sBytesEmpty();
    ghost var start := out.buf;
    assert v[..0] == [];
    for k := 0 to |v|
      invariant out.buf == start + I64sBytes(v[..k])
    {
      I64sBytesSnoc(v, k);
      out.WriteBytes(I64Bytes(v[k]));
    }
    assert v[..|v|] == v;
  }

  lemma I32sBytesEmpty()
    ensures I32sBytes([]) == [] && I64sBytes([]) == []
  {}

  method WriteItems(items: seq<Nbt>, out: PacketWriter)
    modifies out
    ensures out.buf == old(out.buf) + ItemsPayload(items)
    decreases items, 0
  {
    hide Payload;
    ghost var start := out.buf;
    assert items[..0] == [];
    for k := 0 to |items|
      invariant out.buf == start + ItemsPayload(items[..k])
    {
      ItemsPayloadSnoc(items, k);
      WritePayload(items[k], out);
    }
    assert items[..|items|] == items;
  }

  method WriteEntries(entries: seq<Entry>, out: PacketWriter)
    modifies out
    ensures out.buf == old(out.buf) + EntriesPayload(entries)
    decreases entries, 0
  {
    hide Payload, NameBytes, EntriesPayload;
    ghost var start := out.buf;
    assert entries[..0] == [];
    for k := 0 to |entries|
      invariant out.buf == start + EntriesBody(entries[..k])
    {
      EntriesBodySnoc(entries, k);
      out.WriteU8(Id(entries[k].value));
      WriteName(out, entries[k].name);
      WritePayload(entries[k].value, out);
    }
    assert entries[..|entries|] == entries;
    EntriesBodyIsPayload(entries);
    out.WriteU8(0);
  }

  method ToNamedBytes(n: Nbt, name: seq<byte>) returns (bytes: seq<byte>)
    ensures bytes == NamedBytes(n, name)
  {
    hide Payload, NameBytes;
    var out := new PacketWriter();
    out.WriteU8(0x0A);
    WriteName(out, name);
    WritePayload(n, out);
    bytes := out.buf;
  }

  method ToAnonymousBytes(n: Nbt) returns (bytes: seq<byte>)
    ensures bytes == AnonymousBytes(n)
  {
    hide EntriesPayload;
    var out := new PacketWriter();
    match n {
      case Compound(entries) =>
        out.WriteU8(0x0A);
        WriteEntries(entries, out);
      case other =>
        WritePayload(other, out);
    }
    bytes := out.buf;
  }

  // -------------------------------------------------------------- decoder

  method ReadName(reader: PacketReader) returns (r: Result<seq<byte>>)
    requires reader.pos <= |reader.data|
    modifies reader
    ensures reader.pos <= |reader.data| && Follows(r, reader.pos, NameAt(reader.data, old(reader.pos)))
  {
    var len :- reader.ReadU16();
    var bytes :- reader.Take(len);
    r := if Utf8(bytes) then Ok(bytes) else Err(InvalidUtf8);
  }

  /** `non_negative` applied to the next 32-bit number. */
  method ReadLength(reader: PacketReader) returns (r: Result<nat>)
    requires reader.pos <= |reader.data|
    modifies reader
    ensures reader.pos <= |reader.data| && Follows(r, reader.pos, LengthAt(reader.data, old(reader.pos)))
  {
    var len :- reader.ReadI32();
    if len < 0 {
      return Err(InvalidStringLength(len));
    }
    r := Ok(len);
  }

  /** What a loop has to return once `head` has been pushed and the rest reads as `tail`. */
  ghost function Prepend<T>(head: seq<T>, tail: Result<(seq<T>, nat)>): Result<(seq<T>, nat)> {
    match tail
    case Ok((rest, end)) => Ok((head + rest, end))
    case Err(e) => Err(e)
  }

  lemma PrependStep<T(!new)>(head: seq<T>, v: T, tail: Result<(seq<T>, nat)>)
    ensures Prepend(head, Prepend([v], tail)) == Prepend(head + [v], tail)
  {
    if tail.Ok? {
      assert head + ([v] + tail.value.0) == head + [v] + tail.value.0;
    }
  }

  lemma PrependNil<T(!new)>(head: seq<T>, pos: nat)
    ensures Prepend(head, Ok(([], pos))) == Ok((head, pos))
  {
    assert head + [] == head;
  }

  method ReadI32s(reader: PacketReader, n: nat) returns (r: Result<seq<i32>>)
    requires reader.pos <= |reader.data|
    modifies reader
    ensures reader.pos <= |reader.data| && Follows(r, reader.pos, I32sAt(reader.data, old(reader.pos), n))
  {
    hide I32At;
    var items: seq<i32> := [];
    ghost var start := reader.pos;
    assert I32sAt(reader.data, start, n) == Prepend([], I32sAt(reader.data, start, n)) by {
      if I32sAt(reader.data, start, n).Ok? {
        assert [] + I32sAt(reader.data, start, n).value.0 == I32sAt(reader.data, start, n).value.0;
      }
    }
    for k := 0 to n
      invariant reader.pos <= |reader.data|
      invariant I32sAt(reader.data, start, n) == Prepend(items, I32sAt(reader.data, reader.pos, n - k))
    {
      ghost var before := reader.pos;
      var v :- reader.ReadI32();
      PrependStep(items, v, I32sAt(reader.data, reader.pos, n - k - 1));
      items := items + [v];
    }
    PrependNil(items, reader.pos);
    r := Ok(items);
  }

  method ReadI64s(reader: PacketReader, n: nat) returns (r: Result<seq<i64>>)
    requires reader.pos <= |reader.data|
    modifies reader
    ensures reader.pos <= |reader.data| && Follows(r, reader.pos, I64sAt(reader.data, old(reader.pos), n))
  {
    hide I64At;
    var items: seq<i64> := [];
    ghost var start := reader.pos;
    assert I64sAt(reader.data, start, n) == Prepend([], I64sAt(reader.data, start, n)) by {
      if I64sAt(reader.data, start, n).Ok? {
        assert [] + I64sAt(reader.data, start, n).value.0 == I64sAt(reader.data, start, n).value.0;
      }
    }
    for k := 0 to n
      invariant reader.pos <= |reader.data|
      invariant I64sAt(reader.data, start, n) == Prepend(items, I64sAt(reader.data, reader.pos, n - k))
    {
      var v :- reader.ReadI64();
      PrependStep(items, v, I64sAt(reader.data, reader.pos, n - k - 1));
      items := items + [v];
    }
    PrependNil(items, reader.pos);
    r := Ok(items);
  }

  method ReadPayload(reader: PacketReader, ty: byte) returns (r: Result<Nbt>)
    requires reader.pos <= |reader.data|
    modifies reader
    ensures reader.pos <= |reader.data| && Follows(r, reader.pos, PayloadAt(reader.data, old(reader.pos), ty))
    decreases |reader.data| - reader.pos, 1, 0
  {
    hide ItemsAt, EntriesAt, I32sAt, I64sAt, I8At, I16At, I32At, I64At, U32At, U64At, NameAt, LengthAt;
    match ty {
      case 0x01 => var v :- reader.ReadI8(); r := Ok(Byte(v));
      case 0x02 => var v :- reader.ReadI16(); r := Ok(Short(v));
      case 0x03 => var v :- reader.ReadI32(); r := Ok(Int(v));
      case 0x04 => var v :- reader.ReadI64(); r := Ok(Long(v));
      case 0x05 => var v :- reader.ReadF32(); r := Ok(Float(v));
      case 0x06 => var v :- reader.ReadF64(); r := Ok(Double(v));
      case 0x07 =>
        var len :- ReadLength(reader);
        var bytes :- reader.Take(len);
        r := Ok(ByteArray(bytes));
      case 0x08 => var s :- ReadName(reader); r := Ok(String(s));
      case 0x09 =>
        var elementTy :- reader.ReadU8();
        var len :- ReadLength(reader);
        var items :- ReadItems(reader, elementTy, len);
        r := Ok(List(items));
      case 0x0A =>
        var entries :- ReadEntries(reader);
        r := Ok(Compound(entries));
      case 0x0B =>
        var len :- ReadLength(reader);
        var v :- ReadI32s(reader, len);
        r := Ok(IntArray(v));
      case 0x0C =>
        var len :- ReadLength(reader);
        var v :- ReadI64s(reader, len);
        r := Ok(LongArray(v));
      case other => r := Err(InvalidEnum(other));
    }
  }

  method ReadItems(reader: PacketReader, ty: byte, n: nat) returns (r: Result<seq<Nbt>>)
    requires reader.pos <= |reader.data|
    modifies reader
    ensures reader.pos <= |reader.data| && Follows(r, reader.pos, ItemsAt(reader.data, old(reader.pos), ty, n))
    decreases |reader.data| - reader.pos, 2, n
  {
    hide PayloadAt;
    var items: seq<Nbt> := [];
    ghost var start := reader.pos;
    assert ItemsAt(reader.data, start, ty, n) == Prepend([], ItemsAt(reader.data, start, ty, n)) by {
      if ItemsAt(reader.data, start, ty, n).Ok? {
        assert [] + ItemsAt(reader.data, start, ty, n).value.0 == ItemsAt(reader.data, start, ty, n).value.0;
      }
    }
    for k := 0 to n
      invariant start <= reader.pos <= |reader.data|
      invariant ItemsAt(reader.data, start, ty, n) == Prepend(items, ItemsAt(reader.data, reader.pos, ty, n - k))
    {
      var v :- ReadPayload(reader, ty);
      PrependStep(items, v, ItemsAt(reader.data, reader.pos, ty, n - k - 1));
      items := items + [v];
    }
    PrependNil(items, reader.pos);
    r := Ok(items);
  }

  method ReadEntries(reader: PacketReader) returns (r: Result<seq<Entry>>)
    requires reader.pos <= |reader.data|
    modifies reader
    ensures reader.pos <= |reader.data| && Follows(r, reader.pos, EntriesAt(reader.data, old(reader.pos)))
    decreases |reader.data| - reader.pos, 0, 0
  {
    hide PayloadAt, NameAt;
    var entries: seq<Entry> := [];
    ghost var start := reader.pos;
    assert EntriesAt(reader.data, start) == Prepend([], EntriesAt(reader.data, start)) by {
      if EntriesAt(reader.data, start).Ok? {
        assert [] + EntriesAt(reader.data, start).value.0 == EntriesAt(reader.data, start).value.0;
      }
    }
    while true
      invariant start <= reader.pos <= |reader.data|
      invariant EntriesAt(reader.data, start) == Prepend(entries, EntriesAt(reader.data, reader.pos))
      decreases |reader.data| - reader.pos
    {
      var entryTy :- reader.ReadU8();
      if entryTy == 0 {
        PrependNil(entries, reader.pos);
        return Ok(entries);
      }
      var name :- ReadName(reader);
      var value :- ReadPayload(reader, entryTy);
      PrependStep(entries, Entry(name, value), EntriesAt(reader.data, reader.pos));
      entries := entries + [Entry(name, value)];
    }
  }

  method ReadRoot(reader: PacketReader) returns (r: Result<(seq<byte>, Nbt)>)
    requires reader.pos <= |reader.data|
    modifies reader
    ensures reader.pos <= |reader.data| && Follows(r, reader.pos, RootAt(reader.data, old(reader.pos)))
  {
    hide PayloadAt, NameAt;
    var ty :- reader.ReadU8();
    if ty == 0 {
      return Err(InvalidEnum(0));
    }
    var name :- ReadName(reader);
    var n :- ReadPayload(reader, ty);
    r := Ok((name, n));
  }

  method ReadAnonymous(reader: PacketReader) returns (r: Result<Nbt>)
    requires reader.pos <= |reader.data|
    modifies reader
    ensures reader.pos <= |reader.data| && Follows(r, reader.pos, AnonymousAt(reader.data, old(reader.pos)))
  {
    var ty :- reader.ReadU8();
    r := ReadPayload(reader, ty);
  }
}
