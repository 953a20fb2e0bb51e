/** Laws of the NBT codec: the encoder and decoder are inverse exactly on the
    trees the format can express. */
module NbtProofs {
  import opened Machine
  import opened Protocol
  import opened Reader
  import opened Nbt

  // ------------------------------------------------------ decode after encode

  lemma LengthRoundTrip(data: seq<byte>, pos: nat, len: nat)
    requires len < 0x8000_0000 && At(data, pos, I32Bytes(len))
    ensures LengthAt(data, pos) == Ok((len, pos + 4))
  {
    hide I32Bytes;
    I32RoundTrip(data, pos, len);
  }

  lemma NameRoundTrip(data: seq<byte>, pos: nat, name: seq<byte>)
    requires IsName(name) && At(data, pos, NameBytes(name))
    ensures NameAt(data, pos) == Ok((name, pos + |NameBytes(name)|))
  {
    hide U16Bytes, Utf8;
    AtSplit(data, pos, U16Bytes(|name|), name);
    U16RoundTrip(data, pos, |name|);
  }

  lemma {:induction false} I32sRoundTrip(data: seq<byte>, pos: nat, v: seq<i32>)
    requires At(data, pos, I32sBytes(v))
    ensures I32sAt(data, pos, |v|) == Ok((v, pos + |I32sBytes(v)|))
    decreases |v|
  {
    hide I32Bytes, NumberAt, ToI32;
    if |v| > 0 {
      AtSplit(data, pos, I32Bytes(v[0]), I32sBytes(v[1..]));
      I32RoundTrip(data, pos, v[0]);
      I32sRoundTrip(data, pos + 4, v[1..]);
      assert v == [v[0]] + v[1..];
    }
  }

  lemma {:induction false} I64sRoundTrip(data: seq<byte>, pos: nat, v: seq<i64>)
    requires At(data, pos, I64sBytes(v))
    ensures I64sAt(data, pos, |v|) == Ok((v, pos + |I64sBytes(v)|))
    decreases |v|
  {
    hide I64Bytes, NumberAt, ToI64;
    if |v| > 0 {
      AtSplit(data, pos, I64Bytes(v[0]), I64sBytes(v[1..]));
      I64RoundTrip(data, pos, v[0]);
      I64sRoundTrip(data, pos + 8, v[1..]);
      assert v == [v[0]] + v[1..];
    }
  }

  lemma ScalarRoundTrip(data: seq<byte>, pos: nat, n: Nbt)
    requires 1 <= Id(n) <= 6 && At(data, pos, Payload(n))
    ensures PayloadAt(data, pos, Id(n)) == Ok((n, pos + |Payload(n)|))
  {
    hide BigEndian, FromBigEndian, NumberAt, I16Bytes, I32Bytes, I64Bytes, ToI32, ToI64, I16At, U32At, U64At, I32At,
         I64At;
    match n
    case Byte(v) =>
      assert data[pos] == data[pos..pos + 1][0];
    case Short(v) => I16RoundTrip(data, pos, v);
    case Int(v) => I32RoundTrip(data, pos, v);
    case Long(v) => I64RoundTrip(data, pos, v);
    case Float(v) => U32RoundTrip(data, pos, v);
    case Double(v) => U64RoundTrip(data, pos, v);
  }

  lemma ArrayRoundTrip(data: seq<byte>, pos: nat, n: Nbt)
    requires n.ByteArray? || n.IntArray? || n.LongArray? || n.String?
    requires WellFormed(n) && At(data, pos, Payload(n))
    ensures PayloadAt(data, pos, Id(n)) == Ok((n, pos + |Payload(n)|))
  {
    hide I32Bytes, I32At, NameAt, NameBytes, LengthAt, I32sAt, I64sAt, I32sBytes, I64sBytes;
    match n
    case ByteArray(v) =>
      AtSplit(data, pos, I32Bytes(|v|), v);
      LengthRoundTrip(data, pos, |v|);
    case String(s) => NameRoundTrip(data, pos, s);
    case IntArray(v) =>
      AtSplit(data, pos, I32Bytes(|v|), I32sBytes(v));
      LengthRoundTrip(data, pos, |v|);
      I32sRoundTrip(data, pos + 4, v);
    case LongArray(v) =>
      AtSplit(data, pos, I32Bytes(|v|), I64sBytes(v));
      LengthRoundTrip(data, pos, |v|);
      I64sRoundTrip(data, pos + 4, v);
  }

  /** A well-formed payload is read back, wherever it stands and whatever follows. */
  lemma {:induction false} PayloadRoundTrip(data: seq<byte>, pos: nat, n: Nbt)
    requires WellFormed(n) && At(data, pos, Payload(n))
    ensures PayloadAt(data, pos, Id(n)) == Ok((n, pos + |Payload(n)|))
    decreases n, 1
  {
    hide WellFormedItems, WellFormedEntries, I32Bytes, I64Bytes, I16Bytes, ItemsPayload, I32sBytes, I64sBytes,
         NameBytes, EntriesAt, LengthAt, ItemsAt, NameAt, I32sAt, I64sAt;
    if n.List? {
      ListRoundTrip(data, pos, n.items);
    } else if n.Compound? {
      EntriesRoundTrip(data, pos, n.entries);
    } else if n.ByteArray? || n.IntArray? || n.LongArray? || n.String? {
      ArrayRoundTrip(data, pos, n);
    } else {
      ScalarRoundTrip(data, pos, n);
    }
  }

  lemma {:induction false} ListRoundTrip(data: seq<byte>, pos: nat, items: seq<Nbt>)
    requires WellFormed(List(items)) && At(data, pos, Payload(List(items)))
    ensures PayloadAt(data, pos, 0x09) == Ok((List(items), pos + |Payload(List(items))|))
    decreases items, 1
  {
    hide I32Bytes, ItemsPayload, WellFormedItems, LengthAt, ItemsAt;
    AtSplit(data, pos, [ElementId(items)] + I32Bytes(|items|), ItemsPayload(items));
    AtSplit(data, pos, [ElementId(items)], I32Bytes(|items|));
    assert data[pos] == data[pos..pos + 1][0];
    LengthRoundTrip(data, pos + 1, |items|);
    ItemsRoundTrip(data, pos + 5, items, ElementId(items));
  }

  lemma {:induction false} ItemsRoundTrip(data: seq<byte>, pos: nat, items: seq<Nbt>, ty: byte)
    requires WellFormedItems(items, ty) && At(data, pos, ItemsPayload(items))
    ensures ItemsAt(data, pos, ty, |items|) == Ok((items, pos + |ItemsPayload(items)|))
    decreases items, 0
  {
    hide Payload, PayloadAt;
    if |items| > 0 {
      AtSplit(data, pos, Payload(items[0]), ItemsPayload(items[1..]));
      PayloadRoundTrip(data, pos, items[0]);
      ItemsRoundTrip(data, pos + |Payload(items[0])|, items[1..], ty);
      assert items == [items[0]] + items[1..];
    }
  }

  /** Where the parts of a compound's first entry stand. */
  lemma EntryParts(data: seq<byte>, pos: nat, entries: seq<Entry>)
    requires |entries| > 0 && At(data, pos, EntriesPayload(entries))
    ensures var (name, value) := (entries[0].name, entries[0].value);
      var p := pos + 1 + |NameBytes(name)|;
      && pos < |data| && data[pos] == Id(value)
      && At(data, pos + 1, NameBytes(name)) && At(data, p, Payload(value))
      && At(data, p + |Payload(value)|, EntriesPayload(entries[1..]))
      && p + |Payload(value)| + |EntriesPayload(entries[1..])| == pos + |EntriesPayload(entries)|
  {
    hide Payload, NameBytes;
    var name, value := entries[0].name, entries[0].value;
    AtSplit(data, pos, [Id(value)] + NameBytes(name) + Payload(value), EntriesPayload(entries[1..]));
    AtSplit(data, pos, [Id(value)] + NameBytes(name), Payload(value));
    AtSplit(data, pos, [Id(value)], NameBytes(name));
    assert data[pos] == data[pos..pos + 1][0];
  }

  /** One turn of the decoder's entry loop. */
  lemma EntryRead(data: seq<byte>, pos: nat, name: seq<byte>, value: Nbt, q: nat, p: nat, rest: seq<Entry>, end: nat)
    requires pos < q <= p <= |data| && data[pos] == Id(value)
    requires NameAt(data, pos + 1) == Ok((name, q)) && PayloadAt(data, q, Id(value)) == Ok((value, p))
    requires EntriesAt(data, p) == Ok((rest, end))
    ensures EntriesAt(data, pos) == Ok(([Entry(name, value)] + rest, end))
  {
    hide NameAt, PayloadAt;
  }

  lemma NoEntryRead(data: seq<byte>, pos: nat, entries: seq<Entry>)
    requires |entries| == 0 && At(data, pos, EntriesPayload(entries))
    ensures EntriesAt(data, pos) == Ok((entries, pos + |EntriesPayload(entries)|))
  {
    hide PayloadAt, NameAt;
    assert data[pos] == data[pos..pos + 1][0];
  }

  lemma {:induction false} EntriesRoundTrip(data: seq<byte>, pos: nat, entries: seq<Entry>)
    requires WellFormedEntries(entries) && At(data, pos, EntriesPayload(entries))
    ensures EntriesAt(data, pos) == Ok((entries, pos + |EntriesPayload(entries)|))
    decreases entries, 0
  {
    hide Payload, PayloadAt, NameBytes, NameAt, EntriesPayload, IsName, EntriesAt, WellFormed;
    if |entries| == 0 {
      NoEntryRead(data, pos, entries);
    } else {
      EntryParts(data, pos, entries);
      var name, value := entries[0].name, entries[0].value;
      var q := pos + 1 + |NameBytes(name)|;
      var p := q + |Payload(value)|;
      NameRoundTrip(data, pos + 1, name);
      PayloadRoundTrip(data, q, value);
      EntriesRoundTrip(data, p, entries[1..]);
      EntryRead(data, pos, name, value, q, p, entries[1..], pos + |EntriesPayload(entries)|);
      assert entries == [Entry(name, value)] + entries[1..];
    }
  }

  // ------------------------------------------------- what the decoder produces

  /** Everything the decoder accepts is a tree the encoder can write. */
  lemma {:induction false} DecodedIsWellFormed(data: seq<byte>, pos: nat, ty: byte)
    requires pos <= |data| && PayloadAt(data, pos, ty).Ok?
    ensures WellFormed(PayloadAt(data, pos, ty).value.0)
    decreases |data| - pos, 1, 0
  {
    if ty == 0x09 {
      var (elementTy, p) := U8At(data, pos).value;
      var (len, q) := LengthAt(data, p).value;
      DecodedItems(data, q, elementTy, len);
    } else if ty == 0x0A {
      DecodedEntries(data, pos);
    }
  }

  lemma {:induction false} DecodedItems(data: seq<byte>, pos: nat, ty: byte, n: nat)
    requires pos <= |data| && ItemsAt(data, pos, ty, n).Ok?
    ensures WellFormedItems(ItemsAt(data, pos, ty, n).value.0, ty)
    decreases |data| - pos, 2, n
  {
    if n > 0 {
      DecodedIsWellFormed(data, pos, ty);
      DecodedItems(data, PayloadAt(data, pos, ty).value.1, ty, n - 1);
    }
  }

  lemma {:induction false} DecodedEntries(data: seq<byte>, pos: nat)
    requires pos <= |data| && EntriesAt(data, pos).Ok?
    ensures WellFormedEntries(EntriesAt(data, pos).value.0)
    decreases |data| - pos, 0, 0
  {
    var (ty, p) := U8At(data, pos).value;
    if ty != 0 {
      var (name, q) := NameAt(data, p).value;
      var (value, s) := PayloadAt(data, q, ty).value;
      DecodedIsWellFormed(data, q, ty);
      DecodedEntries(data, s);
    }
  }

  // -------------------------------------------------------------- main results

  /** Named encoding followed by `read_root` returns the same name and tree and consumes
      every byte, for exactly the well-formed compound roots with a name that fits. */
  lemma NamedRoundTrip(n: Nbt, name: seq<byte>)
    requires Utf8(name)
    ensures RootAt(NamedBytes(n, name), 0) == Ok(((name, n), |NamedBytes(n, name)|))
       <==> n.Compound? && WellFormed(n) && |name| < 0x1_0000
  {
    hide Payload, PayloadAt, NameBytes, NameAt, Utf8, WellFormed;
    var data := NamedBytes(n, name);
    assert data[0] == 0x0A;
    if n.Compound? && WellFormed(n) && |name| < 0x1_0000 {
      assert data[0..|data|] == data;
      AtSplit(data, 0, [0x0A] + NameBytes(name), Payload(n));
      AtSplit(data, 0, [0x0A], NameBytes(name));
      NameRoundTrip(data, 1, name);
      PayloadRoundTrip(data, 1 + |NameBytes(name)|, n);
    }
    if RootAt(data, 0) == Ok(((name, n), |data|)) {
      var (name', q) := NameAt(data, 1).value;
      DecodedIsWellFormed(data, q, 0x0A);
    }
  }

  /** The same for the anonymous form: compound roots only, since it writes no type byte for others. */
  lemma AnonymousRoundTrip(n: Nbt, rest: seq<byte>)
    requires n.Compound?
    ensures AnonymousAt(AnonymousBytes(n) + rest, 0) == Ok((n, |AnonymousBytes(n)|)) <==> WellFormed(n)
  {
    hide Payload, PayloadAt, WellFormed;
    var data := AnonymousBytes(n) + rest;
    assert data[0] == 0x0A;
    assert data[1..1 + |Payload(n)|] == Payload(n);
    if WellFormed(n) {
      PayloadRoundTrip(data, 1, n);
    }
    if AnonymousAt(data, 0).Ok? {
      DecodedIsWellFormed(data, 1, 0x0A);
    }
  }

  /** Hence encodings of distinct well-formed trees differ, and none is a proper prefix of another. */
  lemma NamedInjective(n: Nbt, m: Nbt, name: seq<byte>, rest: seq<byte>)
    requires IsName(name) && n.Compound? && m.Compound? && WellFormed(n) && WellFormed(m)
    requires NamedBytes(n, name) == NamedBytes(m, name) + rest
    ensures n == m && rest == []
  {
    hide Payload, PayloadAt, NameBytes, NameAt, Utf8, WellFormed;
    var data := NamedBytes(n, name);
    NamedRoundTrip(n, name);
    var head := [0x0A] + NameBytes(name);
    assert data == head + Payload(m) + rest;
    assert data[0..1] == [0x0A];
    AtSplit(data, 0, [0x0A], NameBytes(name));
    assert data[0..|head|] == head;
    NameRoundTrip(data, 1, name);
    assert data[|head|..|head| + |Payload(m)|] == Payload(m);
    PayloadRoundTrip(data, |head|, m);
  }

  // ------------------------------------------------------------ what trees look like

  /** The number of each kind of tag. */
  lemma TypeNumbers(n: Nbt)
    ensures match n
            case Byte(_) => Id(n) == 1
            case Short(_) => Id(n) == 2
            case Int(_) => Id(n) == 3
            case Long(_) => Id(n) == 4
            case Float(_) => Id(n) == 5
            case Double(_) => Id(n) == 6
            case ByteArray(_) => Id(n) == 7
            case String(_) => Id(n) == 8
            case List(_) => Id(n) == 9
            case Compound(_) => Id(n) == 10
            case IntArray(_) => Id(n) == 11
            case LongArray(_) => Id(n) == 12
  {}

  /** An entry is its type number, the length of its name in two bytes, the name, and the value. */
  lemma EntryLayout(name: seq<byte>, n: Nbt, rest: seq<Entry>)
    requires |name| < 0x1_0000
    ensures var bytes := EntriesPayload([Entry(name, n)] + rest);
      && |bytes| >= 3 + |name| + |Payload(n)|
      && bytes[0] == Id(n) && FromBigEndian(bytes[1..3]) == |name| && bytes[3..3 + |name|] == name
      && bytes[3 + |name|..3 + |name| + |Payload(n)|] == Payload(n)
  {
    hide Payload, Id, BigEndian, FromBigEndian;
    var entries := [Entry(name, n)] + rest;
    assert entries[1..] == rest;
    var bytes := EntriesPayload(entries);
    assert bytes[1..3] == BigEndian(|name|, 2);
    assert bytes[3..3 + |name|] == name;
    assert bytes[3 + |name|..3 + |name| + |Payload(n)|] == Payload(n);
    Pow256Values();
    BigEndianRoundTrip(|name|, 2);
  }

  /** Numbers are big-endian two's complement; strings, lists and arrays say their length first. */
  lemma PayloadLayout(n: Nbt)
    ensures match n
            case Byte(v) => Payload(n) == [v % 0x100]
            case Short(v) => |Payload(n)| == 2 && FromBigEndian(Payload(n)) == v % 0x1_0000
            case Int(v) => |Payload(n)| == 4 && FromBigEndian(Payload(n)) == v % 0x1_0000_0000
            case Long(v) => |Payload(n)| == 8 && FromBigEndian(Payload(n)) == v % 0x1_0000_0000_0000_0000
            case Float(v) => |Payload(n)| == 4 && FromBigEndian(Payload(n)) == v
            case Double(v) => |Payload(n)| == 8 && FromBigEndian(Payload(n)) == v
            case ByteArray(v) =>
              |v| < 0x8000_0000 ==>
                |Payload(n)| == 4 + |v| && FromBigEndian(Payload(n)[..4]) == |v| && Payload(n)[4..] == v
            case String(v) =>
              |v| < 0x1_0000 ==>
                |Payload(n)| == 2 + |v| && FromBigEndian(Payload(n)[..2]) == |v| && Payload(n)[2..] == v
            case List(items) =>
              |items| < 0x8000_0000 ==>
                && |Payload(n)| >= 5 && Payload(n)[0] == (if |items| == 0 then 0 else Id(items[0]))
                && FromBigEndian(Payload(n)[1..5]) == |items|
            case Compound(entries) => |Payload(n)| > 0 && Payload(n)[|Payload(n)| - 1] == 0
            case IntArray(v) => |v| < 0x8000_0000 ==> |Payload(n)| >= 4 && FromBigEndian(Payload(n)[..4]) == |v|
            case LongArray(v) => |v| < 0x8000_0000 ==> |Payload(n)| >= 4 && FromBigEndian(Payload(n)[..4]) == |v|
  {
    hide BigEndian, FromBigEndian, Id, ItemsPayload, EntriesPayload, I32sBytes, I64sBytes;
    Pow256Values();
    match n
    case Byte(v) =>
    case Short(v) => BigEndianRoundTrip(v % 0x1_0000, 2);
    case Int(v) => BigEndianRoundTrip(v % 0x1_0000_0000, 4);
    case Long(v) => BigEndianRoundTrip(v % 0x1_0000_0000_0000_0000, 8);
    case Float(v) => BigEndianRoundTrip(v, 4);
    case Double(v) => BigEndianRoundTrip(v, 8);
    case ByteArray(v) => LengthFirst(|v|, v);
    case String(v) =>
      if |v| < 0x1_0000 {
        BigEndianRoundTrip(|v|, 2);
        assert Payload(n)[..2] == BigEndian(|v|, 2) && Payload(n)[2..] == v;
      }
    case List(items) =>
      if |items| < 0x8000_0000 {
        BigEndianRoundTrip(|items|, 4);
        assert Payload(n)[1..5] == BigEndian(|items|, 4);
      }
    case Compound(entries) => LastIsEnd(entries);
    case IntArray(v) => LengthFirst(|v|, I32sBytes(v));
    case LongArray(v) => LengthFirst(|v|, I64sBytes(v));
  }

  lemma LengthFirst(n: nat, rest: seq<byte>)
    ensures n < 0x8000_0000 ==>
      var bytes := I32Bytes(n) + rest;
      FromBigEndian(bytes[..4]) == n && bytes[4..] == rest
  {
    hide BigEndian, FromBigEndian;
    if n < 0x8000_0000 {
      Pow256Values();
      BigEndianRoundTrip(n, 4);
      assert (I32Bytes(n) + rest)[..4] == I32Bytes(n);
    }
  }

  lemma {:induction false} LastIsEnd(entries: seq<Entry>)
    ensures |EntriesPayload(entries)| > 0 && EntriesPayload(entries)[|EntriesPayload(entries)| - 1] == 0
  {
    hide Payload, Id, NameBytes;
    if |entries| > 0 {
      LastIsEnd(entries[1..]);
      var rest := EntriesPayload(entries[1..]);
      assert EntriesPayload(entries)[|EntriesPayload(entries)| - 1] == rest[|rest| - 1];
    }
  }
}
