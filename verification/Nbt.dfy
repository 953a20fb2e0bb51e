/** The NBT tree, its encoder and its decoder (`loadstone-protocol/src/nbt.rs`).

    Strings are their UTF-8 bytes and floats their bit patterns. */
module Nbt {
  import opened Machine
  import opened Protocol
  import opened Reader

  datatype Nbt =
    | Byte(b: i8)
    | Short(s: i16)
    | Int(i: i32)
    | Long(l: i64)
    | Float(f: u32)
    | Double(d: u64)
    | ByteArray(bytes: seq<byte>)
    | String(text: seq<byte>)
    | List(items: seq<Nbt>)
    | Compound(entries: seq<Entry>)
    | IntArray(ints: seq<i32>)
    | LongArray(longs: seq<i64>)

  datatype Entry = Entry(name: seq<byte>, value: Nbt)

  function Id(n: Nbt): (id: byte)
    ensures 1 <= id <= 12
  {
    match n
    case Byte(_) => 0x01
    case Short(_) => 0x02
    case Int(_) => 0x03
    case Long(_) => 0x04
    case Float(_) => 0x05
    case Double(_) => 0x06
    case ByteArray(_) => 0x07
    case String(_) => 0x08
    case List(_) => 0x09
    case Compound(_) => 0x0A
    case IntArray(_) => 0x0B
    case LongArray(_) => 0x0C
  }

  // ---------------------------------------------------------------- UTF-8

  predicate Continuation(b: byte) { 0x80 <= b < 0xC0 }

  /** The length of the well-formed scalar value at the front, or 0 (Unicode, table 3-7). */
  function ScalarLength(s: seq<byte>): (n: nat)
    requires |s| > 0
    ensures n <= |s|
  {
    if s[0] < 0x80 then 1
    else if 0xC2 <= s[0] < 0xE0 && |s| >= 2 && Continuation(s[1]) then 2
    else if 0xE0 <= s[0] < 0xF0 && |s| >= 3 && Continuation(s[1]) && Continuation(s[2])
         && (s[0] == 0xE0 ==> s[1] >= 0xA0) && (s[0] == 0xED ==> s[1] < 0xA0) then 3
    else if 0xF0 <= s[0] < 0xF5 && |s| >= 4 && Continuation(s[1]) && Continuation(s[2]) && Continuation(s[3])
         && (s[0] == 0xF0 ==> s[1] >= 0x90) && (s[0] == 0xF4 ==> s[1] < 0x90) then 4
    else 0
  }

  predicate Utf8(s: seq<byte>) {
    |s| == 0 || (ScalarLength(s) > 0 && Utf8(s[ScalarLength(s)..]))
  }

  lemma {:induction false} AsciiIsUtf8(s: seq<byte>)
    requires forall i :: 0 <= i < |s| ==> s[i] < 0x80
    ensures Utf8(s)
  {
    if |s| > 0 {
      AsciiIsUtf8(s[1..]);
    }
  }

  // -------------------------------------------------------------- encoder

  /** A length-prefixed name; the prefix holds the low 16 bits of the length. */
  function NameBytes(name: seq<byte>): seq<byte> { U16Bytes(|name| % 0x1_0000) + name }

  function I32sBytes(v: seq<i32>): seq<byte> { if |v| == 0 then [] else I32Bytes(v[0]) + I32sBytes(v[1..]) }

  function I64sBytes(v: seq<i64>): seq<byte> { if |v| == 0 then [] else I64Bytes(v[0]) + I64sBytes(v[1..]) }

  lemma {:induction false} LongsLength(v: seq<i64>)
    ensures |I64sBytes(v)| == 8 * |v|
  {
    hide I64Bytes;
    if |v| > 0 {
      LongsLength(v[1..]);
    }
  }

  function ElementId(items: seq<Nbt>): byte { if |items| == 0 then 0 else Id(items[0]) }

  /** The payload of a tag, without its type byte and name. */
  function Payload(n: Nbt): seq<byte>
    decreases n
  {
    match n
    case Byte(v) => [v % 0x100]
    case Short(v) => I16Bytes(v)
    case Int(v) => I32Bytes(v)
    case Long(v) => I64Bytes(v)
    case Float(v) => I32Bytes(v)
    case Double(v) => I64Bytes(v)
    case ByteArray(v) => I32Bytes(|v|) + v
    case String(s) => NameBytes(s)
    case List(items) => [ElementId(items)] + I32Bytes(|items|) + ItemsPayload(items)
    case Compound(entries) => EntriesPayload(entries)
    case IntArray(v) => I32Bytes(|v|) + I32sBytes(v)
    case LongArray(v) => I32Bytes(|v|) + I64sBytes(v)
  }

  function ItemsPayload(items: seq<Nbt>): seq<byte>
    decreases items
  {
    if |items| == 0 then [] else Payload(items[0]) + ItemsPayload(items[1..])
  }

  function EntriesPayload(entries: seq<Entry>): seq<byte>
    decreases entries
  {
    if |entries| == 0 then [0]
    else [Id(entries[0].value)] + NameBytes(entries[0].name) + Payload(entries[0].value) + EntriesPayload(entries[1..])
  }

  function NamedBytes(n: Nbt, name: seq<byte>): seq<byte> { [0x0A] + NameBytes(name) + Payload(n) }

  function AnonymousBytes(n: Nbt): seq<byte> {
    if n.Compound? then [0x0A] + Payload(n) else Payload(n)
  }

  // -------------------------------------------------------------- decoder

  function NameAt(data: seq<byte>, pos: nat): (r: Result<(seq<byte>, nat)>)
    requires pos <= |data|
    ensures r.Ok? ==> pos + 2 + |r.value.0| == r.value.1 <= |data| && |r.value.0| < 0x1_0000 && Utf8(r.value.0)
  {
    var (len, p) :- U16At(data, pos);
    var (bytes, end) :- TakeAt(data, p, len);
    if Utf8(bytes) then Ok((bytes, end)) else Err(InvalidUtf8)
  }

  /** An array or list length: a non-negative 32-bit number. */
  function LengthAt(data: seq<byte>, pos: nat): (r: Result<(nat, nat)>)
    requires pos <= |data|
    ensures r.Ok? ==> r.value.1 == pos + 4 <= |data| && r.value.0 < 0x8000_0000
  {
    var (len, p) :- I32At(data, pos);
    if len < 0 then Err(InvalidStringLength(len)) else Ok((len, p))
  }

  function I32sAt(data: seq<byte>, pos: nat, n: nat): (r: Result<(seq<i32>, nat)>)
    requires pos <= |data|
    ensures r.Ok? ==> |r.value.0| == n && r.value.1 == pos + 4 * n <= |data|
    decreases n
  {
    if n == 0 then Ok(([], pos))
    else
      var (v, p) :- I32At(data, pos);
      var (rest, end) :- I32sAt(data, p, n - 1);
      Ok(([v] + rest, end))
  }

  function I64sAt(data: seq<byte>, pos: nat, n: nat): (r: Result<(seq<i64>, nat)>)
    requires pos <= |data|
    ensures r.Ok? ==> |r.value.0| == n && r.value.1 == pos + 8 * n <= |data|
    decreases n
  {
    if n == 0 then Ok(([], pos))
    else
      var (v, p) :- I64At(data, pos);
      var (rest, end) :- I64sAt(data, p, n - 1);
      Ok(([v] + rest, end))
  }

  /** Numbers, by type. */
  function ScalarAt(data: seq<byte>, pos: nat, ty: byte): (r: Result<(Nbt, nat)>)
    requires pos <= |data|
    ensures r.Ok? ==> pos < r.value.1 <= |data| && Id(r.value.0) == ty
  {
    match ty
    case 0x01 => var (v, p) :- I8At(data, pos); Ok((Byte(v), p))
    case 0x02 => var (v, p) :- I16At(data, pos); Ok((Short(v), p))
    case 0x03 => var (v, p) :- I32At(data, pos); Ok((Int(v), p))
    case 0x04 => var (v, p) :- I64At(data, pos); Ok((Long(v), p))
    case 0x05 => var (v, p) :- U32At(data, pos); Ok((Float(v), p))
    case 0x06 => var (v, p) :- U64At(data, pos); Ok((Double(v), p))
    case other => Err(InvalidEnum(other))
  }

  /** Strings and arrays of numbers, by type. */
  function ArrayAt(data: seq<byte>, pos: nat, ty: byte): (r: Result<(Nbt, nat)>)
    requires pos <= |data|
    ensures r.Ok? ==> pos < r.value.1 <= |data| && Id(r.value.0) == ty
  {
    match ty
    case 0x07 =>
      var (len, p) :- LengthAt(data, pos);
      var (v, end) :- TakeAt(data, p, len);
      Ok((ByteArray(v), end))
    case 0x08 => var (s, p) :- NameAt(data, pos); Ok((String(s), p))
    case 0x0B =>
      var (len, p) :- LengthAt(data, pos);
      var (v, end) :- I32sAt(data, p, len);
      Ok((IntArray(v), end))
    case 0x0C =>
      var (len, p) :- LengthAt(data, pos);
      var (v, end) :- I64sAt(data, p, len);
      Ok((LongArray(v), end))
    case other => Err(InvalidEnum(other))
  }

  /** The payload of type `ty` at `pos`. Total on arbitrary bytes: every nested call has fewer bytes left. */
  function PayloadAt(data: seq<byte>, pos: nat, ty: byte): (r: Result<(Nbt, nat)>)
    requires pos <= |data|
    ensures r.Ok? ==> pos < r.value.1 <= |data| && Id(r.value.0) == ty
    decreases |data| - pos, 1, 0
  {
    if ty == 0x09 then
      var (elementTy, p) :- U8At(data, pos);
      var (len, q) :- LengthAt(data, p);
      var (items, end) :- ItemsAt(data, q, elementTy, len);
      Ok((List(items), end))
    else if ty == 0x0A then
      var (entries, end) :- EntriesAt(data, pos);
      Ok((Compound(entries), end))
    else if ty <= 0x06 then ScalarAt(data, pos, ty)
    else ArrayAt(data, pos, ty)
  }

  function ItemsAt(data: seq<byte>, pos: nat, ty: byte, n: nat): (r: Result<(seq<Nbt>, nat)>)
    requires pos <= |data|
    ensures r.Ok? ==> |r.value.0| == n && pos <= r.value.1 <= |data|
    ensures r.Ok? ==> forall k :: 0 <= k < n ==> Id(r.value.0[k]) == ty
    decreases |data| - pos, 2, n
  {
    if n == 0 then Ok(([], pos))
    else
      var (v, p) :- PayloadAt(data, pos, ty);
      var (rest, end) :- ItemsAt(data, p, ty, n - 1);
      Ok(([v] + rest, end))
  }

  function EntriesAt(data: seq<byte>, pos: nat): (r: Result<(seq<Entry>, nat)>)
    requires pos <= |data|
    ensures r.Ok? ==> pos < r.value.1 <= |data|
    decreases |data| - pos, 0, 0
  {
    var (ty, p) :- U8At(data, pos);
    if ty == 0 then Ok(([], p))
    else
      var (name, q) :- NameAt(data, p);
      var (value, s) :- PayloadAt(data, q, ty);
      var (rest, end) :- EntriesAt(data, s);
      Ok(([Entry(name, value)] + rest, end))
  }

  /** A named root tag. */
  function RootAt(data: seq<byte>, pos: nat): (r: Result<((seq<byte>, Nbt), nat)>)
    requires pos <= |data|
  {
    var (ty, p) :- U8At(data, pos);
    if ty == 0 then Err(InvalidEnum(0))
    else
      var (name, q) :- NameAt(data, p);
      var (n, end) :- PayloadAt(data, q, ty);
      Ok(((name, n), end))
  }

  /** A tag without a name. */
  function AnonymousAt(data: seq<byte>, pos: nat): (r: Result<(Nbt, nat)>)
    requires pos <= |data|
  {
    var (ty, p) :- U8At(data, pos);
    PayloadAt(data, p, ty)
  }

  // ------------------------------------------------- trees that can be written

  /** Lengths fit their prefixes, text is UTF-8 and every list holds one kind of tag. */
  predicate WellFormed(n: Nbt)
    decreases n
  {
    match n
    case ByteArray(v) => |v| < 0x8000_0000
    case String(s) => IsName(s)
    case List(items) => |items| < 0x8000_0000 && WellFormedItems(items, ElementId(items))
    case Compound(entries) => WellFormedEntries(entries)
    case IntArray(v) => |v| < 0x8000_0000
    case LongArray(v) => |v| < 0x8000_0000
    case _ => true
  }

  predicate IsName(s: seq<byte>) { |s| < 0x1_0000 && Utf8(s) }

  predicate WellFormedItems(items: seq<Nbt>, ty: byte)
    decreases items
  {
    |items| == 0 || (Id(items[0]) == ty && WellFormed(items[0]) && WellFormedItems(items[1..], ty))
  }

  predicate WellFormedEntries(entries: seq<Entry>)
    decreases entries
  {
    |entries| == 0 || (IsName(entries[0].name) && WellFormed(entries[0].value) && WellFormedEntries(entries[1..]))
  }
}
