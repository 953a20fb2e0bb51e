/** The packet cursor (`loadstone-protocol/src/read.rs`, `PacketReader`).
    Every read is a function of the bytes and a position; the class advances `pos`. */
module Reader {
  import opened Machine
  import opened Arith
  import opened Protocol
  import VarInt

  function TakeAt(data: seq<byte>, pos: nat, len: nat): (r: Result<(seq<byte>, nat)>)
    requires pos <= |data|
    ensures r.Ok? <==> pos + len <= |data|
    ensures r.Ok? ==> r.value == (data[pos..pos + len], pos + len)
  {
    if |data| - pos < len then Err(UnexpectedEof(pos + len, |data|)) else Ok((data[pos..pos + len], pos + len))
  }

  function U8At(data: seq<byte>, pos: nat): (r: Result<(byte, nat)>)
    requires pos <= |data|
    ensures r.Ok? <==> pos < |data|
    ensures r.Ok? ==> r.value == (data[pos], pos + 1)
  {
    if pos == |data| then Err(UnexpectedEof(pos + 1, |data|)) else Ok((data[pos], pos + 1))
  }

  /** A big-endian number of `k` bytes. */
  function NumberAt(data: seq<byte>, pos: nat, k: nat): (r: Result<(nat, nat)>)
    requires pos <= |data|
    ensures r.Ok? <==> pos + k <= |data|
    ensures r.Ok? ==> r.value == (FromBigEndian(data[pos..pos + k]), pos + k) && r.value.0 < Pow(256, k)
  {
    var (b, end) :- TakeAt(data, pos, k);
    BigEndianOnto(b);
    Ok((FromBigEndian(b), end))
  }

  function U16At(data: seq<byte>, pos: nat): (r: Result<(u16, nat)>)
    requires pos <= |data|
    ensures r.Ok? ==> r.value.1 == pos + 2 <= |data|
  {
    var (n, end) :- NumberAt(data, pos, 2);
    Pow256Values();
    Ok((n, end))
  }

  function I8At(data: seq<byte>, pos: nat): (r: Result<(i8, nat)>)
    requires pos <= |data|
    ensures r.Ok? ==> r.value.1 == pos + 1 <= |data|
  {
    var (b, end) :- U8At(data, pos);
    Ok((if b < 0x80 then b else b - 0x100, end))
  }

  function I16At(data: seq<byte>, pos: nat): (r: Result<(i16, nat)>)
    requires pos <= |data|
    ensures r.Ok? ==> r.value.1 == pos + 2 <= |data|
  {
    var (n, end) :- U16At(data, pos);
    Ok((if n < 0x8000 then n else n - 0x1_0000, end))
  }

  function U32At(data: seq<byte>, pos: nat): (r: Result<(u32, nat)>)
    requires pos <= |data|
    ensures r.Ok? ==> r.value.1 == pos + 4 <= |data|
  {
    var (n, end) :- NumberAt(data, pos, 4);
    Pow256Values();
    Ok((n, end))
  }

  function I32At(data: seq<byte>, pos: nat): (r: Result<(i32, nat)>)
    requires pos <= |data|
    ensures r.Ok? <==> pos + 4 <= |data|
    ensures r.Ok? ==> r.value.1 == pos + 4
  {
    var (n, end) :- NumberAt(data, pos, 4);
    Ok((ToI32(n), end))
  }

  function U64At(data: seq<byte>, pos: nat): (r: Result<(u64, nat)>)
    requires pos <= |data|
    ensures r.Ok? ==> r.value.1 == pos + 8 <= |data|
  {
    var (n, end) :- NumberAt(data, pos, 8);
    Pow256Values();
    Ok((n, end))
  }

  function I64At(data: seq<byte>, pos: nat): (r: Result<(i64, nat)>)
    requires pos <= |data|
    ensures r.Ok? <==> pos + 8 <= |data|
    ensures r.Ok? ==> r.value.1 == pos + 8
  {
    var (n, end) :- NumberAt(data, pos, 8);
    Ok((ToI64(n), end))
  }

  /** A number written big-endian is read back, whatever follows. */
  lemma NumberRoundTrip(data: seq<byte>, pos: nat, v: nat, k: nat)
    requires v < Pow(256, k) && At(data, pos, BigEndian(v, k))
    ensures NumberAt(data, pos, k) == Ok((v, pos + k))
  {
    hide BigEndian, FromBigEndian, Pow;
    BigEndianRoundTrip(v, k);
  }

  lemma U16RoundTrip(data: seq<byte>, pos: nat, v: u16)
    requires At(data, pos, U16Bytes(v))
    ensures U16At(data, pos) == Ok((v, pos + 2))
  {
    hide BigEndian, FromBigEndian, Pow;
    Pow256Values();
    NumberRoundTrip(data, pos, v, 2);
  }

  lemma I16RoundTrip(data: seq<byte>, pos: nat, v: i16)
    requires At(data, pos, I16Bytes(v))
    ensures I16At(data, pos) == Ok((v, pos + 2))
  {
    hide BigEndian, FromBigEndian, Pow;
    Pow256Values();
    NumberRoundTrip(data, pos, v % 0x1_0000, 2);
  }

  lemma U32RoundTrip(data: seq<byte>, pos: nat, v: u32)
    requires At(data, pos, I32Bytes(v))
    ensures U32At(data, pos) == Ok((v, pos + 4))
  {
    hide BigEndian, FromBigEndian, Pow;
    Pow256Values();
    NumberRoundTrip(data, pos, v, 4);
  }

  lemma I32RoundTrip(data: seq<byte>, pos: nat, v: i32)
    requires At(data, pos, I32Bytes(v))
    ensures I32At(data, pos) == Ok((v, pos + 4))
  {
    hide BigEndian, FromBigEndian, Pow, NumberAt, ToI32;
    Pow256Values();
    NumberRoundTrip(data, pos, v % 0x1_0000_0000, 4);
    SignedBack32(v);
  }

  lemma SignedBack32(v: i32)
    ensures ToI32(v % 0x1_0000_0000) == v
  {}

  lemma SignedBack64(v: i64)
    ensures ToI64(v % 0x1_0000_0000_0000_0000) == v
  {}

  lemma U64RoundTrip(data: seq<byte>, pos: nat, v: u64)
    requires At(data, pos, I64Bytes(v))
    ensures U64At(data, pos) == Ok((v, pos + 8))
  {
    hide BigEndian, FromBigEndian, Pow, NumberAt;
    Pow256Values();
    NumberRoundTrip(data, pos, v, 8);
  }

  lemma I64RoundTrip(data: seq<byte>, pos: nat, v: i64)
    requires At(data, pos, I64Bytes(v))
    ensures I64At(data, pos) == Ok((v, pos + 8))
  {
    hide BigEndian, FromBigEndian, Pow, NumberAt, ToI64;
    Pow256Values();
    NumberRoundTrip(data, pos, v % 0x1_0000_0000_0000_0000, 8);
    SignedBack64(v);
  }

  /** A method's outcome matches a reading function's: same value and end, or same error. */
  ghost predicate Follows<T(!new)>(r: Result<T>, pos: nat, spec: Result<(T, nat)>) {
    match spec
    case Ok((v, end)) => r == Ok(v) && pos == end
    case Err(e) => r == Err(e)
  }

  class PacketReader {
    const data: seq<byte>
    var pos: nat

    constructor (data: seq<byte>)
      ensures this.data == data && pos == 0
    {
      this.data := data;
      pos := 0;
    }

    method Take(len: nat) returns (r: Result<seq<byte>>)
      requires pos <= |data|
      modifies this
      ensures pos <= |data| && Follows(r, pos, TakeAt(data, old(pos), len))
      ensures !r.Ok? ==> pos == old(pos)
    {
      if |data| - pos < len {
        return Err(UnexpectedEof(pos + len, |data|));
      }
      r := Ok(data[pos..pos + len]);
      pos := pos + len;
    }

    method ReadU8() returns (r: Result<byte>)
      requires pos <= |data|
      modifies this
      ensures pos <= |data| && Follows(r, pos, U8At(data, old(pos)))
    {
      var b :- Take(1);
      r := Ok(b[0]);
    }

    method ReadI8() returns (r: Result<i8>)
      requires pos <= |data|
      modifies this
      ensures pos <= |data| && Follows(r, pos, I8At(data, old(pos)))
    {
      var b :- ReadU8();
      var signed: i8 := if b < 0x80 then b else (b as int) - 0x100;
      r := Ok(signed);
    }

    method ReadU16() returns (r: Result<u16>)
      requires pos <= |data|
      modifies this
      ensures pos <= |data| && Follows(r, pos, U16At(data, old(pos)))
    {
      var b :- Take(2);
      BigEndianOnto(b);
      Pow256Values();
      r := Ok(FromBigEndian(b));
    }

    method ReadI16() returns (r: Result<i16>)
      requires pos <= |data|
      modifies this
      ensures pos <= |data| && Follows(r, pos, I16At(data, old(pos)))
    {
      var n :- ReadU16();
      var signed: i16 := if n < 0x8000 then n else (n as int) - 0x1_0000;
      r := Ok(signed);
    }

    method ReadI32() returns (r: Result<i32>)
      requires pos <= |data|
      modifies this
      ensures pos <= |data| && Follows(r, pos, I32At(data, old(pos)))
    {
      var b :- Take(4);
      r := Ok(ToI32(FromBigEndian(b)));
    }

    method ReadI64() returns (r: Result<i64>)
      requires pos <= |data|
      modifies this
      ensures pos <= |data| && Follows(r, pos, I64At(data, old(pos)))
    {
      var b :- Take(8);
      r := Ok(ToI64(FromBigEndian(b)));
    }

    /** `read_f32`: the bit pattern of a float. */
    method ReadF32() returns (r: Result<u32>)
      requires pos <= |data|
      modifies this
      ensures pos <= |data| && Follows(r, pos, U32At(data, old(pos)))
    {
      var b :- Take(4);
      BigEndianOnto(b);
      Pow256Values();
      r := Ok(FromBigEndian(b));
    }

    /** `read_f64`: the bit pattern of a double. */
    method ReadF64() returns (r: Result<u64>)
      requires pos <= |data|
      modifies this
      ensures pos <= |data| && Follows(r, pos, U64At(data, old(pos)))
    {
      var b :- Take(8);
      BigEndianOnto(b);
      Pow256Values();
      r := Ok(FromBigEndian(b));
    }

    method ReadVarInt() returns (r: Result<i32>)
      requires pos <= |data|
      modifies this
      ensures pos <= |data| && Follows(r, pos, VarInt.ReadAt(data, old(pos)))
    {
      var read := VarInt.Read(data, pos);
      var found :- read;
      pos := found.1;
      r := Ok(found.0);
    }
  }
}
