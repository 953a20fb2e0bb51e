/** Errors, results and big-endian numbers shared by the protocol crate
    (`loadstone-protocol/src/error.rs`, `write.rs`). */
module Protocol {
  import opened Machine
  import opened Arith

  datatype ProtocolError =
    | VarIntTooBig
    | UnexpectedEof(needed: nat, had: nat)
    | InvalidStringLength(len: int)
    | InvalidUtf8
    | InvalidEnum(value: int)
    | Overflow // position arithmetic left the range of `usize`; a checked build stops there

  datatype Result<+T> = Ok(value: T) | Err(error: ProtocolError) {
    predicate IsFailure() { Err? }

    function PropagateFailure<U>(): Result<U>
      requires Err?
    {
      Err(error)
    }

    function Extract(): T
      requires Ok?
    {
      value
    }
  }

  // ------------------------------------------------------------- big endian

  /** The low `k` bytes of `v`, most significant first. */
  function BigEndian(v: nat, k: nat): (s: seq<byte>)
    ensures |s| == k
  {
    if k == 0 then [] else BigEndian(v / 256, k - 1) + [v % 256]
  }

  function FromBigEndian(s: seq<byte>): nat {
    if |s| == 0 then 0 else FromBigEndian(s[..|s| - 1]) * 256 + s[|s| - 1]
  }

  lemma {:induction false} BigEndianRoundTrip(v: nat, k: nat)
    requires v < Pow(256, k)
    ensures FromBigEndian(BigEndian(v, k)) == v
  {
    if k > 0 {
      BigEndianRoundTrip(v / 256, k - 1);
      assert BigEndian(v, k)[..k - 1] == BigEndian(v / 256, k - 1);
    }
  }

  lemma OneMoreByte(high: nat, low: byte)
    ensures (high * 256 + low) / 256 == high && (high * 256 + low) % 256 == low
  {}

  lemma {:induction false} BigEndianOnto(s: seq<byte>)
    ensures FromBigEndian(s) < Pow(256, |s|)
    ensures BigEndian(FromBigEndian(s), |s|) == s
  {
    if |s| > 0 {
      var init, last := s[..|s| - 1], s[|s| - 1];
      BigEndianOnto(init);
      OneMoreByte(FromBigEndian(init), last);
      assert s == init + [last];
    }
  }

  lemma Pow256Values()
    ensures Pow(256, 1) == 0x100
    ensures Pow(256, 2) == 0x1_0000
    ensures Pow(256, 4) == 0x1_0000_0000
    ensures Pow(256, 8) == 0x1_0000_0000_0000_0000
  {
    assert Pow(256, 1) == 256 * Pow(256, 0);
    assert Pow(256, 2) == 256 * Pow(256, 1);
    PowAdd(256, 2, 2);
    PowAdd(256, 4, 4);
  }

  function U16Bytes(v: nat): (s: seq<byte>) ensures |s| == 2 { BigEndian(v, 2) }

  function I16Bytes(v: int): (s: seq<byte>) ensures |s| == 2 { BigEndian(v % 0x1_0000, 2) }

  function I32Bytes(v: int): (s: seq<byte>) ensures |s| == 4 { BigEndian(v % 0x1_0000_0000, 4) }

  function I64Bytes(v: int): (s: seq<byte>) ensures |s| == 8 { BigEndian(v % 0x1_0000_0000_0000_0000, 8) }

  /** The bytes at `pos` are exactly `bytes`. */
  ghost predicate At(data: seq<byte>, pos: nat, bytes: seq<byte>) {
    pos + |bytes| <= |data| && data[pos..pos + |bytes|] == bytes
  }

  lemma AtSplit(data: seq<byte>, pos: nat, a: seq<byte>, b: seq<byte>)
    ensures At(data, pos, a + b) <==> At(data, pos, a) && At(data, pos + |a|, b)
  {
    if At(data, pos, a + b) {
      assert data[pos..pos + |a|] == data[pos..pos + |a + b|][..|a|];
      assert data[pos + |a|..pos + |a| + |b|] == data[pos..pos + |a + b|][|a|..];
    }
    if At(data, pos, a) && At(data, pos + |a|, b) {
      assert data[pos..pos + |a + b|] == data[pos..pos + |a|] + data[pos + |a|..pos + |a| + |b|];
    }
  }

  /** The growing buffer packets and NBT are written to. */
  class PacketWriter {
    var buf: seq<byte>

    constructor ()
      ensures buf == []
    {
      buf := [];
    }

    method WriteBytes(bytes: seq<byte>)
      modifies this
      ensures buf == old(buf) + bytes
    {
      buf := buf + bytes;
    }

    method WriteU8(v: byte)
      modifies this
      ensures buf == old(buf) + [v]
    {
      buf := buf + [v];
    }
  }
}
