/** Packet frames: `length | packet`, or with compression on `length | data length | bytes`
    (`loadstone-net/src/codec.rs`). */
module Codec {
  import opened Machine
  import opened Options
  import opened Arith
  import opened Protocol
  import opened Reader
  import opened Compression
  import VarInt

  const MAX_PACKET_SIZE: nat := 2 * 1024 * 1024

  datatype FrameError =
    | Io
    | Malformed(error: ProtocolError)
    | TooLarge(len: nat)
    | InflatedTooLarge(len: nat)
    | MalformedCompressed

  datatype Outcome<+T> = Done(value: T) | Failed(error: FrameError) {
    predicate IsFailure() { Failed? }

    function PropagateFailure<U>(): Outcome<U>
      requires Failed?
    {
      Failed(error)
    }

    function Extract(): T
      requires Done?
    {
      value
    }
  }

  datatype Frame = Frame(id: i32, payload: seq<byte>)

  // ---------------------------------------------------------------- definitions

  function PacketBytes(f: Frame): seq<byte> { VarInt.Bytes(f.id) + f.payload }

  /** What follows the length prefix. */
  function Body(z: Zlib, f: Frame, threshold: Option<i32>): seq<byte> {
    var data := PacketBytes(f);
    if threshold.None? then data
    else if |data| >= AsUsize(threshold.value) then VarInt.Bytes(|data|) + z.compress(data)
    else VarInt.Bytes(0) + data
  }

  function FrameBytes(z: Zlib, f: Frame, threshold: Option<i32>): seq<byte> {
    VarInt.Bytes(|Body(z, f, threshold)|) + Body(z, f, threshold)
  }

  /** A VarInt of a packet body, or of the stream itself where running out is an I/O error. */
  function VarIntOf(bytes: seq<byte>, pos: nat, stream: bool): (r: Outcome<(i32, nat)>)
    requires pos <= |bytes|
    ensures r.Done? ==> pos < r.value.1 <= |bytes|
  {
    match VarInt.ReadAt(bytes, pos)
    case Ok(found) => Done(found)
    case Err(e) => Failed(if stream && e.UnexpectedEof? then Io else Malformed(e))
  }

  /** The packet inside a body. */
  function Unwrap(z: Zlib, body: seq<byte>, threshold: Option<i32>): Outcome<seq<byte>> {
    if threshold.None? then Done(body)
    else
      var (dataLen, n) :- VarIntOf(body, 0, false);
      var rest := body[n..];
      if dataLen == 0 then Done(rest)
      else if AsUsize(dataLen) > MAX_PACKET_SIZE then Failed(InflatedTooLarge(AsUsize(dataLen)))
      else match z.decompress(rest)
        case None => Failed(Io)
        case Some(out) => if |out| != AsUsize(dataLen) then Failed(MalformedCompressed) else Done(out)
  }

  function FrameAt(z: Zlib, data: seq<byte>, pos: nat, threshold: Option<i32>): (r: Outcome<(Frame, nat)>)
    requires pos <= |data|
    ensures r.Done? ==> pos < r.value.1 <= |data|
  {
    var (len, p) :- VarIntOf(data, pos, true);
    if len < 0 then Failed(TooLarge(AsUsize(len)))
    else if len > MAX_PACKET_SIZE then Failed(TooLarge(len))
    else if p + len > |data| then Failed(Io)
    else
      var packet :- Unwrap(z, data[p..p + len], threshold);
      var (id, n) :- VarIntOf(packet, 0, false);
      Done((Frame(id, packet[n..]), p + len))
  }

  // ------------------------------------------------------------------ the code

  method ReadVarIntAsync(reader: PacketReader) returns (r: Outcome<i32>)
    requires reader.pos <= |reader.data|
    modifies reader
    ensures reader.pos <= |reader.data|
    ensures match VarIntOf(reader.data, old(reader.pos), true)
            case Done((v, end)) => r == Done(v) && reader.pos == end
            case Failed(e) => r == Failed(e)
  {
    hide Or, VarInt.Shl32, VarInt.Weight, ToI32;
    VarInt.FirstWeight();
    var value: nat, position: nat := 0, 0;
    ghost var k := 0;
    while true
      invariant k < 5 && position == 7 * k && old(reader.pos) <= reader.pos <= |reader.data| && value < VarInt.Weight(k)
      invariant VarInt.ReadFrom(reader.data, reader.pos, k, value) == VarInt.ReadAt(reader.data, old(reader.pos))
      decreases 5 - k
    {
      var read := reader.ReadU8();
      if read.Err? {
        return Failed(Io);
      }
      var byte := read.value;
      VarInt.OrByte(value, byte % 0x80, k);
      value := Or(value, VarInt.Shl32(byte % 0x80, position));
      if byte < 0x80 {
        return Done(ToI32(value));
      }
      position := position + 7;
      if position >= 32 {
        return Failed(Malformed(VarIntTooBig));
      }
      k := k + 1;
    }
  }

  method ReadVarIntOf(bytes: seq<byte>) returns (r: Outcome<(i32, nat)>)
    ensures r == VarIntOf(bytes, 0, false)
  {
    var read := VarInt.Read(bytes, 0);
    r := match read case Ok(found) => Done(found) case Err(e) => Failed(Malformed(e));
  }

  method ReadFrame(z: Zlib, reader: PacketReader, threshold: Option<i32>) returns (r: Outcome<Frame>)
    requires reader.pos <= |reader.data|
    modifies reader
    ensures reader.pos <= |reader.data|
    ensures match FrameAt(z, reader.data, old(reader.pos), threshold)
            case Done((f, end)) => r == Done(f) && reader.pos == end
            case Failed(e) => r == Failed(e)
  {
    hide VarIntOf;
    var len :- ReadVarIntAsync(reader);
    if len < 0 {
      return Failed(TooLarge(AsUsize(len)));
    }
    if len > MAX_PACKET_SIZE {
      return Failed(TooLarge(len));
    }
    var filled := reader.Take(len);
    if filled.Err? {
      return Failed(Io);
    }
    var body := filled.value;
    if threshold.Some? {
      var prefix :- ReadVarIntOf(body);
      var dataLen, rest := prefix.0, body[prefix.1..];
      if dataLen == 0 {
        body := rest;
      } else {
        if AsUsize(dataLen) > MAX_PACKET_SIZE {
          return Failed(InflatedTooLarge(AsUsize(dataLen)));
        }
        var out := z.decompress(rest);
        if out.None? {
          return Failed(Io);
        }
        if |out.value| != AsUsize(dataLen) {
          return Failed(MalformedCompressed);
        }
        body := out.value;
      }
    }
    var packet :- ReadVarIntOf(body);
    r := Done(Frame(packet.0, body[packet.1..]));
  }

  method WriteFrame(z: Zlib, out: PacketWriter, f: Frame, threshold: Option<i32>)
    modifies out
    ensures out.buf == old(out.buf) + FrameBytes(z, f, threshold)
  {
    hide VarInt.Bytes, PacketBytes, Body;
    var data := new PacketWriter();
    WritePacketBytes(data, f);
    var frame := new PacketWriter();
    if threshold.None? {
      UncompressedBody(z, f);
      WriteLength(frame, |data.buf|);
      frame.WriteBytes(data.buf);
    } else {
      var inner := new PacketWriter();
      WriteCompressed(z, inner, data.buf, f, threshold);
      WriteLength(frame, |inner.buf|);
      frame.WriteBytes(inner.buf);
    }
    out.WriteBytes(frame.buf);
  }

  lemma UncompressedBody(z: Zlib, f: Frame)
    ensures Body(z, f, None) == PacketBytes(f)
  {}

  method WritePacketBytes(data: PacketWriter, f: Frame)
    requires data.buf == []
    modifies data
    ensures data.buf == PacketBytes(f)
  {
    hide VarInt.Bytes;
    VarInt.Write(data, f.id);
    data.WriteBytes(f.payload);
  }

  /** The compressed form: bytes at least as long as the threshold are deflated. */
  method WriteCompressed(z: Zlib, inner: PacketWriter, data: seq<byte>, f: Frame, threshold: Option<i32>)
    requires inner.buf == [] && threshold.Some? && data == PacketBytes(f)
    modifies inner
    ensures inner.buf == Body(z, f, threshold)
  {
    hide VarInt.Bytes, PacketBytes;
    if |data| >= AsUsize(threshold.value) {
      WriteLength(inner, |data|);
      inner.WriteBytes(z.compress(data));
    } else {
      VarInt.Write(inner, 0);
      inner.WriteBytes(data);
    }
  }

  /** `write_varint(out, n as i32)`. */
  method WriteLength(out: PacketWriter, n: nat)
    modifies out
    ensures out.buf == old(out.buf) + VarInt.Bytes(n)
  {
    VarInt.Write(out, ToI32(n));
    LengthCast(n);
  }

  lemma LengthCast(n: nat)
    ensures VarInt.Bytes(ToI32(n)) == VarInt.Bytes(n)
  {}

  // -------------------------------------------------------------------- the laws

  /** When a frame can be read back at all: both declared sizes within the reader's limit. */
  predicate Fits(z: Zlib, f: Frame, threshold: Option<i32>) {
    && |Body(z, f, threshold)| <= MAX_PACKET_SIZE
    && (threshold.Some? && |PacketBytes(f)| >= AsUsize(threshold.value) ==> |PacketBytes(f)| <= MAX_PACKET_SIZE)
  }

  lemma VarIntBack(bytes: seq<byte>, pos: nat, n: nat, stream: bool)
    requires At(bytes, pos, VarInt.Bytes(n))
    ensures VarIntOf(bytes, pos, stream) == Done((ToI32(n), pos + |VarInt.Bytes(n)|))
  {
    hide VarInt.Bytes, VarInt.ReadAt;
    LengthCast(n);
    VarInt.RoundTrip(bytes, pos, ToI32(n));
  }

  /** The packet inside a body is recovered exactly when its size is within the limit. */
  lemma UnwrapBody(z: Zlib, f: Frame, threshold: Option<i32>)
    requires IsInverse(z) && |Body(z, f, threshold)| <= MAX_PACKET_SIZE
    ensures Fits(z, f, threshold) ==> Unwrap(z, Body(z, f, threshold), threshold) == Done(PacketBytes(f))
    ensures !Fits(z, f, threshold) ==>
      var u := Unwrap(z, Body(z, f, threshold), threshold);
      u.Failed? || |u.value| <= MAX_PACKET_SIZE < |PacketBytes(f)| - 5
  {
    hide VarInt.Bytes, VarIntOf;
    if threshold.Some? {
      var data, body := PacketBytes(f), Body(z, f, threshold);
      var dataLen := if |data| >= AsUsize(threshold.value) then |data| else 0;
      var prefix := VarInt.Bytes(dataLen);
      var rest := if |data| >= AsUsize(threshold.value) then z.compress(data) else data;
      assert body == prefix + rest;
      AtSplit(body, 0, prefix, rest);
      VarIntBack(body, 0, dataLen, false);
      assert body[|prefix|..] == rest;
      PacketNotEmpty(f);
    }
  }

  lemma PacketNotEmpty(f: Frame)
    ensures |PacketBytes(f)| > 0
  {}

  lemma PacketBack(f: Frame)
    ensures VarIntOf(PacketBytes(f), 0, false) == Done((f.id, |VarInt.Bytes(f.id)|))
    ensures PacketBytes(f)[|VarInt.Bytes(f.id)|..] == f.payload
  {
    hide VarInt.Bytes, VarInt.ReadAt;
    var data := PacketBytes(f);
    AtSplit(data, 0, VarInt.Bytes(f.id), f.payload);
    VarInt.RoundTrip(data, 0, f.id);
  }

  /** A frame is read back, whole and with nothing of what follows consumed, exactly when it fits;
      for compression off and for every threshold. */
  lemma FrameRoundTrip(z: Zlib, data: seq<byte>, pos: nat, f: Frame, threshold: Option<i32>)
    requires IsInverse(z) && At(data, pos, FrameBytes(z, f, threshold))
    ensures FrameAt(z, data, pos, threshold) == Done((f, pos + |FrameBytes(z, f, threshold)|)) <==>
      Fits(z, f, threshold)
  {
    hide VarInt.Bytes, VarIntOf, Body, Unwrap, Fits, PacketBytes;
    var body := Body(z, f, threshold);
    var prefix := VarInt.Bytes(|body|);
    AtSplit(data, pos, prefix, body);
    VarIntBack(data, pos, |body|, true);
    var p := pos + |prefix|;
    if |body| <= MAX_PACKET_SIZE {
      assert data[p..p + |body|] == body;
      UnwrapBody(z, f, threshold);
      if Fits(z, f, threshold) {
        PacketBack(f);
      } else {
        ShortPacket(f);
      }
    } else {
      FitsBounds(z, f, threshold);
    }
  }

  lemma FitsBounds(z: Zlib, f: Frame, threshold: Option<i32>)
    ensures Fits(z, f, threshold) ==> |Body(z, f, threshold)| <= MAX_PACKET_SIZE
  {}

  lemma ShortPacket(f: Frame)
    ensures |f.payload| >= |PacketBytes(f)| - 5
  {
    hide VarInt.Bytes;
    VarInt.LengthOf(f.id);
  }

  function AllBytes(z: Zlib, frames: seq<Frame>, threshold: Option<i32>): seq<byte> {
    if |frames| == 0 then [] else FrameBytes(z, frames[0], threshold) + AllBytes(z, frames[1..], threshold)
  }

  /** Reading `n` frames one after the other. */
  function FramesAt(z: Zlib, data: seq<byte>, pos: nat, n: nat, threshold: Option<i32>): Outcome<(seq<Frame>, nat)>
    requires pos <= |data|
    decreases n
  {
    if n == 0 then Done(([], pos))
    else
      var (f, p) :- FrameAt(z, data, pos, threshold);
      var (rest, end) :- FramesAt(z, data, p, n - 1, threshold);
      Done(([f] + rest, end))
  }

  /** Any sequence of frames that fit reads back as itself with no bytes left over. */
  lemma {:induction false} StreamRoundTrip(z: Zlib, data: seq<byte>, pos: nat, frames: seq<Frame>,
      threshold: Option<i32>)
    requires IsInverse(z) && At(data, pos, AllBytes(z, frames, threshold))
    requires forall f :: f in frames ==> Fits(z, f, threshold)
    ensures FramesAt(z, data, pos, |frames|, threshold) == Done((frames, pos + |AllBytes(z, frames, threshold)|))
    decreases |frames|
  {
    hide FrameAt, FrameBytes, Fits, IsInverse;
    if |frames| > 0 {
      var first, rest := FrameBytes(z, frames[0], threshold), AllBytes(z, frames[1..], threshold);
      AtSplit(data, pos, first, rest);
      FrameRoundTrip(z, data, pos, frames[0], threshold);
      StreamRoundTrip(z, data, pos + |first|, frames[1..], threshold);
      assert frames == [frames[0]] + frames[1..];
    }
  }

  // --------------------------------------------------------- what a frame looks like

  /** The VarInt at `pos` says `n`, and `rest` is all that follows it. */
  ghost predicate Says(bytes: seq<byte>, n: i32, rest: seq<byte>) {
    match VarInt.ReadAt(bytes, 0)
    case Ok((value, end)) => value == n && end <= |bytes| && bytes[end..] == rest
    case Err(_) => false
  }

  lemma SaysLength(n: nat, rest: seq<byte>)
    ensures Says(VarInt.Bytes(n) + rest, ToI32(n), rest)
  {
    hide VarInt.Bytes, VarInt.ReadAt;
    var bytes := VarInt.Bytes(n) + rest;
    LengthCast(n);
    assert At(bytes, 0, VarInt.Bytes(n));
    VarInt.RoundTrip(bytes, 0, ToI32(n));
  }

  /** A packet is its id and its payload. */
  lemma PacketSays(f: Frame)
    ensures Says(PacketBytes(f), f.id, f.payload)
  {
    hide VarInt.Bytes, VarInt.ReadAt;
    PacketBack(f);
  }

  /** With compression off the length prefix is followed by the packet itself. */
  lemma PlainFrame(z: Zlib, f: Frame)
    ensures Says(FrameBytes(z, f, None), ToI32(|PacketBytes(f)|), PacketBytes(f))
  {
    hide VarInt.Bytes, PacketBytes, Says;
    SaysLength(|PacketBytes(f)|, PacketBytes(f));
  }

  /** The prefix of `bytes` is followed by `inner`, a data length and `data`. From the threshold on the data length
      is the packet's and `data` inflates to the packet; below it the data length is zero and `data` is the packet. */
  ghost predicate Wraps(z: Zlib, bytes: seq<byte>, packet: seq<byte>, threshold: i32, inner: seq<byte>,
      data: seq<byte>) {
    && Says(bytes, ToI32(|inner|), inner)
    && if |packet| >= AsUsize(threshold)
       then Says(inner, ToI32(|packet|), data) && z.decompress(data) == Some(packet)
       else Says(inner, 0, data) && data == packet
  }

  /** With compression on, exactly the packets at least as long as the threshold are deflated. */
  lemma CompressedFrame(z: Zlib, f: Frame, threshold: i32)
    requires IsInverse(z)
    ensures exists inner, data :: Wraps(z, FrameBytes(z, f, Some(threshold)), PacketBytes(f), threshold, inner, data)
  {
    hide VarInt.Bytes, PacketBytes, Says;
    var packet, inner := PacketBytes(f), Body(z, f, Some(threshold));
    var data := if |packet| >= AsUsize(threshold) then z.compress(packet) else packet;
    SaysLength(|inner|, inner);
    SaysLength(if |packet| >= AsUsize(threshold) then |packet| else 0, data);
    assert Wraps(z, FrameBytes(z, f, Some(threshold)), packet, threshold, inner, data);
  }

  // ---------------------------------------------------------------- refused frames

  /** A frame whose length is negative or above the limit is refused before anything else is read; one that is cut
      off is an I/O error. */
  lemma RefusedLengths(z: Zlib, data: seq<byte>, n: i32, rest: seq<byte>, threshold: Option<i32>)
    requires Says(data, n, rest)
    ensures n < 0 || n > MAX_PACKET_SIZE ==> FrameAt(z, data, 0, threshold) == Failed(TooLarge(AsUsize(n)))
    ensures 0 <= n <= MAX_PACKET_SIZE && |rest| < n ==> FrameAt(z, data, 0, threshold) == Failed(Io)
  {
    hide VarInt.ReadAt, Unwrap;
  }

  /** A compressed body is refused when it claims to inflate beyond the limit, when it does not inflate, and when it
      inflates to another length than it claims. */
  lemma RefusedBodies(z: Zlib, body: seq<byte>, n: i32, rest: seq<byte>, threshold: i32)
    requires Says(body, n, rest) && n != 0
    ensures var u := Unwrap(z, body, Some(threshold));
      if AsUsize(n) > MAX_PACKET_SIZE then u == Failed(InflatedTooLarge(AsUsize(n)))
      else match z.decompress(rest)
        case None => u == Failed(Io)
        case Some(out) => if |out| == n then u == Done(out) else u == Failed(MalformedCompressed)
  {
    hide VarInt.ReadAt;
  }
}
