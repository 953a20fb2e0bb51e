/** What the parser refuses: unknown tags, negative lengths, and everything that is cut off. */
module NbtTruncated {
  import opened Machine
  import opened Protocol
  import opened Reader
  import opened Nbt
  import opened NbtProofs

  // ------------------------------------------------------------------ bad tags

  lemma UnknownTags(data: seq<byte>, pos: nat, ty: byte)
    requires pos <= |data| && (ty == 0 || ty > 0x0C)
    ensures PayloadAt(data, pos, ty) == Err(InvalidEnum(ty))
  {}

  /** A negative length of an array or a list is refused as such. */
  lemma NegativeLengths(data: seq<byte>, pos: nat, n: i32)
    requires pos <= |data| && n < 0
    ensures I32At(data, pos).Ok? && I32At(data, pos).value.0 == n ==>
      && PayloadAt(data, pos, 0x07) == Err(InvalidStringLength(n))
      && PayloadAt(data, pos, 0x0B) == Err(InvalidStringLength(n))
      && PayloadAt(data, pos, 0x0C) == Err(InvalidStringLength(n))
    ensures pos < |data| && I32At(data, pos + 1).Ok? && I32At(data, pos + 1).value.0 == n ==>
      PayloadAt(data, pos, 0x09) == Err(InvalidStringLength(n))
  {
    hide I32At, TakeAt, I32sAt, I64sAt, ItemsAt;
  }

  // --------------------------------------------------------- what follows is not looked at

  lemma TakeExtends(a: seq<byte>, b: seq<byte>, pos: nat, len: nat)
    requires a <= b && pos <= |a| && TakeAt(a, pos, len).Ok?
    ensures TakeAt(b, pos, len) == TakeAt(a, pos, len)
  {
    assert a == b[..|a|];
    assert b[..|a|][pos..pos + len] == b[pos..pos + len];
  }

  lemma NumberExtends(a: seq<byte>, b: seq<byte>, pos: nat, k: nat)
    requires a <= b && pos <= |a| && NumberAt(a, pos, k).Ok?
    ensures NumberAt(b, pos, k) == NumberAt(a, pos, k)
  {
    hide FromBigEndian;
    TakeExtends(a, b, pos, k);
  }

  lemma ScalarExtends(a: seq<byte>, b: seq<byte>, pos: nat, ty: byte)
    requires a <= b && pos <= |a| && ScalarAt(a, pos, ty).Ok?
    ensures ScalarAt(b, pos, ty) == ScalarAt(a, pos, ty)
  {
    hide NumberAt, ToI32, ToI64;
    match ty
    case 0x01 => NumberExtends(a, b, pos, 1);
    case 0x02 => NumberExtends(a, b, pos, 2);
    case 0x03 => NumberExtends(a, b, pos, 4);
    case 0x04 => NumberExtends(a, b, pos, 8);
    case 0x05 => NumberExtends(a, b, pos, 4);
    case 0x06 => NumberExtends(a, b, pos, 8);
    case _ =>
  }

  lemma LengthExtends(a: seq<byte>, b: seq<byte>, pos: nat)
    requires a <= b && pos <= |a| && LengthAt(a, pos).Ok?
    ensures LengthAt(b, pos) == LengthAt(a, pos)
  {
    hide NumberAt, ToI32;
    NumberExtends(a, b, pos, 4);
  }

  lemma NameExtends(a: seq<byte>, b: seq<byte>, pos: nat)
    requires a <= b && pos <= |a| && NameAt(a, pos).Ok?
    ensures NameAt(b, pos) == NameAt(a, pos)
  {
    hide NumberAt, Utf8, TakeAt;
    NumberExtends(a, b, pos, 2);
    var (len, p) := U16At(a, pos).value;
    TakeExtends(a, b, p, len);
  }

  lemma {:induction false} IntsExtend(a: seq<byte>, b: seq<byte>, pos: nat, n: nat)
    requires a <= b && pos <= |a| && I32sAt(a, pos, n).Ok?
    ensures I32sAt(b, pos, n) == I32sAt(a, pos, n)
    decreases n
  {
    hide NumberAt, ToI32;
    if n > 0 {
      NumberExtends(a, b, pos, 4);
      IntsExtend(a, b, pos + 4, n - 1);
    }
  }

  lemma {:induction false} LongsExtend(a: seq<byte>, b: seq<byte>, pos: nat, n: nat)
    requires a <= b && pos <= |a| && I64sAt(a, pos, n).Ok?
    ensures I64sAt(b, pos, n) == I64sAt(a, pos, n)
    decreases n
  {
    hide NumberAt, ToI64;
    if n > 0 {
      NumberExtends(a, b, pos, 8);
      LongsExtend(a, b, pos + 8, n - 1);
    }
  }

  lemma ArrayExtends(a: seq<byte>, b: seq<byte>, pos: nat, ty: byte)
    requires a <= b && pos <= |a| && ArrayAt(a, pos, ty).Ok?
    ensures ArrayAt(b, pos, ty) == ArrayAt(a, pos, ty)
  {
    hide LengthAt, NameAt, I32sAt, I64sAt, TakeAt;
    if ty == 0x08 {
      NameExtends(a, b, pos);
    } else if ty == 0x07 || ty == 0x0B || ty == 0x0C {
      LengthExtends(a, b, pos);
      var (len, p) := LengthAt(a, pos).value;
      if ty == 0x07 {
        TakeExtends(a, b, p, len);
      } else if ty == 0x0B {
        IntsExtend(a, b, p, len);
      } else {
        LongsExtend(a, b, p, len);
      }
    }
  }

  lemma ByteExtends(a: seq<byte>, b: seq<byte>, pos: nat)
    requires a <= b && pos <= |a| && U8At(a, pos).Ok?
    ensures U8At(b, pos) == U8At(a, pos)
  {}

  /** A payload that is read is read the same whatever comes after the data. */
  lemma {:induction false} PayloadExtends(a: seq<byte>, b: seq<byte>, pos: nat, ty: byte)
    requires a <= b && pos <= |a| && PayloadAt(a, pos, ty).Ok?
    ensures PayloadAt(b, pos, ty) == PayloadAt(a, pos, ty)
    decreases |a| - pos, 1, 0
  {
    hide U8At, LengthAt, ScalarAt, ArrayAt, ItemsAt, EntriesAt;
    if ty == 0x09 {
      ByteExtends(a, b, pos);
      var (elementTy, p) := U8At(a, pos).value;
      LengthExtends(a, b, p);
      var (len, q) := LengthAt(a, p).value;
      ItemsExtend(a, b, q, elementTy, len);
    } else if ty == 0x0A {
      EntriesExtend(a, b, pos);
    } else if ty <= 0x06 {
      ScalarExtends(a, b, pos, ty);
    } else {
      ArrayExtends(a, b, pos, ty);
    }
  }

  lemma {:induction false} ItemsExtend(a: seq<byte>, b: seq<byte>, pos: nat, ty: byte, n: nat)
    requires a <= b && pos <= |a| && ItemsAt(a, pos, ty, n).Ok?
    ensures ItemsAt(b, pos, ty, n) == ItemsAt(a, pos, ty, n)
    decreases |a| - pos, 2, n
  {
    hide PayloadAt;
    if n > 0 {
      PayloadExtends(a, b, pos, ty);
      ItemsExtend(a, b, PayloadAt(a, pos, ty).value.1, ty, n - 1);
    }
  }

  lemma {:induction false} EntriesExtend(a: seq<byte>, b: seq<byte>, pos: nat)
    requires a <= b && pos <= |a| && EntriesAt(a, pos).Ok?
    ensures EntriesAt(b, pos) == EntriesAt(a, pos)
    decreases |a| - pos, 0, 0
  {
    hide U8At, NameAt, PayloadAt;
    ByteExtends(a, b, pos);
    var (ty, p) := U8At(a, pos).value;
    if ty != 0 {
      NameExtends(a, b, p);
      var q := NameAt(a, p).value.1;
      PayloadExtends(a, b, q, ty);
      EntriesExtend(a, b, PayloadAt(a, q, ty).value.1);
    }
  }

  // ------------------------------------------------------------------- cut-off trees

  /** A well-formed payload that is cut off anywhere is refused. */
  lemma TruncatedIsRefused(n: Nbt, k: nat)
    requires WellFormed(n) && k < |Payload(n)|
    ensures PayloadAt(Payload(n)[..k], 0, Id(n)).Err?
  {
    hide Payload, PayloadAt, WellFormed, Id;
    var data := Payload(n);
    assert data[0..|data|] == data;
    PayloadRoundTrip(data, 0, n);
    if PayloadAt(data[..k], 0, Id(n)).Ok? {
      PayloadExtends(data[..k], data, 0, Id(n));
    }
  }

  /** So is a named root, wherever it is cut. */
  lemma TruncatedRootIsRefused(n: Nbt, name: seq<byte>, k: nat)
    requires n.Compound? && WellFormed(n) && IsName(name) && k < |NamedBytes(n, name)|
    ensures RootAt(NamedBytes(n, name)[..k], 0).Err?
  {
    hide PayloadAt, NameAt, U8At, NamedBytes, WellFormed;
    var data := NamedBytes(n, name);
    var a := data[..k];
    NamedRoundTrip(n, name);
    if RootAt(a, 0).Ok? {
      ByteExtends(a, data, 0);
      var (ty, p) := U8At(a, 0).value;
      NameExtends(a, data, p);
      var q := NameAt(a, p).value.1;
      PayloadExtends(a, data, q, ty);
    }
  }
}
