/** Java's `new BigInteger(bytes).toString(16)` as `java_hex` computes it
    (`loadstone-net/src/auth.rs`). */
module JavaHex {
  import opened Machine
  import opened Arith
  import opened Protocol

  // ------------------------------------------------------------- what it means

  predicate IsNegative(bytes: seq<byte>) { |bytes| > 0 && bytes[0] >= 0x80 }

  /** The signed big-endian two's-complement value of a byte string of any length. */
  function SignedValue(bytes: seq<byte>): int {
    if IsNegative(bytes) then FromBigEndian(bytes) - Pow(256, |bytes|) else FromBigEndian(bytes)
  }

  predicate IsHexDigit(c: char) { '0' <= c <= '9' || 'a' <= c <= 'f' }

  function DigitValue(c: char): (n: nat)
    requires IsHexDigit(c)
    ensures n < 16
  {
    if c <= '9' then (c as int) - ('0' as int) else (c as int) - ('a' as int) + 10
  }

  predicate IsHex(s: string) { forall i :: 0 <= i < |s| ==> IsHexDigit(s[i]) }

  function HexValue(s: string): nat
    requires IsHex(s)
  {
    if |s| == 0 then 0 else HexValue(s[..|s| - 1]) * 16 + DigitValue(s[|s| - 1])
  }

  /** Digits without a leading zero, or the single digit "0". */
  predicate IsCanonicalDigits(s: string) { IsHex(s) && (s == "0" || (|s| > 0 && s[0] != '0')) }

  /** "-" only in front of a non-zero number. */
  predicate IsCanonical(s: string) {
    if |s| > 0 && s[0] == '-' then IsCanonicalDigits(s[1..]) && s[1..] != "0" else IsCanonicalDigits(s)
  }

  function Denotes(s: string): int
    requires IsCanonical(s)
  {
    var value: int := HexValue(Magnitude(s));
    if |s| > 0 && s[0] == '-' then -value else value
  }

  // ------------------------------------------------------- canonical numerals

  lemma {:induction false} HexPositive(s: string)
    requires IsHex(s) && |s| > 0 && s[0] != '0'
    ensures HexValue(s) > 0
  {
    if |s| > 1 {
      HexPositive(s[..|s| - 1]);
    } else {
      assert HexValue(s[..0]) == 0;
    }
  }

  lemma {:induction false} HexUnique(a: string, b: string)
    requires IsHex(a) && IsHex(b) && HexValue(a) == HexValue(b)
    requires |a| > 0 ==> a[0] != '0'
    requires |b| > 0 ==> b[0] != '0'
    ensures a == b
  {
    if |a| > 0 {
      HexPositive(a);
    }
    if |b| > 0 {
      HexPositive(b);
    }
    hide HexValue, DigitValue;
    HexEnds(a);
    HexEnds(b);
    if |a| > 0 && |b| > 0 {
      SameDigit(a[|a| - 1], b[|b| - 1]);
      HexUnique(a[..|a| - 1], b[..|b| - 1]);
      assert a == a[..|a| - 1] + [a[|a| - 1]] && b == b[..|b| - 1] + [b[|b| - 1]];
    }
  }

  lemma HexEnds(s: string)
    requires IsHex(s)
    ensures |s| == 0 ==> HexValue(s) == 0
    ensures |s| > 0 ==> HexValue(s) / 16 == HexValue(s[..|s| - 1]) && HexValue(s) % 16 == DigitValue(s[|s| - 1])
  {
    hide DigitValue;
    if |s| > 0 {
      DivMod(HexValue(s[..|s| - 1]), DigitValue(s[|s| - 1]), 16);
    }
  }

  lemma SameDigit(c: char, d: char)
    requires IsHexDigit(c) && IsHexDigit(d) && DigitValue(c) == DigitValue(d)
    ensures c == d
  {}

  /** A number has one canonical numeral, so what a canonical numeral denotes identifies it. */
  lemma CanonicalUnique(a: string, b: string)
    requires IsCanonical(a) && IsCanonical(b) && Denotes(a) == Denotes(b)
    ensures a == b
  {
    CanonicalShape(a);
    CanonicalShape(b);
    if a != "0" && b != "0" {
      var x, y := Magnitude(a), Magnitude(b);
      HexPositive(x);
      HexPositive(y);
      HexUnique(x, y);
      assert a[0] == '-' ==> a == ['-'] + x;
      assert b[0] == '-' ==> b == ['-'] + y;
    }
  }

  function Magnitude(s: string): string { if |s| > 0 && s[0] == '-' then s[1..] else s }

  lemma CanonicalShape(s: string)
    requires IsCanonical(s)
    ensures |s| > 0
    ensures s == "0" <==> Denotes(s) == 0
    ensures s != "0" ==> var m := Magnitude(s); IsHex(m) && |m| > 0 && m[0] != '0'
  {
    if s == "0" {
      assert s[..0] == "";
      assert HexValue(s) == HexValue(s[..0]) * 16 + 0;
    } else {
      HexPositive(Magnitude(s));
    }
  }

  // ---------------------------------------------------------------- the code

  function HexDigit(n: nat): (c: char)
    requires n < 16
    ensures IsHexDigit(c) && DigitValue(c) == n
  {
    if n < 10 then ('0' as int + n) as char else ('a' as int + (n - 10)) as char
  }

  /** `format!("{byte:02x}")` for every byte. */
  function HexDump(bytes: seq<byte>): (s: string)
    ensures |s| == 2 * |bytes| && IsHex(s)
    ensures HexValue(s) == FromBigEndian(bytes)
  {
    if |bytes| == 0 then ""
    else
      var b := bytes[|bytes| - 1];
      var head := HexDump(bytes[..|bytes| - 1]);
      var s := head + [HexDigit(b / 16), HexDigit(b % 16)];
      assert s[..|s| - 1] == head + [HexDigit(b / 16)];
      assert s[..|s| - 1][..|s| - 2] == head;
      s
  }

  /** `trim_start_matches('0')`. */
  function Trim(s: string): (t: string)
    requires IsHex(s)
    ensures IsHex(t) && HexValue(t) == HexValue(s)
    ensures |t| > 0 ==> t[0] != '0'
    decreases |s|
  {
    if |s| > 0 && s[0] == '0' then
      LeadingZero(s);
      Trim(s[1..])
    else s
  }

  lemma {:induction false} LeadingZero(s: string)
    requires IsHex(s) && |s| > 0 && s[0] == '0'
    ensures HexValue(s[1..]) == HexValue(s)
    decreases |s|
  {
    if |s| == 1 {
      assert s[..0] == "" && s[1..] == "";
    } else {
      LeadingZero(s[..|s| - 1]);
      assert s[1..][..|s| - 2] == s[..|s| - 1][1..];
    }
  }

  lemma {:induction false} PrependByte(b: byte, s: seq<byte>)
    ensures FromBigEndian([b] + s) == b * Pow(256, |s|) + FromBigEndian(s)
    decreases |s|
  {
    if |s| == 0 {
      assert [b] + s == [b] && [b][..0] == [];
      assert FromBigEndian([b]) == FromBigEndian([b][..0]) * 256 + b;
    } else {
      var s' := s[..|s| - 1];
      assert ([b] + s)[..|s|] == [b] + s';
      PrependByte(b, s');
      var p := Pow(256, |s'|);
      MulAssoc(b, p, 256);
      MulAssoc(b, 256, p);
    }
  }

  /** One step of the carry loop: the suffix grows by a byte at the front. */
  lemma CarryStep(b: byte, suffix: seq<byte>, done: seq<byte>, carry: bool)
    requires |suffix| == |done|
    requires Pow(256, |suffix|) - FromBigEndian(suffix)
      == (if carry then Pow(256, |suffix|) else 0) + FromBigEndian(done)
    ensures var inverted: byte := 255 - b;
            var carry' := carry && inverted == 0xff;
            var out: byte := if !carry then inverted else if carry' then 0 else inverted + 1;
            var next := if carry' then Pow(256, |suffix| + 1) else 0;
            Pow(256, |suffix| + 1) - FromBigEndian([b] + suffix) == next + FromBigEndian([out] + done)
  {
    hide FromBigEndian, Pow;
    NextPower(|suffix|);
    PrependByte(b, suffix);
    PrependByte(if carry && b == 0 then 0 else if carry then 256 - b else 255 - b, done);
    CarryOut(Pow(256, |suffix|), b, carry, FromBigEndian(suffix), FromBigEndian(done));
  }

  lemma NextPower(n: nat)
    ensures Pow(256, n + 1) == 256 * Pow(256, n)
  {}

  lemma CarryOut(p: nat, b: byte, carry: bool, s: nat, d: nat)
    requires p - s == (if carry then p else 0) + d
    ensures carry && b == 0 ==> 256 * p - (b * p + s) == 256 * p + (0 * p + d)
    ensures carry && b > 0 ==> 256 * p - (b * p + s) == (256 - b) * p + d
    ensures !carry ==> 256 * p - (b * p + s) == (255 - b) * p + d
  {
    Complement(p, b, 255);
    Complement(p, b, 256);
  }

  lemma Complement(p: nat, b: nat, n: nat)
    ensures (n - b) * p == n * p - b * p
  {}

  method Negate(magnitude: array<byte>)
    modifies magnitude
    ensures FromBigEndian(old(magnitude[..])) > 0 ==>
      FromBigEndian(magnitude[..]) == Pow(256, magnitude.Length) - FromBigEndian(old(magnitude[..]))
  {
    hide FromBigEndian, Pow;
    ghost var before := magnitude[..];
    var carry := true;
    var k := magnitude.Length;
    EmptyCarry();
    assert before[k..] == [] && magnitude[k..] == [];
    while k > 0
      invariant 0 <= k <= magnitude.Length
      invariant magnitude[..k] == before[..k]
      invariant Pow(256, magnitude.Length - k) - FromBigEndian(before[k..])
             == (if carry then Pow(256, magnitude.Length - k) else 0) + FromBigEndian(magnitude[k..])
    {
      ghost var done := magnitude[k..];
      CarryStep(before[k - 1], before[k..], done, carry);
      k := k - 1;
      assert magnitude[k] == before[k] by { assert magnitude[..k + 1][k] == before[..k + 1][k]; }
      assert before[k..] == [before[k]] + before[k + 1..];
      assert magnitude[..k] == before[..k] by { assert magnitude[..k] == magnitude[..k + 1][..k]; }
      var inverted: byte := 255 - magnitude[k];
      if carry {
        carry := inverted == 0xff;
        magnitude[k] := if carry then 0 else inverted + 1;
      } else {
        magnitude[k] := inverted;
      }
      assert magnitude[k..] == [magnitude[k]] + done;
    }
    assert before[0..] == before && magnitude[0..] == magnitude[..];
  }

  lemma EmptyCarry()
    ensures FromBigEndian([]) == 0 && Pow(256, 0) == 1
  {}

  lemma NegativeIsLarge(bytes: seq<byte>)
    requires IsNegative(bytes)
    ensures 0 < FromBigEndian(bytes) < Pow(256, |bytes|)
  {
    BigEndianOnto(bytes);
    PrependByte(bytes[0], bytes[1..]);
    assert bytes == [bytes[0]] + bytes[1..];
    PowPositive(256, |bytes| - 1);
    MulPositive(bytes[0], Pow(256, |bytes| - 1));
  }

  /** For byte strings of any length the result denotes the signed value of the bytes and is its
      canonical numeral, so it is the one string Java prints. */
  method JavaHex(bytes: seq<byte>) returns (hex: string)
    ensures IsCanonical(hex) && Denotes(hex) == SignedValue(bytes)
  {
    hide FromBigEndian, Pow;
    var negative := IsNegative(bytes);
    var magnitude := new byte[|bytes|](i requires 0 <= i < |bytes| => bytes[i]);
    assert magnitude[..] == bytes;
    if negative {
      NegativeIsLarge(bytes);
      Negate(magnitude);
    }
    hex := HexDump(magnitude[..]);
    var trimmed := Trim(hex);
    hex := if |trimmed| == 0 then "0" else trimmed;
    HexZero();
    if negative {
      hex := "-" + hex;
      assert hex[1..] == if |trimmed| == 0 then "0" else trimmed;
      assert hex[0] == '-';
    } else {
      assert hex[0] != '-';
    }
  }

  lemma HexZero()
    ensures HexValue("") == 0 && HexValue("0") == 0
  {
    assert "0"[..0] == "";
  }

  /** The signed value is the two's complement reading: congruent to the unsigned one, and at most half the range
      away from zero. */
  lemma SignedRange(bytes: seq<byte>)
    requires |bytes| > 0
    ensures var n: int := Pow(256, |bytes|);
      && -n <= 2 * SignedValue(bytes) < n
      && (SignedValue(bytes) == FromBigEndian(bytes) || SignedValue(bytes) == FromBigEndian(bytes) - n)
  {
    hide FromBigEndian, Pow;
    var b, rest := bytes[0], bytes[1..];
    assert bytes == [b] + rest;
    PrependByte(b, rest);
    BigEndianOnto(rest);
    BigEndianOnto(bytes);
    NextPower(|rest|);
    TopByte(b, Pow(256, |rest|), FromBigEndian(rest));
  }

  lemma TopByte(b: byte, p: nat, rest: nat)
    requires rest < p
    ensures b >= 0x80 ==> 2 * (b * p + rest) >= 256 * p
    ensures b < 0x80 ==> 2 * (b * p + rest) < 256 * p
  {
    if b >= 0x80 {
      MulMono(0x80, b, p);
    } else {
      MulMono(b, 0x7F, p);
    }
  }
}
