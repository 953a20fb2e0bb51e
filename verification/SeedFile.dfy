/** The sidecar file with the world seed (`write_seed` and `read_seed` of `loadstone-world/src/world.rs`). */
module SeedFile {
  import opened Machine
  import opened Options
  import opened Terrain

  predicate IsDigit(c: char) { '0' <= c <= '9' }

  function DigitOf(n: nat): (c: char)
    requires n < 10
    ensures IsDigit(c) && (c as int) - ('0' as int) == n
  {
    ('0' as int + n) as char
  }

  /** `to_string`: decimal, without leading zeros. */
  function SeedText(n: nat): (s: string)
    ensures |s| > 0 && forall i :: 0 <= i < |s| ==> IsDigit(s[i])
  {
    if n < 10 then [DigitOf(n)] else SeedText(n / 10) + [DigitOf(n % 10)]
  }

  /** The characters of Unicode's White_Space property. */
  predicate IsWhite(c: char) {
    || '\t' <= c <= '\U{0D}' || c == ' ' || c == '\U{85}' || c == '\U{A0}' || c == '\U{1680}'
    || '\U{2000}' <= c <= '\U{200A}' || c == '\U{2028}' || c == '\U{2029}' || c == '\U{202F}' || c == '\U{205F}'
    || c == '\U{3000}'
  }

  predicate AllWhite(s: string) { forall i :: 0 <= i < |s| ==> IsWhite(s[i]) }

  function TrimStart(s: string): string {
    if |s| > 0 && IsWhite(s[0]) then TrimStart(s[1..]) else s
  }

  function TrimEnd(s: string): string {
    if |s| > 0 && IsWhite(s[|s| - 1]) then TrimEnd(s[..|s| - 1]) else s
  }

  /** The number a text of decimal digits denotes, if that is what it is. */
  function Digits(s: string): Option<nat> {
    if |s| == 0 then Some(0)
    else match Digits(s[..|s| - 1])
      case None => None
      case Some(n) =>
        var c := s[|s| - 1];
        if IsDigit(c) then Some(n * 10 + ((c as int) - ('0' as int))) else None
  }

  /** `parse::<u64>`: one optional plus sign, then at least one digit, and no more than fits. */
  function Parse(s: string): Option<u64> {
    var digits := if |s| > 0 && s[0] == '+' then s[1..] else s;
    if |digits| == 0 then None
    else match Digits(digits)
      case None => None
      case Some(n) => if n < 0x1_0000_0000_0000_0000 then Some(n) else None
  }

  /** `read_seed` of a file that may be missing. */
  function ReadSeed(file: Option<string>): Option<u64> {
    match file
    case None => None
    case Some(text) => Parse(TrimEnd(TrimStart(text)))
  }

  lemma {:induction false} DigitsOfText(n: nat)
    ensures Digits(SeedText(n)) == Some(n)
  {
    if n < 10 {
      assert SeedText(n)[..0] == [];
    } else {
      DigitsOfText(n / 10);
      assert SeedText(n)[..|SeedText(n)| - 1] == SeedText(n / 10);
    }
  }

  lemma {:induction false} TrimmedStart(white: string, s: string)
    requires AllWhite(white) && (|s| > 0 ==> !IsWhite(s[0]))
    ensures TrimStart(white + s) == s
  {
    hide IsWhite;
    if |white| == 0 {
      assert white + s == s;
    } else {
      assert (white + s)[0] == white[0] && (white + s)[1..] == white[1..] + s;
      TrimmedStart(white[1..], s);
    }
  }

  lemma {:induction false} TrimmedEnd(s: string, white: string)
    requires AllWhite(white) && (|s| > 0 ==> !IsWhite(s[|s| - 1]))
    ensures TrimEnd(s + white) == s
  {
    hide IsWhite;
    if |white| == 0 {
      assert s + white == s;
    } else {
      var init := white[..|white| - 1];
      assert (s + white)[|s + white| - 1] == white[|white| - 1] && (s + white)[..|s + white| - 1] == s + init;
      TrimmedEnd(s, init);
    }
  }

  /** Every seed reads back, whatever white space an editor leaves around it. */
  lemma SeedRoundTrip(seed: u64, before: string, after: string)
    requires AllWhite(before) && AllWhite(after)
    ensures ReadSeed(Some(before + SeedText(seed) + after)) == Some(seed)
  {
    hide IsWhite, SeedText, Digits, TrimStart, TrimEnd;
    var s := SeedText(seed);
    assert !IsWhite(s[0]) && !IsWhite(s[|s| - 1]) by { DigitIsNotWhite(s[0]); DigitIsNotWhite(s[|s| - 1]); }
    assert before + s + after == before + (s + after);
    assert (s + after)[0] == s[0];
    TrimmedStart(before, s + after);
    TrimmedEnd(s, after);
    DigitsOfText(seed);
    assert s[0] != '+';
  }

  lemma DigitIsNotWhite(c: char)
    requires IsDigit(c)
    ensures !IsWhite(c)
  {}

  /** So a world reopened from its own seed file has the generator it was saved with. */
  lemma ReopenedGenerator(g: TerrainGenerator)
    ensures ReadSeed(Some(SeedText(g.seed))).Some?
    ensures TerrainGenerator(ReadSeed(Some(SeedText(g.seed))).value, g.noise) == g
  {
    hide SeedText, ReadSeed;
    SeedRoundTrip(g.seed, "", "");
    assert "" + SeedText(g.seed) + "" == SeedText(g.seed);
  }

  /** Most significant digit first. */
  lemma TextOf120()
    ensures SeedText(120) == "120"
  {
    assert SeedText(1) == "1" && SeedText(12) == "12";
  }

  /** No file, no seed; a number that does not fit is none; and a plus sign is allowed in front of one that does. */
  lemma OtherSeedFiles(n: nat)
    ensures ReadSeed(None) == None && ReadSeed(Some("")) == None
    ensures n >= 0x1_0000_0000_0000_0000 ==> Parse(SeedText(n)) == None
    ensures n < 0x1_0000_0000_0000_0000 ==> Parse("+" + SeedText(n)) == Some(n) && Parse("-" + SeedText(n)) == None
  {
    hide SeedText;
    DigitsOfText(n);
    var s := SeedText(n);
    assert ("+" + s)[1..] == s;
    SignIsNoDigit(s);
  }

  lemma {:induction false} SignIsNoDigit(s: string)
    ensures Digits("-" + s) == None
  {
    if |s| == 0 {
      assert "-" + s == "-" && "-"[..0] == "";
    } else {
      assert ("-" + s)[..|s|] == "-" + s[..|s| - 1];
      SignIsNoDigit(s[..|s| - 1]);
    }
  }
}
