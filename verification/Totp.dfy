/** Two-factor codes: base32 secrets, and six digits out of a digest. */
module Totp {
  import opened Prelude
  import opened Bytes
  import opened Decimal

  const ALPHABET := "ABCDEFGHIJKLMNOPQRSTUVWXYZ234567"

  // ----- Bits -----

  type Bits = seq<bool>

  /** A number written with a fixed number of bits, most significant first. */
  function BitsOf(n: nat, width: nat): (b: Bits)
    ensures |b| == width
  {
    if width == 0 then [] else BitsOf(n / 2, width - 1) + [n % 2 == 1]
  }

  function Value(b: Bits): nat {
    if b == [] then 0 else 2 * Value(b[..|b| - 1]) + if b[|b| - 1] then 1 else 0
  }

  function Pow2(k: nat): (p: nat)
    ensures p > 0
  {
    if k == 0 then 1 else 2 * Pow2(k - 1)
  }

  lemma {:induction false} ValueOfBits(n: nat, width: nat)
    requires n < Pow2(width)
    ensures Value(BitsOf(n, width)) == n
  {
    if width > 0 {
      ValueOfBits(n / 2, width - 1);
      assert BitsOf(n, width)[..width - 1] == BitsOf(n / 2, width - 1);
    }
  }

  lemma {:induction false} BitsOfValue(b: Bits)
    ensures Value(b) < Pow2(|b|) && BitsOf(Value(b), |b|) == b
  {
    if b != [] {
      BitsOfValue(b[..|b| - 1]);
      assert b == b[..|b| - 1] + [b[|b| - 1]];
    }
  }

  // ----- Base32 -----

  const BYTE_BITS: nat := 8
  const LETTER_BITS: nat := 5

  function ByteBits(x: Byte): (b: Bits)
    ensures |b| == 8
  {
    BitsOf(x as nat, BYTE_BITS)
  }

  /** The bits of bytes, one after the other. */
  function Spread(bytes: seq<Byte>): (b: Bits)
    ensures |b| == 8 * |bytes| && |b| % 8 == 0
  {
    if bytes == [] then [] else Spread(bytes[..|bytes| - 1]) + ByteBits(bytes[|bytes| - 1])
  }

  function Letter(group: Bits): char
    requires |group| == 5
  {
    BitsOfValue(group);
    assert Pow2(5) == 32;
    ALPHABET[Value(group)]
  }

  /** One letter for every five bits; a shorter rest at the end is dropped. */
  function Letters(b: Bits): string {
    if |b| < 5 then [] else [Letter(b[..5])] + Letters(b[5..])
  }

  function Encode(bytes: seq<Byte>): string { Letters(Spread(bytes)) }

  function IndexIn(alphabet: string, c: char): Option<nat> {
    if alphabet == [] then None
    else if alphabet[0] == c then Some(0)
    else
      match IndexIn(alphabet[1..], c)
      case None => None
      case Some(i) => Some(i + 1)
  }

  /** The five bits of every letter, or nothing when some character is no letter of the alphabet. */
  function Collect(secret: string): Option<Bits> {
    if secret == [] then Some([])
    else
      match (IndexIn(ALPHABET, secret[0]), Collect(secret[1..]))
      case (Some(i), Some(b)) => Some(BitsOf(i, LETTER_BITS) + b)
      case _ => None
  }

  /** One byte for every eight bits; a shorter rest at the end is dropped. */
  function Group(b: Bits): seq<Byte> {
    if |b| < 8 then []
    else
      BitsOfValue(b[..8]);
      assert Pow2(8) == 256;
      [Value(b[..8]) as Byte] + Group(b[8..])
  }

  /**
   * The upper case of a character, as far as it consists of basic letters; any other character is in no case a
   * letter of the alphabet, before or after.
   */
  function Upper(c: char): string {
    if 'a' <= c <= 'z' then [(c as int - 32) as char]
    else if c == '\U{131}' then "I"
    else if c == '\U{17F}' then "S"
    else if c == '\U{DF}' then "SS"
    else if c == '\U{FB00}' then "FF"
    else if c == '\U{FB01}' then "FI"
    else if c == '\U{FB02}' then "FL"
    else if c == '\U{FB03}' then "FFI"
    else if c == '\U{FB04}' then "FFL"
    else if c == '\U{FB05}' || c == '\U{FB06}' then "ST"
    else [c]
  }

  function UpperCase(s: string): string {
    if s == "" then "" else Upper(s[0]) + UpperCase(s[1..])
  }

  function WithoutPadding(s: string): string {
    if s != [] && s[|s| - 1] == '=' then WithoutPadding(s[..|s| - 1]) else s
  }

  function Text(secret: string): string { WithoutPadding(UpperCase(secret)) }

  function Decode(secret: string): Option<seq<Byte>> {
    match Collect(Text(secret))
    case None => None
    case Some(b) => Some(Group(b))
  }

  method GenerateSecret(bytes: seq<Byte>) returns (secret: string)
    ensures secret == Encode(bytes)
  {
    var bits: Bits := [];
    for k := 0 to |bytes|
      invariant bits == Spread(bytes[..k])
    {
      assert bytes[..k + 1][..k] == bytes[..k];
      bits := bits + ByteBits(bytes[k]);
    }
    assert bytes[..|bytes|] == bytes;
    secret := "";
    var i := 0;
    while i + 5 <= |bits|
      invariant i <= |bits| && secret + Letters(bits[i..]) == Letters(bits)
    {
      assert bits[i..][..5] == bits[i..i + 5] && bits[i..][5..] == bits[i + 5..];
      secret := secret + [Letter(bits[i..i + 5])];
      i := i + 5;
    }
  }

  function Prefixed(bits: Bits, more: Option<Bits>): Option<Bits> {
    match more
    case None => None
    case Some(b) => Some(bits + b)
  }

  lemma PrefixedTwice(a: Bits, b: Bits, more: Option<Bits>)
    ensures Prefixed(a, Prefixed(b, more)) == Prefixed(a + b, more)
  {
    if more.Some? { Regroup(a, b, more.value); }
  }

  lemma PrefixedByNothing(text: string)
    ensures Collect(text) == Prefixed([], Collect(text[0..]))
  {
    assert text[0..] == text;
    if Collect(text).Some? { Regroup([], [], Collect(text).value); }
  }

  method DecodeBase32(secret: string) returns (out: Option<seq<Byte>>)
    ensures out == Decode(secret)
  {
    var text := Text(secret);
    var bits: Bits := [];
    PrefixedByNothing(text);
    for k := 0 to |text|
      invariant Collect(text) == Prefixed(bits, Collect(text[k..]))
    {
      assert text[k..][1..] == text[k + 1..];
      var index := IndexIn(ALPHABET, text[k]);
      if index.None? { return None; }
      PrefixedTwice(bits, BitsOf(index.value, LETTER_BITS), Collect(text[k + 1..]));
      bits := bits + BitsOf(index.value, LETTER_BITS);
    }
    assert text[|text|..] == [] && bits + [] == bits;
    var bytes := Bytewise(bits);
    return Some(bytes);
  }

  method Bytewise(bits: Bits) returns (bytes: seq<Byte>)
    ensures bytes == Group(bits)
  {
    bytes := [];
    var i := 0;
    assert bits[0..] == bits;
    while i + 8 <= |bits|
      invariant i <= |bits| && bytes + Group(bits[i..]) == Group(bits)
    {
      assert bits[i..][..8] == bits[i..i + 8] && bits[i..][8..] == bits[i + 8..];
      BitsOfValue(bits[i..i + 8]);
      assert Pow2(8) == 256;
      bytes := bytes + [Value(bits[i..i + 8]) as Byte];
      i := i + 8;
    }
    assert Group(bits[i..]) == [];
  }

  // ----- Decoding undoes encoding -----

  lemma {:induction false} GroupAppend(a: Bits, b: Bits)
    requires |a| % 8 == 0
    ensures Group(a + b) == Group(a) + Group(b)
  {
    if a == [] {
      assert a + b == b;
    } else {
      assert (a + b)[..8] == a[..8] && (a + b)[8..] == a[8..] + b;
      GroupAppend(a[8..], b);
    }
  }

  lemma GroupOne(x: Byte)
    ensures Group(ByteBits(x)) == [x]
  {
    var b := ByteBits(x);
    assert Pow2(8) == 256;
    ValueOfBits(x as nat, 8);
    assert b[..8] == b && b[8..] == [];
  }

  lemma {:induction false} GroupSpread(bytes: seq<Byte>)
    ensures Group(Spread(bytes)) == bytes
  {
    if bytes != [] {
      var init, last := bytes[..|bytes| - 1], bytes[|bytes| - 1];
      GroupSpread(init);
      GroupAppend(Spread(init), ByteBits(last));
      GroupOne(last);
      assert bytes == init + [last];
    }
  }

  lemma {:induction false} IndexInAt(alphabet: string, i: nat)
    requires i < |alphabet| && forall j, k :: 0 <= j < k < |alphabet| ==> alphabet[j] != alphabet[k]
    ensures IndexIn(alphabet, alphabet[i]) == Some(i)
  {
    if i > 0 {
      assert alphabet[0] != alphabet[i];
      forall j, k | 0 <= j < k < |alphabet[1..]| ensures alphabet[1..][j] != alphabet[1..][k] {
        assert alphabet[j + 1] != alphabet[k + 1];
      }
      IndexInAt(alphabet[1..], i - 1);
    }
  }

  /** The alphabet runs through the capitals, then the digits from two to seven. */
  lemma AlphabetOrder(i: nat)
    requires i < 32
    ensures ALPHABET[i] as int == if i < 26 then 'A' as int + i else '2' as int + i - 26
  {}

  lemma LettersDiffer()
    ensures forall j, k :: 0 <= j < k < |ALPHABET| ==> ALPHABET[j] != ALPHABET[k]
  {
    forall j, k | 0 <= j < k < |ALPHABET| ensures ALPHABET[j] != ALPHABET[k] {
      AlphabetOrder(j);
      AlphabetOrder(k);
    }
  }

  lemma LetterIndex(i: nat)
    requires i < 32
    ensures IndexIn(ALPHABET, ALPHABET[i]) == Some(i)
    ensures Upper(ALPHABET[i]) == [ALPHABET[i]] && ALPHABET[i] != '='
  {
    LettersDiffer();
    IndexInAt(ALPHABET, i);
    LetterIsUpper(i);
  }

  lemma LetterIsUpper(i: nat)
    requires i < 32
    ensures Upper(ALPHABET[i]) == [ALPHABET[i]] && ALPHABET[i] != '='
  {
    AlphabetOrder(i);
  }

  lemma LetterIsRead(group: Bits)
    requires |group| == 5
    ensures IndexIn(ALPHABET, Letter(group)).Some? && BitsOf(IndexIn(ALPHABET, Letter(group)).value, LETTER_BITS) == group
    ensures Upper(Letter(group)) == [Letter(group)] && Letter(group) != '='
  {
    BitsOfValue(group);
    assert Pow2(5) == 32;
    LetterIndex(Value(group));
  }

  /** The bits that fill whole letters. */
  function Whole(b: Bits): Bits { b[..|b| - |b| % 5] }

  lemma WholeStep(b: Bits)
    requires |b| >= 5
    ensures Whole(b) == b[..5] + Whole(b[5..])
  {
    assert |b[5..]| % 5 == |b| % 5;
  }

  lemma CollectOne(c: char, text: string)
    requires IndexIn(ALPHABET, c).Some? && Collect(text).Some?
    ensures Collect([c] + text) == Some(BitsOf(IndexIn(ALPHABET, c).value, LETTER_BITS) + Collect(text).value)
  {
    assert ([c] + text)[1..] == text;
  }

  lemma {:induction false} CollectLetters(b: Bits)
    ensures Collect(Letters(b)) == Some(Whole(b))
  {
    if |b| >= 5 {
      CollectLetters(b[5..]);
      LetterIsRead(b[..5]);
      CollectOne(Letter(b[..5]), Letters(b[5..]));
      WholeStep(b);
    }
  }

  predicate IsUpper(c: char) { Upper(c) == [c] }

  lemma {:induction false} UpperStays(s: string)
    requires forall i :: 0 <= i < |s| ==> IsUpper(s[i])
    ensures UpperCase(s) == s
  {
    if s != "" {
      UpperStays(s[1..]);
      assert IsUpper(s[0]);
      assert s == [s[0]] + s[1..];
    }
  }

  lemma {:induction false} LettersArePlain(b: Bits)
    ensures forall i :: 0 <= i < |Letters(b)| ==> IsUpper(Letters(b)[i])
    ensures Letters(b) == "" || Letters(b)[|Letters(b)| - 1] != '='
  {
    if |b| >= 5 {
      LettersArePlain(b[5..]);
      LetterIsRead(b[..5]);
    }
  }

  lemma ReadsWholeLetters(bytes: seq<Byte>)
    ensures Decode(Encode(bytes)) == Some(Group(Whole(Spread(bytes))))
  {
    LettersArePlain(Spread(bytes));
    UpperStays(Letters(Spread(bytes)));
    CollectLetters(Spread(bytes));
  }

  lemma GroupDropsTheRest(init: seq<Byte>, rest: Bits)
    requires |rest| < 8
    ensures Group(Spread(init) + rest) == init
  {
    var bits := Spread(init);
    GroupAppend(bits, rest);
    GroupSpread(init);
    assert Group(rest) == [];
    Regroup(init, [], []);
  }

  lemma BitsLeftOver(n: nat, total: nat)
    requires total == 8 * n
    ensures total % 5 == 0 <==> n % 5 == 0
  {}

  lemma WholeOfAppend(a: Bits, b: Bits, over: nat)
    requires over == (|a| + |b|) % 5 && over <= |b|
    ensures Whole(a + b) == a + b[..|b| - over]
  {}

  lemma GroupOfWhole(init: seq<Byte>, bits: Bits, over: nat)
    requires |bits| == 8 && 0 < over <= 8 && over == (|Spread(init)| + |bits|) % 5
    ensures Group(Whole(Spread(init) + bits)) == init
  {
    WholeOfAppend(Spread(init), bits, over);
    GroupDropsTheRest(init, bits[..8 - over]);
  }

  lemma LastBitsAreLost(init: seq<Byte>, bits: Bits, total: nat)
    requires |bits| == 8 && total % 5 != 0 && total == |Spread(init)| + |bits|
    ensures Group(Whole(Spread(init) + bits)) == init
  {
    GroupOfWhole(init, bits, total % 5);
  }

  lemma SpreadSnoc(init: seq<Byte>, last: Byte)
    ensures Spread(init + [last]) == Spread(init) + ByteBits(last)
  {
    assert (init + [last])[..|init|] == init;
  }

  /** Outside whole multiples of five bytes, the letters miss between one and four bits of the last byte. */
  lemma LastByteIsLost(init: seq<Byte>, last: Byte, total: nat)
    requires total == |Spread(init)| + 8 && total % 5 != 0
    ensures Group(Whole(Spread(init + [last]))) == init
  {
    SpreadSnoc(init, last);
    LastBitsAreLost(init, ByteBits(last), total);
  }

  lemma NothingIsLost(bytes: seq<Byte>)
    requires |bytes| % 5 == 0
    ensures Group(Whole(Spread(bytes))) == bytes
  {
    var bits := Spread(bytes);
    BitsLeftOver(|bytes|, |bits|);
    assert Whole(bits) == bits;
    GroupSpread(bytes);
  }

  /** Decoding undoes encoding when the length is a multiple of five bytes; otherwise exactly the last byte is lost. */
  lemma DecodeEncode(bytes: seq<Byte>)
    ensures Decode(Encode(bytes)) == Some(if |bytes| % 5 == 0 then bytes else bytes[..|bytes| - 1])
  {
    ReadsWholeLetters(bytes);
    if |bytes| % 5 == 0 {
      NothingIsLost(bytes);
    } else {
      SnocLosesLast(bytes);
    }
  }

  lemma SnocLosesLast(bytes: seq<Byte>)
    requires |bytes| % 5 != 0
    ensures Group(Whole(Spread(bytes))) == bytes[..|bytes| - 1]
  {
    var init, last := bytes[..|bytes| - 1], bytes[|bytes| - 1];
    assert bytes == init + [last];
    BitsLeftOver(|bytes|, 8 * |bytes|);
    LastByteIsLost(init, last, 8 * |bytes|);
  }

  lemma {:induction false} PaddingIsDropped(s: string, k: nat)
    ensures WithoutPadding(s + seq(k, _ => '=')) == WithoutPadding(s)
  {
    var t := s + seq(k, _ => '=');
    if k == 0 {
      assert t == s;
    } else {
      PaddingIsDropped(s, k - 1);
      assert t[..|t| - 1] == s + seq(k - 1, _ => '=');
    }
  }

  lemma {:induction false} UpperAppend(a: string, b: string)
    ensures UpperCase(a + b) == UpperCase(a) + UpperCase(b)
  {
    if a == "" {
      assert a + b == b;
    } else {
      assert (a + b)[1..] == a[1..] + b;
      UpperAppend(a[1..], b);
    }
  }

  lemma UpperIsUpper(c: char, i: nat)
    requires i < |Upper(c)|
    ensures IsUpper(Upper(c)[i])
  {}

  lemma {:induction false} UpperCaseIsUpper(s: string, i: nat)
    requires i < |UpperCase(s)|
    ensures IsUpper(UpperCase(s)[i])
  {
    var n := |Upper(s[0])|;
    if i < n { UpperIsUpper(s[0], i); } else { UpperCaseIsUpper(s[1..], i - n); }
  }

  lemma UpperTwice(s: string)
    ensures UpperCase(UpperCase(s)) == UpperCase(s)
  {
    forall i | 0 <= i < |UpperCase(s)| ensures IsUpper(UpperCase(s)[i]) { UpperCaseIsUpper(s, i); }
    UpperStays(UpperCase(s));
  }

  lemma TextOfPadded(s: string, k: nat)
    ensures Text(s + seq(k, _ => '=')) == Text(s)
  {
    var pad := seq(k, _ => '=');
    UpperAppend(s, pad);
    UpperStays(pad);
    PaddingIsDropped(UpperCase(s), k);
  }

  /** Upper-casing: the twenty-six small letters become the capitals, by code, and these stay. */
  lemma UpperIs(i: nat)
    requires i < 26
    ensures Upper((97 + i) as char) == [(65 + i) as char] && Upper((65 + i) as char) == [(65 + i) as char]
  {}

  lemma UpperIsAlso()
    ensures Upper(305 as char) == "I" && Upper(383 as char) == "S" && Upper(223 as char) == "SS"
    ensures Upper(64256 as char) == "FF" && Upper(64257 as char) == "FI" && Upper(64258 as char) == "FL"
    ensures Upper(64259 as char) == "FFI" && Upper(64260 as char) == "FFL"
    ensures Upper(64261 as char) == "ST" && Upper(64262 as char) == "ST"
    ensures Upper('=') == "=" && Upper('2') == "2" && Upper('7') == "7"
  {}

  lemma UpperLeavesOthers(c: char)
    requires !(97 <= c as int <= 122) && c as int !in {223, 305, 383} && !(64256 <= c as int <= 64262)
    ensures Upper(c) == [c]
  {}

  /** The case of letters and trailing padding make no difference. */
  lemma DecodeIsLenient(s: string, k: nat)
    ensures Decode(s + seq(k, _ => '=')) == Decode(s) == Decode(UpperCase(s))
  {
    TextOfPadded(s, k);
    UpperTwice(s);
  }

  /** The alphabet: the capitals, then the digits from 2 to 7. */
  lemma AlphabetIs(i: nat)
    requires i < 32
    ensures |ALPHABET| == 32 && ALPHABET[i] as int == if i < 26 then 65 + i else 50 + (i - 26)
  {}

  lemma {:induction false} IndexInIsIn(alphabet: string, c: char)
    ensures IndexIn(alphabet, c).Some? <==> c in alphabet
  {
    if alphabet != [] {
      IndexInIsIn(alphabet[1..], c);
      assert alphabet == [alphabet[0]] + alphabet[1..];
    }
  }

  predicate InAlphabet(text: string) {
    forall i :: 0 <= i < |text| ==> text[i] in ALPHABET
  }

  lemma {:induction false} CollectsLetters(text: string)
    ensures Collect(text).Some? <==> InAlphabet(text)
  {
    if text != [] {
      CollectsLetters(text[1..]);
      IndexInIsIn(ALPHABET, text[0]);
      assert forall i :: 1 <= i < |text| ==> text[i] == text[1..][i - 1];
    }
  }

  // ----- Codes -----

  const STEP_MS: int := 30_000

  /** Counters are written as unsigned 64-bit numbers. */
  const COUNTERS: nat := 0x1_0000_0000_0000_0000

  const MESSAGE_BYTES: nat := 8

  /** The counter as eight bytes, most significant first. */
  function Message(counter: nat): (m: seq<Byte>)
    requires counter < COUNTERS
    ensures |m| == MESSAGE_BYTES
  {
    Big(counter, MESSAGE_BYTES)
  }

  function Big(n: nat, width: nat): (m: seq<Byte>)
    ensures |m| == width
  {
    if width == 0 then [] else Big(n / 256, width - 1) + [(n % 256) as Byte]
  }

  function ReadBig(m: seq<Byte>): nat {
    if m == [] then 0 else 256 * ReadBig(m[..|m| - 1]) + m[|m| - 1] as nat
  }

  lemma {:induction false} ReadBigBack(n: nat, width: nat)
    requires n < Pow2(8 * width)
    ensures ReadBig(Big(n, width)) == n
  {
    if width > 0 {
      assert Pow2(8 * width) == 256 * Pow2(8 * (width - 1)) by { PowStep(8 * (width - 1)); }
      ReadBigBack(n / 256, width - 1);
      assert Big(n, width)[..width - 1] == Big(n / 256, width - 1);
    }
  }

  lemma PowStep(k: nat)
    ensures Pow2(k + 8) == 256 * Pow2(k)
  {
    assert Pow2(k + 8) == 2 * Pow2(k + 7) && Pow2(k + 7) == 2 * Pow2(k + 6);
    assert Pow2(k + 6) == 2 * Pow2(k + 5) && Pow2(k + 5) == 2 * Pow2(k + 4);
    assert Pow2(k + 4) == 2 * Pow2(k + 3) && Pow2(k + 3) == 2 * Pow2(k + 2);
    assert Pow2(k + 2) == 2 * Pow2(k + 1) && Pow2(k + 1) == 2 * Pow2(k);
  }

  lemma BigTellsApart(a: nat, b: nat, width: nat)
    requires a < Pow2(8 * width) && b < Pow2(8 * width) && Big(a, width) == Big(b, width)
    ensures a == b
  {
    ReadBigBack(a, width);
    ReadBigBack(b, width);
  }

  lemma CountersFit()
    ensures Pow2(64) == COUNTERS
  {
    PowStep(0);
    PowStep(8);
    PowStep(16);
    PowStep(24);
    PowStep(32);
    PowStep(40);
    PowStep(48);
    PowStep(56);
  }

  /** No two counters share a message. */
  lemma MessagesTellApart(a: nat, b: nat)
    requires a < COUNTERS && b < COUNTERS && Message(a) == Message(b)
    ensures a == b
  {
    CountersFit();
    BigTellsApart(a, b, MESSAGE_BYTES);
  }

  /** Four bytes at the offset the last byte names, without the top bit. */
  function Truncate(digest: seq<Byte>): (n: nat)
    requires |digest| == 20
    ensures n < 0x8000_0000
  {
    var offset := digest[19] as nat % 16;
    ReadBig(digest[offset..offset + 4]) % 0x8000_0000
  }

  /** The first byte gives seven bits, the other three eight each, in that order. */
  lemma TruncateIsShifted(digest: seq<Byte>)
    requires |digest| == 20
    ensures var o := digest[19] as nat % 16;
            Truncate(digest) == U32BE(((digest[o] as nat) % 128) as Byte, digest[o + 1], digest[o + 2], digest[o + 3])
  {
    var o := digest[19] as nat % 16;
    ReadsFourBytes(digest[o..o + 4]);
  }

  lemma ReadsFourBytes(m: seq<Byte>)
    requires |m| == 4
    ensures ReadBig(m) == U32BE(m[0], m[1], m[2], m[3])
  {
    assert m[..3][..2] == m[..2] && m[..2][..1] == m[..1] && m[..1][..0] == [];
    assert ReadBig(m[..1]) == m[0] as nat;
    assert ReadBig(m[..2]) == 256 * ReadBig(m[..1]) + m[1] as nat;
    assert ReadBig(m[..3]) == 256 * ReadBig(m[..2]) + m[2] as nat;
  }

  const DIGITS: nat := 6

  function SixDigits(n: nat): string { Pad(Print(n % 1_000_000), DIGITS) }

  lemma SixDigitsAre(n: nat)
    ensures |SixDigits(n)| == 6 && AllDigits(SixDigits(n)) && Parse(SixDigits(n)) == n % 1_000_000
  {
    assert Pow10(3) == 1000;
    assert Pow10(6) == 1_000_000;
    PaddedField(n % 1_000_000, 6);
  }

  /** A keyed hash with 20-byte digests. */
  ghost predicate IsHmac(hmac: (seq<Byte>, seq<Byte>) -> seq<Byte>) {
    forall key, message :: |hmac(key, message)| == 20
  }

  function CodeAt(secret: string, counter: nat, hmac: (seq<Byte>, seq<Byte>) -> seq<Byte>): Option<string>
    requires IsHmac(hmac) && counter < COUNTERS
  {
    match Decode(secret)
    case None => None
    case Some(key) => Some(SixDigits(Truncate(hmac(key, Message(counter)))))
  }

  /** A code exists exactly for a secret written in the alphabet. */
  lemma CodesExistForReadableSecrets(secret: string, counter: nat, hmac: (seq<Byte>, seq<Byte>) -> seq<Byte>)
    requires IsHmac(hmac) && counter < COUNTERS
    ensures CodeAt(secret, counter, hmac).Some? <==> InAlphabet(Text(secret))
  {
    CollectsLetters(Text(secret));
  }

  lemma CodesAreSixDigits(secret: string, counter: nat, hmac: (seq<Byte>, seq<Byte>) -> seq<Byte>)
    requires IsHmac(hmac) && counter < COUNTERS
    ensures match CodeAt(secret, counter, hmac)
            case None => Decode(secret).None?
            case Some(code) =>
              && Decode(secret).Some? && |code| == 6 && AllDigits(code)
              && Parse(code) == Truncate(hmac(Decode(secret).value, Message(counter))) % 1_000_000
  {
    if Decode(secret).Some? { SixDigitsAre(Truncate(hmac(Decode(secret).value, Message(counter)))); }
  }

  /** The code of every counter; one outside the counters cannot be written and is an error, as is an unreadable secret. */
  function Codes(secret: string, hmac: (seq<Byte>, seq<Byte>) -> seq<Byte>): int -> Option<string>
    requires IsHmac(hmac)
  {
    counter => if 0 <= counter < COUNTERS then CodeAt(secret, counter, hmac) else None
  }

  lemma CodeExists(secret: string, counter: int, hmac: (seq<Byte>, seq<Byte>) -> seq<Byte>)
    requires IsHmac(hmac)
    ensures Codes(secret, hmac)(counter).Some? <==> 0 <= counter < COUNTERS && Decode(secret).Some?
  {}

  /** The code of the step before, this step, or the next. */
  predicate Accepted(code: int -> Option<string>, submitted: string, counter: int) {
    || code(counter - 1) == Some(submitted)
    || code(counter) == Some(submitted)
    || code(counter + 1) == Some(submitted)
  }

  predicate WindowExists(code: int -> Option<string>, counter: int) {
    code(counter - 1).Some? && code(counter).Some? && code(counter + 1).Some?
  }

  /** Every step of the window is compared, whatever the codes are; a code that cannot be made is an error. */
  method CompareWindow(code: int -> Option<string>, submitted: string, counter: int) returns (ok: Option<bool>)
    ensures ok == if WindowExists(code, counter) then Some(Accepted(code, submitted, counter)) else None
  {
    var found := false;
    var drift := -1;
    while drift <= 1
      invariant -1 <= drift <= 2
      invariant (drift > -1 ==> code(counter - 1).Some?) && (drift > 0 ==> code(counter).Some?) && (drift > 1 ==> code(counter + 1).Some?)
      invariant found <==> || (drift > -1 && code(counter - 1) == Some(submitted))
                           || (drift > 0 && code(counter) == Some(submitted))
                           || (drift > 1 && code(counter + 1) == Some(submitted))
    {
      var expected := code(counter + drift);
      if expected.None? { return None; }
      if |expected.value| == |submitted| && expected.value == submitted { found := true; }
      drift := drift + 1;
    }
    return Some(found);
  }

  lemma WindowNeedsTheSecret(secret: string, counter: int, hmac: (seq<Byte>, seq<Byte>) -> seq<Byte>)
    requires IsHmac(hmac)
    ensures WindowExists(Codes(secret, hmac), counter) <==> 1 <= counter < COUNTERS - 1 && Decode(secret).Some?
  {
    CodeExists(secret, counter - 1, hmac);
    CodeExists(secret, counter, hmac);
    CodeExists(secret, counter + 1, hmac);
  }

  method VerifyCode(secret: string, submitted: string, counter: int, hmac: (seq<Byte>, seq<Byte>) -> seq<Byte>) returns (ok: Option<bool>)
    requires IsHmac(hmac)
    ensures ok.Some? <==> 1 <= counter < COUNTERS - 1 && Decode(secret).Some?
    ensures ok.Some? ==> ok.value == Accepted(Codes(secret, hmac), submitted, counter)
  {
    ok := CompareWindow(Codes(secret, hmac), submitted, counter);
    WindowNeedsTheSecret(secret, counter, hmac);
  }

  lemma NearbySteps(shownAt: nat, usedAt: nat)
    requires -STEP_MS <= usedAt - shownAt <= STEP_MS
    ensures -1 <= shownAt / STEP_MS - usedAt / STEP_MS <= 1
  {}

  lemma NearCodeIsAccepted(code: int -> Option<string>, step: int, counter: int)
    requires code(step).Some? && -1 <= step - counter <= 1
    ensures Accepted(code, code(step).value, counter)
  {
    assert step == counter - 1 || step == counter || step == counter + 1;
  }

  /** A code shown at some moment is accepted at every moment at most thirty seconds away. */
  lemma GoodForThirtySeconds(secret: string, shownAt: nat, usedAt: nat, hmac: (seq<Byte>, seq<Byte>) -> seq<Byte>)
    requires IsHmac(hmac) && Decode(secret).Some? && -30_000 <= usedAt - shownAt <= 30_000
    requires shownAt / 30_000 < COUNTERS
    ensures Codes(secret, hmac)(shownAt / 30_000).Some?
    ensures Accepted(Codes(secret, hmac), Codes(secret, hmac)(shownAt / 30_000).value, usedAt / 30_000)
  {
    NearbySteps(shownAt, usedAt);
    CodeExists(secret, shownAt / STEP_MS, hmac);
    NearCodeIsAccepted(Codes(secret, hmac), shownAt / STEP_MS, usedAt / STEP_MS);
  }
}
