/** Session identifiers: 128 bits, 48 of time and 80 of entropy, written as 26 base-32 digits.
    The encoder works on machine words; what its shifts and masks compute is read off bit by bit. */
module Ulid {
  import opened Ordering

  const CROCKFORD_BASE32 := "0123456789ABCDEFGHJKMNPQRSTVWXYZ"

  function Symbol(d: int): char
    requires 0 <= d < 32
  {
    assert |CROCKFORD_BASE32| == 32;
    CROCKFORD_BASE32[d]
  }

  // ----- numbers and their digits -----

  /** The number written by `digits` in the given base, the most significant digit first. */
  function Horner(digits: seq<int>, base: int): int {
    if digits == [] then 0
    else Horner(digits[..|digits| - 1], base) * base + digits[|digits| - 1]
  }

  ghost predicate AreDigits(digits: seq<int>, base: int) {
    forall k :: 0 <= k < |digits| ==> 0 <= digits[k] < base
  }

  function ByteValue(x: bv8): int {
    x as int
  }

  function Bytes(value: seq<bv8>): (r: seq<int>)
    ensures |r| == |value|
  {
    seq(|value|, k requires 0 <= k < |value| => ByteValue(value[k]))
  }

  /** The bytes as one number, the most significant first. */
  function Number(value: seq<bv8>): int {
    Horner(Bytes(value), 256)
  }

  /** The last `n` base-32 digits of a number in Crockford's alphabet. */
  function Base32(number: int, n: nat): (s: string)
    ensures |s| == n
    decreases n
  {
    if n == 0 then "" else Base32(number / 32, n - 1) + [Symbol(number % 32)]
  }

  function Symbols(digits: seq<bv5>): (s: string)
    ensures |s| == |digits|
  {
    seq(|digits|, k requires 0 <= k < |digits| => Symbol(digits[k] as int))
  }

  function Values(digits: seq<bv5>): (r: seq<int>)
    ensures |r| == |digits| && AreDigits(r, 32)
  {
    seq(|digits|, k requires 0 <= k < |digits| => digits[k] as int)
  }

  lemma HornerStep(digits: seq<int>, k: nat, base: int)
    requires k < |digits|
    ensures Horner(digits[..k + 1], base) == Horner(digits[..k], base) * base + digits[k]
  {
    assert digits[..k + 1][..k] == digits[..k];
  }

  lemma Quotient32(upper: int, digit: int)
    requires 0 <= digit < 32
    ensures (upper * 32 + digit) / 32 == upper && (upper * 32 + digit) % 32 == digit
  {
  }

  lemma Append<T>(s: seq<T>, x: T, r: seq<T>)
    requires |r| == |s| + 1 && r[..|s|] == s && r[|s|] == x
    ensures r == s + [x]
  {
  }

  /** A string of digits is the base-32 expansion of the number it writes. */
  lemma {:induction false} ExpansionOfHorner(digits: seq<bv5>)
    ensures Base32(Horner(Values(digits), 32), |digits|) == Symbols(digits)
  {
    hide Symbol;
    if digits == [] {
    } else {
      var n := |digits| - 1;
      ExpansionOfHorner(digits[..n]);
      assert Values(digits)[..n] == Values(digits[..n]);
      Quotient32(Horner(Values(digits[..n]), 32), digits[n] as int);
      Append(Symbols(digits[..n]), Symbol(digits[n] as int), Symbols(digits));
    }
  }

  // ----- words and bits -----

  function Low5(x: bv64): bv5 {
    (x & 0x1f) as bv5
  }

  /** The digit made of the last bit of the upper half and the first four of the lower half. */
  function Across(hi: bv64, lo: bv64): bv5 {
    (((hi & 0x1) << 4) | ((lo >> 60) & 0x0f)) as bv5
  }

  /** `binary.BigEndian.Uint64` */
  function BigEndian(b: seq<bv8>): bv64
    requires |b| == 8
  {
    Word(b[0], b[1], b[2], b[3], b[4], b[5], b[6], b[7])
  }

  function Word(b0: bv8, b1: bv8, b2: bv8, b3: bv8, b4: bv8, b5: bv8, b6: bv8, b7: bv8): bv64 {
    ((b0 as bv64) << 56) | ((b1 as bv64) << 48) | ((b2 as bv64) << 40) | ((b3 as bv64) << 32)
    | ((b4 as bv64) << 24) | ((b5 as bv64) << 16) | ((b6 as bv64) << 8) | (b7 as bv64)
  }

  function Bit(x: bv8, mask: bv8): int {
    if x & mask != 0 then 1 else 0
  }

  function DigitBit(x: bv5, mask: bv5): int {
    if x & mask != 0 then 1 else 0
  }

  lemma {:induction false} ByteOfBits(x: bv8)
    ensures ByteValue(x) == 128 * Bit(x, 128) + 64 * Bit(x, 64) + 32 * Bit(x, 32) + 16 * Bit(x, 16)
                        + 8 * Bit(x, 8) + 4 * Bit(x, 4) + 2 * Bit(x, 2) + Bit(x, 1)
  {
  }

  lemma {:induction false} DigitOfBits(x: bv5)
    ensures x as int == 16 * DigitBit(x, 16) + 8 * DigitBit(x, 8) + 4 * DigitBit(x, 4)
                        + 2 * DigitBit(x, 2) + DigitBit(x, 1)
  {
  }

  // The first digit, and the eight ways in which a digit lies in a group of five bytes.

  function TopThree(x: bv8): bv5 {
    (x >> 5) as bv5
  }

  function TopFive(x: bv8): bv5 {
    (x >> 3) as bv5
  }

  function ThreeTwo(x: bv8, y: bv8): bv5 {
    (((x & 7) << 2) | (y >> 6)) as bv5
  }

  function MiddleFive(x: bv8): bv5 {
    ((x >> 1) & 0x1f) as bv5
  }

  function OneFour(x: bv8, y: bv8): bv5 {
    (((x & 1) << 4) | (y >> 4)) as bv5
  }

  function FourOne(x: bv8, y: bv8): bv5 {
    (((x & 15) << 1) | (y >> 7)) as bv5
  }

  function InnerFive(x: bv8): bv5 {
    ((x >> 2) & 0x1f) as bv5
  }

  function TwoThree(x: bv8, y: bv8): bv5 {
    (((x & 3) << 3) | (y >> 5)) as bv5
  }

  function LastFive(x: bv8): bv5 {
    (x & 0x1f) as bv5
  }

  lemma {:induction false} BitsOfFirstDigits(x: bv8, y: bv8, z: bv8)
    ensures TopFive(x) as int
            == 16 * Bit(x, 128) + 8 * Bit(x, 64) + 4 * Bit(x, 32) + 2 * Bit(x, 16) + Bit(x, 8)
    ensures ThreeTwo(x, y) as int
            == 16 * Bit(x, 4) + 8 * Bit(x, 2) + 4 * Bit(x, 1) + 2 * Bit(y, 128) + Bit(y, 64)
    ensures MiddleFive(y) as int
            == 16 * Bit(y, 32) + 8 * Bit(y, 16) + 4 * Bit(y, 8) + 2 * Bit(y, 4) + Bit(y, 2)
    ensures OneFour(y, z) as int
            == 16 * Bit(y, 1) + 8 * Bit(z, 128) + 4 * Bit(z, 64) + 2 * Bit(z, 32) + Bit(z, 16)
  {
    DigitOfBits(TopFive(x));
    DigitOfBits(ThreeTwo(x, y));
    DigitOfBits(MiddleFive(y));
    DigitOfBits(OneFour(y, z));
  }

  lemma {:induction false} BitsOfLastDigits(z: bv8, u: bv8, w: bv8)
    ensures FourOne(z, u) as int
            == 16 * Bit(z, 8) + 8 * Bit(z, 4) + 4 * Bit(z, 2) + 2 * Bit(z, 1) + Bit(u, 128)
    ensures InnerFive(u) as int
            == 16 * Bit(u, 64) + 8 * Bit(u, 32) + 4 * Bit(u, 16) + 2 * Bit(u, 8) + Bit(u, 4)
    ensures TwoThree(u, w) as int
            == 16 * Bit(u, 2) + 8 * Bit(u, 1) + 4 * Bit(w, 128) + 2 * Bit(w, 64) + Bit(w, 32)
    ensures LastFive(w) as int
            == 16 * Bit(w, 16) + 8 * Bit(w, 8) + 4 * Bit(w, 4) + 2 * Bit(w, 2) + Bit(w, 1)
  {
    DigitOfBits(FourOne(z, u));
    DigitOfBits(InnerFive(u));
    DigitOfBits(TwoThree(u, w));
    DigitOfBits(LastFive(w));
  }

  /** Five bytes and their eight digits write the same number. */
  lemma {:induction false} FiveBytesAreEightDigits(x: bv8, y: bv8, z: bv8, u: bv8, w: bv8)
    ensures ByteValue(x) * 0x1_0000_0000 + ByteValue(y) * 0x100_0000 + ByteValue(z) * 0x1_0000 + ByteValue(u) * 0x100
            + ByteValue(w)
            == (TopFive(x) as int) * 0x8_0000_0000 + (ThreeTwo(x, y) as int) * 0x4000_0000
               + (MiddleFive(y) as int) * 0x200_0000 + (OneFour(y, z) as int) * 0x10_0000
               + (FourOne(z, u) as int) * 0x8000 + (InnerFive(u) as int) * 0x400
               + (TwoThree(u, w) as int) * 0x20 + (LastFive(w) as int)
  {
    BitsOfFirstDigits(x, y, z);
    BitsOfLastDigits(z, u, w);
    ByteOfBits(x);
    ByteOfBits(y);
    ByteOfBits(z);
    ByteOfBits(u);
    ByteOfBits(w);
    hide ByteValue, Bit, TopFive, ThreeTwo, MiddleFive, OneFour, FourOne, InnerFive, TwoThree, LastFive;
  }

  // ----- the digits of the two words -----

  lemma {:induction false} HighWires(b0: bv8, b1: bv8, b2: bv8, b3: bv8, b4: bv8, b5: bv8, b6: bv8, b7: bv8)
    ensures var hi := Word(b0, b1, b2, b3, b4, b5, b6, b7);
            && Low5(hi >> 61) == TopThree(b0) && Low5(hi >> 56) == LastFive(b0)
            && Low5(hi >> 51) == TopFive(b1) && Low5(hi >> 46) == ThreeTwo(b1, b2)
            && Low5(hi >> 41) == MiddleFive(b2) && Low5(hi >> 36) == OneFour(b2, b3)
            && Low5(hi >> 31) == FourOne(b3, b4) && Low5(hi >> 26) == InnerFive(b4)
            && Low5(hi >> 21) == TwoThree(b4, b5) && Low5(hi >> 16) == LastFive(b5)
            && Low5(hi >> 11) == TopFive(b6) && Low5(hi >> 6) == ThreeTwo(b6, b7)
            && Low5(hi >> 1) == MiddleFive(b7)
  {
  }

  lemma {:induction false} LowWires(b8: bv8, b9: bv8, b10: bv8, b11: bv8, b12: bv8, b13: bv8, b14: bv8, b15: bv8)
    ensures var lo := Word(b8, b9, b10, b11, b12, b13, b14, b15);
            && Low5(lo >> 55) == FourOne(b8, b9) && Low5(lo >> 50) == InnerFive(b9)
            && Low5(lo >> 45) == TwoThree(b9, b10) && Low5(lo >> 40) == LastFive(b10)
            && Low5(lo >> 35) == TopFive(b11) && Low5(lo >> 30) == ThreeTwo(b11, b12)
            && Low5(lo >> 25) == MiddleFive(b12) && Low5(lo >> 20) == OneFour(b12, b13)
            && Low5(lo >> 15) == FourOne(b13, b14) && Low5(lo >> 10) == InnerFive(b14)
            && Low5(lo >> 5) == TwoThree(b14, b15) && Low5(lo) == LastFive(b15)
  {
  }

  lemma {:induction false} AcrossWires(b0: bv8, b1: bv8, b2: bv8, b3: bv8, b4: bv8, b5: bv8, b6: bv8, b7: bv8,
                                       b8: bv8, b9: bv8, b10: bv8, b11: bv8, b12: bv8, b13: bv8, b14: bv8, b15: bv8)
    ensures Across(Word(b0, b1, b2, b3, b4, b5, b6, b7), Word(b8, b9, b10, b11, b12, b13, b14, b15)) == OneFour(b7, b8)
  {
  }

  lemma {:induction false} FirstByte(x: bv8)
    ensures ByteValue(x) == (TopThree(x) as int) * 32 + LastFive(x) as int
  {
    ByteOfBits(x);
    DigitOfBits(TopThree(x));
    DigitOfBits(LastFive(x));
  }

  /** The digits that the encoder takes from the two words. */
  function WordDigit(hi: bv64, lo: bv64, k: int): bv5 {
    match k
    case 0 => Low5(hi >> 61)
    case 1 => Low5(hi >> 56)
    case 2 => Low5(hi >> 51)
    case 3 => Low5(hi >> 46)
    case 4 => Low5(hi >> 41)
    case 5 => Low5(hi >> 36)
    case 6 => Low5(hi >> 31)
    case 7 => Low5(hi >> 26)
    case 8 => Low5(hi >> 21)
    case 9 => Low5(hi >> 16)
    case 10 => Low5(hi >> 11)
    case 11 => Low5(hi >> 6)
    case 12 => Low5(hi >> 1)
    case 13 => Across(hi, lo)
    case 14 => Low5(lo >> 55)
    case 15 => Low5(lo >> 50)
    case 16 => Low5(lo >> 45)
    case 17 => Low5(lo >> 40)
    case 18 => Low5(lo >> 35)
    case 19 => Low5(lo >> 30)
    case 20 => Low5(lo >> 25)
    case 21 => Low5(lo >> 20)
    case 22 => Low5(lo >> 15)
    case 23 => Low5(lo >> 10)
    case 24 => Low5(lo >> 5)
    case _ => Low5(lo)
  }

  function WordDigits(hi: bv64, lo: bv64): (r: seq<bv5>)
    ensures |r| == 26
  {
    seq(26, k requires 0 <= k < 26 => WordDigit(hi, lo, k))
  }

  lemma EightDigits(v: seq<int>, i: nat)
    requires i + 8 <= |v|
    ensures Horner(v[..i + 8], 32)
            == Horner(v[..i], 32) * 0x100_0000_0000 + v[i] * 0x8_0000_0000 + v[i + 1] * 0x4000_0000
               + v[i + 2] * 0x200_0000 + v[i + 3] * 0x10_0000 + v[i + 4] * 0x8000 + v[i + 5] * 0x400
               + v[i + 6] * 0x20 + v[i + 7]
  {
    HornerStep(v, i, 32);
    HornerStep(v, i + 1, 32);
    HornerStep(v, i + 2, 32);
    HornerStep(v, i + 3, 32);
    HornerStep(v, i + 4, 32);
    HornerStep(v, i + 5, 32);
    HornerStep(v, i + 6, 32);
    HornerStep(v, i + 7, 32);
    hide Horner;
  }

  lemma FiveBytes(b: seq<int>, j: nat)
    requires j + 5 <= |b|
    ensures Horner(b[..j + 5], 256)
            == Horner(b[..j], 256) * 0x100_0000_0000 + b[j] * 0x1_0000_0000 + b[j + 1] * 0x100_0000
               + b[j + 2] * 0x1_0000 + b[j + 3] * 0x100 + b[j + 4]
  {
    HornerStep(b, j, 256);
    HornerStep(b, j + 1, 256);
    HornerStep(b, j + 2, 256);
    HornerStep(b, j + 3, 256);
    HornerStep(b, j + 4, 256);
    hide Horner;
  }

  /** The eight digits from index `i` are cut out of the five bytes from index `j`. */
  ghost predicate GroupAt(d: seq<bv5>, value: seq<bv8>, i: nat, j: nat) {
    && i + 8 <= |d| && j + 5 <= |value|
    && d[i] == TopFive(value[j]) && d[i + 1] == ThreeTwo(value[j], value[j + 1])
    && d[i + 2] == MiddleFive(value[j + 1]) && d[i + 3] == OneFour(value[j + 1], value[j + 2])
    && d[i + 4] == FourOne(value[j + 2], value[j + 3]) && d[i + 5] == InnerFive(value[j + 3])
    && d[i + 6] == TwoThree(value[j + 3], value[j + 4]) && d[i + 7] == LastFive(value[j + 4])
  }

  ghost predicate StartAt(d: seq<bv5>, value: seq<bv8>) {
    |d| >= 2 && |value| >= 1 && d[0] == TopThree(value[0]) && d[1] == LastFive(value[0])
  }

  /** Five more bytes and their eight digits keep the two numbers equal. */
  lemma Group(d: seq<bv5>, value: seq<bv8>, i: nat, j: nat)
    requires GroupAt(d, value, i, j)
    requires Horner(Values(d)[..i], 32) == Horner(Bytes(value)[..j], 256)
    ensures Horner(Values(d)[..i + 8], 32) == Horner(Bytes(value)[..j + 5], 256)
  {
    FiveBytesAreEightDigits(value[j], value[j + 1], value[j + 2], value[j + 3], value[j + 4]);
    EightDigits(Values(d), i);
    FiveBytes(Bytes(value), j);
    hide ByteValue, Horner, TopFive, ThreeTwo, MiddleFive, OneFour, FourOne, InnerFive, TwoThree, LastFive;
  }

  lemma Start(d: seq<bv5>, value: seq<bv8>)
    requires StartAt(d, value)
    ensures Horner(Values(d)[..2], 32) == Horner(Bytes(value)[..1], 256)
  {
    FirstByte(value[0]);
    HornerStep(Values(d), 0, 32);
    HornerStep(Values(d), 1, 32);
    HornerStep(Bytes(value), 0, 256);
    hide ByteValue, TopThree, LastFive;
  }

  lemma {:induction false} WordDigitAt(d: seq<bv5>, hi: bv64, lo: bv64)
    requires d == WordDigits(hi, lo)
    ensures d[0] == Low5(hi >> 61) && d[1] == Low5(hi >> 56)
    ensures d[2] == Low5(hi >> 51) && d[3] == Low5(hi >> 46)
    ensures d[4] == Low5(hi >> 41) && d[5] == Low5(hi >> 36)
    ensures d[6] == Low5(hi >> 31) && d[7] == Low5(hi >> 26)
    ensures d[8] == Low5(hi >> 21) && d[9] == Low5(hi >> 16)
    ensures d[10] == Low5(hi >> 11) && d[11] == Low5(hi >> 6)
    ensures d[12] == Low5(hi >> 1) && d[13] == Across(hi, lo)
    ensures d[14] == Low5(lo >> 55) && d[15] == Low5(lo >> 50)
    ensures d[16] == Low5(lo >> 45) && d[17] == Low5(lo >> 40)
    ensures d[18] == Low5(lo >> 35) && d[19] == Low5(lo >> 30)
    ensures d[20] == Low5(lo >> 25) && d[21] == Low5(lo >> 20)
    ensures d[22] == Low5(lo >> 15) && d[23] == Low5(lo >> 10)
    ensures d[24] == Low5(lo >> 5) && d[25] == Low5(lo)
  {
    hide Low5, Across;
  }

  lemma HalvesAreWords(value: seq<bv8>)
    requires |value| == 16
    ensures BigEndian(value[..8])
            == Word(value[0], value[1], value[2], value[3], value[4], value[5], value[6], value[7])
    ensures BigEndian(value[8..])
            == Word(value[8], value[9], value[10], value[11], value[12], value[13], value[14], value[15])
  {
    hide Word;
  }

  /** Where the digits of the two words lie in the sixteen bytes. */
  lemma DigitsOfBytes(value: seq<bv8>, d: seq<bv5>)
    requires |value| == 16 && d == WordDigits(BigEndian(value[..8]), BigEndian(value[8..]))
    ensures StartAt(d, value)
    ensures GroupAt(d, value, 2, 1) && GroupAt(d, value, 10, 6) && GroupAt(d, value, 18, 11)
  {
    HalvesAreWords(value);
    hide BigEndian, Word, WordDigits, Low5, Across, TopThree;
    hide TopFive, ThreeTwo, MiddleFive, OneFour, FourOne, InnerFive, TwoThree, LastFive;
    WordDigitAt(d, BigEndian(value[..8]), BigEndian(value[8..]));
    HighWires(value[0], value[1], value[2], value[3], value[4], value[5], value[6], value[7]);
    LowWires(value[8], value[9], value[10], value[11], value[12], value[13], value[14], value[15]);
    AcrossWires(value[0], value[1], value[2], value[3], value[4], value[5], value[6], value[7],
                value[8], value[9], value[10], value[11], value[12], value[13], value[14], value[15]);
  }

  lemma Whole<T>(s: seq<T>, n: nat)
    requires |s| == n
    ensures s[..n] == s
  {
  }

  lemma GroupsWriteNumber(value: seq<bv8>, d: seq<bv5>)
    requires |value| == 16 && |d| == 26 && StartAt(d, value)
    requires GroupAt(d, value, 2, 1) && GroupAt(d, value, 10, 6) && GroupAt(d, value, 18, 11)
    ensures Horner(Values(d), 32) == Number(value)
  {
    hide Horner, Values, Bytes, GroupAt, StartAt;
    Start(d, value);
    Group(d, value, 2, 1);
    Group(d, value, 10, 6);
    Group(d, value, 18, 11);
    Whole(Values(d), 26);
    Whole(Bytes(value), 16);
  }

  /** The digits cut out of the two words write the 128-bit number. */
  lemma DigitsWriteNumber(value: seq<bv8>)
    requires |value| == 16
    ensures Horner(Values(WordDigits(BigEndian(value[..8]), BigEndian(value[8..]))), 32) == Number(value)
  {
    var d := WordDigits(BigEndian(value[..8]), BigEndian(value[8..]));
    DigitsOfBytes(value, d);
    hide *;
    GroupsWriteNumber(value, d);
  }

  // ----- encoding -----

  function Sign(d: bv5): char {
    Symbol(d as int)
  }

  /** The identifier is the 26-digit base-32 expansion of the 128-bit number. */
  method EncodeUlid(value: seq<bv8>) returns (s: string)
    requires |value| == 16
    ensures s == Base32(Number(value), 26)
  {
    var hi, lo := BigEndian(value[..8]), BigEndian(value[8..]);
    DigitsWriteNumber(value);
    ExpansionOfHorner(WordDigits(hi, lo));
    hide BigEndian, Low5, Across, Sign, Symbol, Horner, Number, Base32, Values, Symbols, WordDigits;
    var out := new char[26](_ => '0');
    WriteHigh(hi, out);
    WriteLow(hi, lo, out);
    s := out[..];
    WordDigitAt(WordDigits(hi, lo), hi, lo);
    SameSymbols(s, WordDigits(hi, lo));
  }

  /** The digits that come from the upper 64 bits. */
  method WriteHigh(hi: bv64, out: array<char>)
    requires out.Length == 26
    modifies out
    ensures out[0] == Sign(Low5(hi >> 61)) && out[1] == Sign(Low5(hi >> 56))
    ensures out[2] == Sign(Low5(hi >> 51)) && out[3] == Sign(Low5(hi >> 46))
    ensures out[4] == Sign(Low5(hi >> 41)) && out[5] == Sign(Low5(hi >> 36))
    ensures out[6] == Sign(Low5(hi >> 31)) && out[7] == Sign(Low5(hi >> 26))
    ensures out[8] == Sign(Low5(hi >> 21)) && out[9] == Sign(Low5(hi >> 16))
    ensures out[10] == Sign(Low5(hi >> 11)) && out[11] == Sign(Low5(hi >> 6))
    ensures out[12] == Sign(Low5(hi >> 1))
  {
    hide Sign, Low5;
    out[0] := Sign(Low5(hi >> 61));
    out[1] := Sign(Low5(hi >> 56));
    out[2] := Sign(Low5(hi >> 51));
    out[3] := Sign(Low5(hi >> 46));
    out[4] := Sign(Low5(hi >> 41));
    out[5] := Sign(Low5(hi >> 36));
    out[6] := Sign(Low5(hi >> 31));
    out[7] := Sign(Low5(hi >> 26));
    out[8] := Sign(Low5(hi >> 21));
    out[9] := Sign(Low5(hi >> 16));
    out[10] := Sign(Low5(hi >> 11));
    out[11] := Sign(Low5(hi >> 6));
    out[12] := Sign(Low5(hi >> 1));
  }

  /** The digit across the two words, and those that come from the lower 64 bits. */
  method WriteLow(hi: bv64, lo: bv64, out: array<char>)
    requires out.Length == 26
    modifies out
    ensures forall k :: 0 <= k < 13 ==> out[k] == old(out[k])
    ensures out[13] == Sign(Across(hi, lo)) && out[14] == Sign(Low5(lo >> 55))
    ensures out[15] == Sign(Low5(lo >> 50)) && out[16] == Sign(Low5(lo >> 45))
    ensures out[17] == Sign(Low5(lo >> 40)) && out[18] == Sign(Low5(lo >> 35))
    ensures out[19] == Sign(Low5(lo >> 30)) && out[20] == Sign(Low5(lo >> 25))
    ensures out[21] == Sign(Low5(lo >> 20)) && out[22] == Sign(Low5(lo >> 15))
    ensures out[23] == Sign(Low5(lo >> 10)) && out[24] == Sign(Low5(lo >> 5))
    ensures out[25] == Sign(Low5(lo))
  {
    hide Sign, Low5, Across;
    out[13] := Sign(Across(hi, lo));
    out[14] := Sign(Low5(lo >> 55));
    out[15] := Sign(Low5(lo >> 50));
    out[16] := Sign(Low5(lo >> 45));
    out[17] := Sign(Low5(lo >> 40));
    out[18] := Sign(Low5(lo >> 35));
    out[19] := Sign(Low5(lo >> 30));
    out[20] := Sign(Low5(lo >> 25));
    out[21] := Sign(Low5(lo >> 20));
    out[22] := Sign(Low5(lo >> 15));
    out[23] := Sign(Low5(lo >> 10));
    out[24] := Sign(Low5(lo >> 5));
    out[25] := Sign(Low5(lo));
  }

  lemma {:induction false} SameSymbols(s: string, d: seq<bv5>)
    requires |s| == |d| == 26
    requires s[0] == Sign(d[0]) && s[1] == Sign(d[1])
    requires s[2] == Sign(d[2]) && s[3] == Sign(d[3])
    requires s[4] == Sign(d[4]) && s[5] == Sign(d[5])
    requires s[6] == Sign(d[6]) && s[7] == Sign(d[7])
    requires s[8] == Sign(d[8]) && s[9] == Sign(d[9])
    requires s[10] == Sign(d[10]) && s[11] == Sign(d[11])
    requires s[12] == Sign(d[12]) && s[13] == Sign(d[13])
    requires s[14] == Sign(d[14]) && s[15] == Sign(d[15])
    requires s[16] == Sign(d[16]) && s[17] == Sign(d[17])
    requires s[18] == Sign(d[18]) && s[19] == Sign(d[19])
    requires s[20] == Sign(d[20]) && s[21] == Sign(d[21])
    requires s[22] == Sign(d[22]) && s[23] == Sign(d[23])
    requires s[24] == Sign(d[24]) && s[25] == Sign(d[25])
    ensures s == Symbols(d)
  {
    hide Symbol;
  }

  // ----- order -----

  /** `n` base-32 digits are enough for the number. */
  ghost predicate Fits(number: int, n: nat)
    decreases n
  {
    number >= 0 && if n == 0 then number == 0 else Fits(number / 32, n - 1)
  }

  lemma {:induction false} HornerFits(v: seq<int>)
    requires AreDigits(v, 32)
    ensures Fits(Horner(v, 32), |v|)
  {
    if v != [] {
      var n := |v| - 1;
      HornerFits(v[..n]);
      Quotient32(Horner(v[..n], 32), v[n]);
    }
  }

  lemma NumberFits(value: seq<bv8>)
    requires |value| == 16
    ensures Fits(Number(value), 26)
  {
    var d := WordDigits(BigEndian(value[..8]), BigEndian(value[8..]));
    DigitsWriteNumber(value);
    HornerFits(Values(d));
    hide Fits, WordDigits, Number;
  }

  lemma NextSymbol(i: int)
    requires 0 <= i < 31
    ensures Symbol(i) < Symbol(i + 1)
  {
  }

  lemma {:induction false} SymbolsIncrease(i: int, j: int)
    requires 0 <= i < j < 32
    ensures Symbol(i) < Symbol(j)
    decreases j
  {
    NextSymbol(j - 1);
    hide Symbol;
    if i < j - 1 {
      SymbolsIncrease(i, j - 1);
    }
  }

  lemma SymbolOrder(a: int, b: int)
    requires 0 <= a < 32 && 0 <= b < 32
    ensures Symbol(a) < Symbol(b) <==> a < b
    ensures Symbol(a) == Symbol(b) <==> a == b
  {
    hide Symbol;
    if a < b {
      SymbolsIncrease(a, b);
    } else if b < a {
      SymbolsIncrease(b, a);
    }
  }

  lemma {:induction false} LessOfLast(a: string, b: string, x: char, y: char)
    requires |a| == |b|
    ensures StringLess(a + [x], b + [y]) <==> StringLess(a, b) || (a == b && x < y)
  {
    if a != "" {
      LessOfLast(a[1..], b[1..], x, y);
      assert (a + [x])[1..] == a[1..] + [x] && (b + [y])[1..] == b[1..] + [y];
      assert a == [a[0]] + a[1..] && b == [b[0]] + b[1..];
    }
  }

  lemma SameLast(a: string, b: string, x: char, y: char)
    requires |a| == |b|
    ensures a + [x] == b + [y] <==> a == b && x == y
  {
    assert (a + [x])[..|a|] == a && (b + [y])[..|b|] == b;
    assert (a + [x])[|a|] == x && (b + [y])[|b|] == y;
  }

  /** Expansions of the same length sort as the numbers they write, and are different for different numbers. */
  lemma {:induction false} Base32Order(m: int, k: int, n: nat)
    requires Fits(m, n) && Fits(k, n)
    ensures StringLess(Base32(m, n), Base32(k, n)) <==> m < k
    ensures Base32(m, n) == Base32(k, n) <==> m == k
    decreases n
  {
    hide Symbol;
    if n > 0 {
      Base32Order(m / 32, k / 32, n - 1);
      SymbolOrder(m % 32, k % 32);
      hide StringLess;
      LessOfLast(Base32(m / 32, n - 1), Base32(k / 32, n - 1), Symbol(m % 32), Symbol(k % 32));
      SameLast(Base32(m / 32, n - 1), Base32(k / 32, n - 1), Symbol(m % 32), Symbol(k % 32));
    }
  }

  lemma {:induction false} BytesDetermined(v: seq<bv8>, w: seq<bv8>)
    requires |v| == |w| && Number(v) == Number(w)
    ensures v == w
  {
    if v != [] {
      var n := |v| - 1;
      assert Bytes(v)[..n] == Bytes(v[..n]) && Bytes(w)[..n] == Bytes(w[..n]);
      SameByte(v[n], w[n]);
      LastDigit(Number(v[..n]), Number(w[..n]), ByteValue(v[n]), ByteValue(w[n]));
      BytesDetermined(v[..n], w[..n]);
      assert v == v[..n] + [v[n]] && w == w[..n] + [w[n]];
    }
  }

  lemma LastDigit(p: int, q: int, x: int, y: int)
    requires 0 <= x < 256 && 0 <= y < 256 && p * 256 + x == q * 256 + y
    ensures p == q && x == y
  {
  }

  lemma SameByte(x: bv8, y: bv8)
    ensures 0 <= ByteValue(x) < 256 && 0 <= ByteValue(y) < 256
    ensures ByteValue(x) == ByteValue(y) ==> x == y
  {
  }

  /** The text of an identifier determines its bytes, and sorts as the 128-bit number they write. */
  lemma EncodingOrder(v: seq<bv8>, w: seq<bv8>)
    requires |v| == |w| == 16
    ensures StringLess(Base32(Number(v), 26), Base32(Number(w), 26)) <==> Number(v) < Number(w)
    ensures Base32(Number(v), 26) == Base32(Number(w), 26) <==> v == w
  {
    NumberFits(v);
    NumberFits(w);
    hide Base32, Fits, Number, StringLess;
    Base32Order(Number(v), Number(w), 26);
    if Number(v) == Number(w) {
      BytesDetermined(v, w);
    }
  }

  // ----- identifiers of a time -----

  /** The time as it fits into 48 bits. */
  function Wrapped(millis: int): int {
    millis % 0x1_0000_0000_0000
  }

  function Combined(time: int, entropy: int): int {
    time * 0x1_0000_0000_0000_0000_0000 + entropy
  }

  /** The 128-bit number of an identifier made at `millis`; the time wraps around after 48 bits. */
  function UlidNumber(millis: int, entropy: int): int {
    Combined(Wrapped(millis), entropy)
  }

  function Low8(x: bv64): bv8 {
    (x & 0xff) as bv8
  }

  /** The byte of weight 256 to the power `k`. */
  function WordByte(m: bv64, k: int): bv8 {
    match k
    case 7 => Low8(m >> 56)
    case 6 => Low8(m >> 48)
    case 5 => Low8(m >> 40)
    case 4 => Low8(m >> 32)
    case 3 => Low8(m >> 24)
    case 2 => Low8(m >> 16)
    case 1 => Low8(m >> 8)
    case _ => Low8(m)
  }

  /** The number in the last `n` bytes of a word. */
  function LowBytes(m: bv64, n: int): int {
    match n
    case 7 => (m & 0xFF_FFFF_FFFF_FFFF) as int
    case 6 => (m & 0xFFFF_FFFF_FFFF) as int
    case 5 => (m & 0xFF_FFFF_FFFF) as int
    case 4 => (m & 0xFFFF_FFFF) as int
    case 3 => (m & 0xFF_FFFF) as int
    case 2 => (m & 0xFFFF) as int
    case 1 => (m & 0xFF) as int
    case _ => m as int
  }

  lemma {:induction false} UpperBytes(m: bv64)
    ensures LowBytes(m, 8) == LowBytes(m, 7) + 0x100_0000_0000_0000 * ByteValue(WordByte(m, 7))
    ensures LowBytes(m, 7) == LowBytes(m, 6) + 0x1_0000_0000_0000 * ByteValue(WordByte(m, 6))
  {
  }

  lemma {:induction false} FirstTimeBytes(m: bv64)
    ensures LowBytes(m, 6) == LowBytes(m, 5) + 0x100_0000_0000 * ByteValue(WordByte(m, 5))
    ensures LowBytes(m, 5) == LowBytes(m, 4) + 0x1_0000_0000 * ByteValue(WordByte(m, 4))
  {
  }

  lemma {:induction false} MiddleTimeBytes(m: bv64)
    ensures LowBytes(m, 4) == LowBytes(m, 3) + 0x100_0000 * ByteValue(WordByte(m, 3))
    ensures LowBytes(m, 3) == LowBytes(m, 2) + 0x1_0000 * ByteValue(WordByte(m, 2))
  {
  }

  lemma {:induction false} LastTimeBytes(m: bv64)
    ensures LowBytes(m, 2) == LowBytes(m, 1) + 0x100 * ByteValue(WordByte(m, 1))
  {
  }

  lemma {:induction false} LastTimeByte(m: bv64)
    ensures LowBytes(m, 1) == ByteValue(WordByte(m, 0))
  {
  }

  lemma ByteRange(x: bv8)
    ensures 0 <= ByteValue(x) < 256
  {
  }

  lemma SplitTime(n: int, high: int, t0: int, t1: int, t2: int, t3: int, t4: int, t5: int)
    requires 0 <= t0 < 256 && 0 <= t1 < 256 && 0 <= t2 < 256 && 0 <= t3 < 256 && 0 <= t4 < 256 && 0 <= t5 < 256
    requires n == high * 0x1_0000_0000_0000 + Time48(t0, t1, t2, t3, t4, t5)
    ensures Wrapped(n) == Time48(t0, t1, t2, t3, t4, t5)
  {
  }

  function Time48(t0: int, t1: int, t2: int, t3: int, t4: int, t5: int): int {
    t0 * 0x100_0000_0000 + t1 * 0x1_0000_0000 + t2 * 0x100_0000 + t3 * 0x1_0000 + t4 * 0x100 + t5
  }

  /** The six bytes write the time modulo 2 to the power 48. */
  lemma {:induction false} TimeOfBytes(m: bv64)
    ensures Wrapped(LowBytes(m, 8))
            == Time48(ByteValue(WordByte(m, 5)), ByteValue(WordByte(m, 4)), ByteValue(WordByte(m, 3)),
                      ByteValue(WordByte(m, 2)), ByteValue(WordByte(m, 1)), ByteValue(WordByte(m, 0)))
  {
    UpperBytes(m);
    FirstTimeBytes(m);
    MiddleTimeBytes(m);
    LastTimeBytes(m);
    LastTimeByte(m);
    ByteRange(WordByte(m, 5));
    ByteRange(WordByte(m, 4));
    ByteRange(WordByte(m, 3));
    ByteRange(WordByte(m, 2));
    ByteRange(WordByte(m, 1));
    ByteRange(WordByte(m, 0));
    var high := 0x100 * ByteValue(WordByte(m, 7)) + ByteValue(WordByte(m, 6));
    hide ByteValue, LowBytes, WordByte, Wrapped;
    SplitTime(LowBytes(m, 8), high, ByteValue(WordByte(m, 5)), ByteValue(WordByte(m, 4)), ByteValue(WordByte(m, 3)),
              ByteValue(WordByte(m, 2)), ByteValue(WordByte(m, 1)), ByteValue(WordByte(m, 0)));
  }

  ghost predicate StartsWithTime(value: seq<bv8>, m: bv64) {
    && |value| >= 6
    && value[0] == WordByte(m, 5) && value[1] == WordByte(m, 4) && value[2] == WordByte(m, 3)
    && value[3] == WordByte(m, 2) && value[4] == WordByte(m, 1) && value[5] == WordByte(m, 0)
  }

  lemma SixBytes(b: seq<int>)
    requires |b| >= 6
    ensures Horner(b[..6], 256) == Time48(b[0], b[1], b[2], b[3], b[4], b[5])
  {
    FiveBytes(b, 0);
    HornerStep(b, 5, 256);
    NothingWritten(b);
    hide Horner;
  }

  lemma TimeNumber(m: bv64, value: seq<bv8>)
    requires StartsWithTime(value, m)
    ensures Horner(Bytes(value)[..6], 256) == Wrapped(LowBytes(m, 8))
  {
    hide ByteValue, LowBytes, WordByte, Horner, Wrapped, Time48;
    TimeOfBytes(m);
    SixBytes(Bytes(value));
  }

  lemma NothingWritten(v: seq<int>)
    ensures Horner(v[..0], 256) == 0
  {
  }

  lemma EntropyNumber(value: seq<bv8>, entropy: seq<bv8>)
    requires |value| == 16 && |entropy| == 10 && value[6..] == entropy
    ensures Number(value) == Combined(Horner(Bytes(value)[..6], 256), Number(entropy))
  {
    hide Horner;
    var b, e := Bytes(value), Bytes(entropy);
    forall k | 0 <= k < 10
      ensures b[6 + k] == e[k]
    {
      assert value[6 + k] == entropy[k];
    }
    FiveBytes(b, 6);
    FiveBytes(b, 11);
    FiveBytes(e, 0);
    FiveBytes(e, 5);
    Whole(b, 16);
    Whole(e, 10);
    NothingWritten(e);
  }

  lemma EntropyRange(entropy: seq<bv8>)
    requires |entropy| == 10
    ensures 0 <= Number(entropy) < 0x1_0000_0000_0000_0000_0000
  {
    hide Horner;
    var e := Bytes(entropy);
    forall k | 0 <= k < 10
      ensures 0 <= e[k] < 256
    {
      ByteRange(entropy[k]);
    }
    FiveBytes(e, 0);
    FiveBytes(e, 5);
    Whole(e, 10);
    NothingWritten(e);
  }

  /** An identifier of the given time; the random bytes are a parameter. */
  method NewUlid(millis: bv64, entropy: seq<bv8>) returns (s: string)
    requires |entropy| == 10
    ensures s == Base32(UlidNumber(LowBytes(millis, 8), Number(entropy)), 26)
  {
    hide Base32, Number, LowBytes, StartsWithTime, Horner, Bytes, Wrapped, Combined;
    var value := FillValue(millis, entropy);
    TimeNumber(millis, value);
    EntropyNumber(value, entropy);
    s := EncodeUlid(value);
  }

  lemma WordBytes(m: bv64)
    ensures WordByte(m, 5) == Low8(m >> 40) && WordByte(m, 4) == Low8(m >> 32) && WordByte(m, 3) == Low8(m >> 24)
    ensures WordByte(m, 2) == Low8(m >> 16) && WordByte(m, 1) == Low8(m >> 8) && WordByte(m, 0) == Low8(m)
  {
    hide Low8;
  }

  method FillValue(millis: bv64, entropy: seq<bv8>) returns (r: seq<bv8>)
    requires |entropy| == 10
    ensures |r| == 16 && StartsWithTime(r, millis) && r[6..] == entropy
  {
    WordBytes(millis);
    hide Low8, WordByte;
    var value := new bv8[16](_ => 0);
    value[0] := Low8(millis >> 40);
    value[1] := Low8(millis >> 32);
    value[2] := Low8(millis >> 24);
    value[3] := Low8(millis >> 16);
    value[4] := Low8(millis >> 8);
    value[5] := Low8(millis);
    forall k | 0 <= k < 10 {
      value[6 + k] := entropy[k];
    }
    r := value[..];
  }

  lemma NumberOrder(t: int, u: int, a: int, b: int)
    requires 0 <= a < 0x1_0000_0000_0000_0000_0000 && 0 <= b < 0x1_0000_0000_0000_0000_0000
    ensures Combined(t, a) < Combined(u, b) <==> t < u || (t == u && a < b)
  {
  }

  lemma SmallTimes(t: int, u: int)
    ensures 0 <= t < u < 0x1_0000_0000_0000 ==> Wrapped(t) < Wrapped(u)
  {
  }

  lemma {:induction false} SpanFits(n: int, k: nat, span: int)
    requires 0 <= n < span && span <= Power32(k)
    ensures Fits(n, k)
    decreases k
  {
    if k > 0 {
      SpanFits(n / 32, k - 1, Power32(k - 1));
    }
  }

  function Power32(k: nat): int {
    if k == 0 then 1 else 32 * Power32(k - 1)
  }

  lemma UlidNumberFits(millis: int, entropy: int)
    requires 0 <= entropy < 0x1_0000_0000_0000_0000_0000
    ensures Fits(UlidNumber(millis, entropy), 26)
  {
    assert Power32(5) == 0x200_0000;
    assert Power32(10) == 0x4_0000_0000_0000;
    assert Power32(15) == 0x800_0000_0000_0000_0000;
    assert Power32(20) == 0x10_0000_0000_0000_0000_0000_0000;
    assert Power32(26) == 0x4_0000_0000_0000_0000_0000_0000_0000_0000;
    SpanFits(UlidNumber(millis, entropy), 26, 0x1_0000_0000_0000_0000_0000_0000_0000_0000);
  }

  /** Identifiers sort by their time, and by their entropy within one millisecond, for times on which
      the 48 bits agree with the clock; whatever the clock says they sort by its last 48 bits. */
  lemma IdentifiersSortByTime(t: int, u: int, a: seq<bv8>, b: seq<bv8>)
    requires |a| == |b| == 10
    ensures StringLess(Base32(UlidNumber(t, Number(a)), 26), Base32(UlidNumber(u, Number(b)), 26))
            <==> Wrapped(t) < Wrapped(u) || (Wrapped(t) == Wrapped(u) && Number(a) < Number(b))
    ensures 0 <= t < u < 0x1_0000_0000_0000 ==>
              StringLess(Base32(UlidNumber(t, Number(a)), 26), Base32(UlidNumber(u, Number(b)), 26))
  {
    EntropyRange(a);
    EntropyRange(b);
    UlidNumberFits(t, Number(a));
    UlidNumberFits(u, Number(b));
    NumberOrder(Wrapped(t), Wrapped(u), Number(a), Number(b));
    SmallTimes(t, u);
    hide Base32, Number, Fits, StringLess, Wrapped, Combined;
    Base32Order(UlidNumber(t, Number(a)), UlidNumber(u, Number(b)), 26);
  }
}
