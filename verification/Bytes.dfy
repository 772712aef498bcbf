/**
 Unsigned machine integers and their big-endian ("network order") byte forms.
 */
module Bytes {

  type u8 = x: int | 0 <= x < 0x100
  type u16 = x: int | 0 <= x < 0x1_0000
  type u32 = x: int | 0 <= x < 0x1_0000_0000
  type u64 = x: int | 0 <= x < 0x1_0000_0000_0000_0000

  type Bytes = seq<u8>

  const TWO32: int := 0x1_0000_0000
  const TWO64: int := 0x1_0000_0000_0000_0000

  function Be16(v: u16): (b: Bytes)
    ensures |b| == 2 && U16At(b, 0) == v
  {
    [v / 0x100, v % 0x100]
  }

  function Be32(v: u32): (b: Bytes)
    ensures |b| == 4 && U32At(b, 0) == v
  {
    Be16(v / 0x1_0000) + Be16(v % 0x1_0000)
  }

  function Be64(v: u64): (b: Bytes)
    ensures |b| == 8 && U64At(b, 0) == v
  {
    Be32(v / 0x1_0000_0000) + Be32(v % 0x1_0000_0000)
  }

  function U16At(b: Bytes, i: nat): (v: u16)
    requires i + 2 <= |b|
  {
    (b[i] as int) * 0x100 + b[i + 1]
  }

  function U32At(b: Bytes, i: nat): (v: u32)
    requires i + 4 <= |b|
  {
    (U16At(b, i) as int) * 0x1_0000 + U16At(b, i + 2)
  }

  function U64At(b: Bytes, i: nat): (v: u64)
    requires i + 8 <= |b|
  {
    (U32At(b, i) as int) * 0x1_0000_0000 + U32At(b, i + 4)
  }

  /** Reading an integer and writing it back gives the same bytes. */
  lemma Be16OfU16At(b: Bytes, i: nat)
    requires i + 2 <= |b|
    ensures Be16(U16At(b, i)) == b[i..i + 2]
  {
    assert U16At(b, i) / 0x100 == b[i] && U16At(b, i) % 0x100 == b[i + 1];
  }

  lemma Be32OfU32At(b: Bytes, i: nat)
    requires i + 4 <= |b|
    ensures Be32(U32At(b, i)) == b[i..i + 4]
  {
    Be16OfU16At(b, i);
    Be16OfU16At(b, i + 2);
    var h: int, l: int := U16At(b, i), U16At(b, i + 2);
    assert (h * 0x1_0000 + l) / 0x1_0000 == h && (h * 0x1_0000 + l) % 0x1_0000 == l;
    assert b[i..i + 4] == b[i..i + 2] + b[i + 2..i + 4];
  }

  lemma Be64OfU64At(b: Bytes, i: nat)
    requires i + 8 <= |b|
    ensures Be64(U64At(b, i)) == b[i..i + 8]
  {
    Be32OfU32At(b, i);
    Be32OfU32At(b, i + 4);
    var h: int, l: int := U32At(b, i), U32At(b, i + 4);
    assert (h * TWO32 + l) / TWO32 == h && (h * TWO32 + l) % TWO32 == l;
    assert b[i..i + 8] == b[i..i + 4] + b[i + 4..i + 8];
  }

  /** Network order, byte by byte: the most significant digit to the base 256 comes first. */
  lemma BeDigits(v: u64)
    ensures v < 0x1_0000 ==> Be16(v) == [v / 0x100, v % 0x100]
    ensures v < TWO32 ==>
              Be32(v) == [v / 0x100_0000, v / 0x1_0000 % 0x100, v / 0x100 % 0x100, v % 0x100]
    ensures Be64(v) == [v / 0x100_0000_0000_0000, v / 0x1_0000_0000_0000 % 0x100,
                        v / 0x100_0000_0000 % 0x100, v / 0x1_0000_0000 % 0x100,
                        v / 0x100_0000 % 0x100, v / 0x1_0000 % 0x100, v / 0x100 % 0x100, v % 0x100]
  {
    if v < TWO32 {
      Be32Digits(v);
    }
    var h: u32, l: u32 := v / TWO32, v % TWO32;
    Be32Digits(h);
    Be32Digits(l);
    HighDigits(h, l, v);
    Digit24(h, l, v);
    Digit16(h, l, v);
    Digit8(h, l, v);
    LowDigit(h * 0x100_0000, l, v);
  }

  lemma Be32Digits(v: u32)
    ensures Be32(v) == [v / 0x100_0000, v / 0x1_0000 % 0x100, v / 0x100 % 0x100, v % 0x100]
  {
    var h, l := v / 0x1_0000, v % 0x1_0000;
    assert h / 0x100 == v / 0x100_0000;
    assert v / 0x100 == h * 0x100 + l / 0x100;
    assert v == (h * 0x100 + l / 0x100) * 0x100 + l % 0x100;
  }

  lemma HighDigits(h: int, l: int, v: int)
    requires 0 <= l < TWO32 && v == h * TWO32 + l
    ensures h / 0x100_0000 == v / 0x100_0000_0000_0000
    ensures h / 0x1_0000 == v / 0x1_0000_0000_0000
    ensures h / 0x100 == v / 0x100_0000_0000
  {
  }

  lemma Digit24(h: int, l: int, v: int)
    requires 0 <= l < TWO32 && v == h * TWO32 + l
    ensures l / 0x100_0000 == v / 0x100_0000 % 0x100
  {
    assert v / 0x100_0000 == h * 0x100 + l / 0x100_0000;
    LowDigit(h, l / 0x100_0000, v / 0x100_0000);
  }

  lemma Digit16(h: int, l: int, v: int)
    requires 0 <= l < TWO32 && v == h * TWO32 + l
    ensures l / 0x1_0000 % 0x100 == v / 0x1_0000 % 0x100
  {
    assert v / 0x1_0000 == h * 0x1_0000 + l / 0x1_0000;
    LowDigit(h * 0x100, l / 0x1_0000, v / 0x1_0000);
  }

  lemma Digit8(h: int, l: int, v: int)
    requires 0 <= l < TWO32 && v == h * TWO32 + l
    ensures l / 0x100 % 0x100 == v / 0x100 % 0x100
  {
    assert v / 0x100 == h * 0x100_0000 + l / 0x100;
    LowDigit(h * 0x1_0000, l / 0x100, v / 0x100);
  }

  lemma LowDigit(high: int, low: int, v: int)
    requires v == high * 0x100 + low
    ensures v % 0x100 == low % 0x100
  {
  }
}
