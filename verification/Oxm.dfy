/**
 OXM TLV headers: 16 bits of class, 7 of field, the mask bit and 8 of length, packed by
 shifts and ors on 32 bits.
 */
module Oxm {

  function Header(class_: bv32, field: bv32, hasMask: bv32, length: bv32): bv32 {
    (class_ << 16) | (field << 9) | (hasMask << 8) | length
  }

  function HeaderW(class_: bv32, field: bv32, length: bv32): bv32 {
    Header(class_, field, 1, length * 2)
  }

  function Class(h: bv32): bv32 {
    h >> 16
  }

  function Field(h: bv32): bv32 {
    (h >> 9) & 0x7f
  }

  function Type(h: bv32): bv32 {
    (h >> 9) & 0x7f_ffff
  }

  function HasMask(h: bv32): bv32 {
    (h >> 8) & 1
  }

  function Length(h: bv32): bv32 {
    h & 0xff
  }

  function MakeWild(h: bv32): bv32 {
    HeaderW(Class(h), Field(h), Length(h))
  }

  /** Packing is injective on exactly the parts that fit: the extractors give all four back if
      and only if each is within its width. */
  lemma PackingIff(c: bv32, f: bv32, m: bv32, n: bv32)
    ensures (var h := Header(c, f, m, n); Class(h) == c && Field(h) == f && HasMask(h) == m && Length(h) == n)
       <==> c <= 0xffff && f <= 0x7f && m <= 1 && n <= 0xff
  {
  }

  /** The packed number: class, field, mask bit and length in 16, 7, 1 and 8 bits, from the top. */
  lemma HeaderIsNumber(c: bv32, f: bv32, m: bv32, n: bv32)
    requires c <= 0xffff && f <= 0x7f && m <= 1 && n <= 0xff
    ensures Header(c, f, m, n) == c * 0x1_0000 + f * 0x200 + m * 0x100 + n
    ensures Type(Header(c, f, m, n)) == (c << 7) | f
  {
  }

  lemma WideHeaderIsNumber(c: bv32, f: bv32, n: bv32)
    requires c <= 0xffff && f <= 0x7f && n <= 0x7f
    ensures HeaderW(c, f, n) == c * 0x1_0000 + f * 0x200 + 0x100 + 2 * n
  {
    assert 2 * n <= 0xff;
    HeaderIsNumber(c, f, 1, n * 2);
  }

  /** Every header is the packing of its parts. */
  lemma Unpacked(h: bv32)
    ensures Header(Class(h), Field(h), HasMask(h), Length(h)) == h
  {
  }

  /** The wildcarded header of any header keeps its type and sets the mask bit; its length is
      the double in 8 bits, which is the double exactly when the length is at most 127. A longer
      one spills into the mask bit and nowhere else. */
  lemma WildHeader(h: bv32)
    ensures Type(MakeWild(h)) == Type(h) && HasMask(MakeWild(h)) == 1
    ensures Length(MakeWild(h)) == (Length(h) * 2) & 0xff
    ensures Length(MakeWild(h)) == Length(h) * 2 <==> Length(h) <= 127
  {
  }
}
