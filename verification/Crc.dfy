/** The hash of the store: the CRC-32 of IEEE 802.3, bit by bit. */
module Crc {
  import opened Order
  import opened Shapes

  /** One bit: shift, and reduce by the reversed polynomial. */
  function Bit(c: bv32): bv32 { if c & 1 == 1 then (c >> 1) ^ 0xEDB8_8320 else c >> 1 }

  function Octet(c: bv32, b: byte): bv32 { Bit(Bit(Bit(Bit(Bit(Bit(Bit(Bit(c ^ (b as bv32))))))))) }

  /** The register after these bytes. */
  function Register(key: bytes): bv32 {
    if key == [] then 0xFFFF_FFFF else Octet(Register(key[..|key| - 1]), key[|key| - 1])
  }

  function Crc32(key: bytes): nat { (Register(key) ^ 0xFFFF_FFFF) as nat }

  lemma RegisterSnoc(key: bytes, b: byte)
    ensures Register(key + [b]) == Octet(Register(key), b)
  {
    assert (key + [b])[..|key|] == key;
  }

  /** "qHB+" */
  const SHORT: bytes := [113, 72, 66, 43]

  /** "X4gyM9" */
  const LONG: bytes := [88, 52, 103, 121, 77, 57]

  lemma ShortOctets()
    ensures Octet(0xFFFF_FFFF, 113) == 0x0AFF_51D8 && Octet(0x0AFF_51D8, 72) == 0xF005_6C15
    ensures Octet(0xF005_6C15, 66) == 0xF5FF_C13B && Octet(0xF5FF_C13B, 43) == 0x1D42_EFA5
  {
  }

  lemma LongOctets()
    ensures Octet(0xFFFF_FFFF, 88) == 0x484D_C9B4 && Octet(0x484D_C9B4, 52) == 0xEDF0_CEE9
    ensures Octet(0xEDF0_CEE9, 103) == 0x0AED_5EE9 && Octet(0x0AED_5EE9, 121) == 0xF005_7E1A
    ensures Octet(0xF005_7E1A, 77) == 0xF5FF_C129 && Octet(0xF5FF_C129, 57) == 0x1D42_EFA5
  {
  }

  lemma ShortRegister()
    ensures Register(SHORT) == 0x1D42_EFA5
  {
    ShortOctets();
    hide Octet;
    RegisterSnoc([], 113);
    RegisterSnoc([113], 72);
    RegisterSnoc([113, 72], 66);
    RegisterSnoc([113, 72, 66], 43);
    assert [] + [113] == [113] && [113] + [72] == [113, 72] && [113, 72] + [66] == [113, 72, 66];
    assert [113, 72, 66] + [43] == SHORT;
  }

  lemma LongRegister()
    ensures Register(LONG) == 0x1D42_EFA5
  {
    LongOctets();
    hide Octet;
    RegisterSnoc([], 88);
    RegisterSnoc([88], 52);
    RegisterSnoc([88, 52], 103);
    RegisterSnoc([88, 52, 103], 121);
    RegisterSnoc([88, 52, 103, 121], 77);
    RegisterSnoc([88, 52, 103, 121, 77], 57);
    assert [] + [88] == [88] && [88] + [52] == [88, 52] && [88, 52] + [103] == [88, 52, 103];
    assert [88, 52, 103] + [121] == [88, 52, 103, 121] && [88, 52, 103, 121] + [77] == [88, 52, 103, 121, 77];
    assert [88, 52, 103, 121, 77] + [57] == LONG;
  }

  /** Two keys of different length with one CRC-32, on which the rules disagree: the shorter is first by length, last by bytes. */
  lemma LostKeyExample()
    ensures var lo, hi := Tag(Crc32(SHORT), SHORT), Tag(Crc32(LONG), LONG);
      && lo.hash == hi.hash && Before(LengthFirst, lo, hi) && !Before(BytesFirst, lo, hi)
      && !RulesAgree({lo, hi}) && !Found(Branch(Leaf, lo, Branch(Leaf, hi, Leaf)), hi)
  {
    ShortRegister();
    LongRegister();
    hide Register;
    var lo, hi := Tag(Crc32(SHORT), SHORT), Tag(Crc32(LONG), LONG);
    assert lo.hash == hi.hash;
    hide Crc32;
    assert Before(LengthFirst, lo, hi) && !Before(BytesFirst, lo, hi);
    LostKey(lo, hi);
  }
}
