// CRC-32: the loops over the table of nibbles and the table of bytes, against the division
// bit by bit.

module Crc32 {
  const POLYNOMIAL: bv32 := 0xedb88320

  const TABLE16: seq<bv32> := [
    0x00000000, 0x1db71064, 0x3b6e20c8, 0x26d930ac, 0x76dc4190, 0x6b6b51f4, 0x4db26158, 0x5005713c,
    0xedb88320, 0xf00f9344, 0xd6d6a3e8, 0xcb61b38c, 0x9b64c2b0, 0x86d3d2d4, 0xa00ae278, 0xbdbdf21c
  ]

  // The 256 entries, sixteen to a row.
  const ROW0: seq<bv32> := [
    0x00000000, 0x77073096, 0xee0e612c, 0x990951ba, 0x076dc419, 0x706af48f, 0xe963a535, 0x9e6495a3,
    0x0edb8832, 0x79dcb8a4, 0xe0d5e91e, 0x97d2d988, 0x09b64c2b, 0x7eb17cbd, 0xe7b82d07, 0x90bf1d91
  ]

  const ROW1: seq<bv32> := [
    0x1db71064, 0x6ab020f2, 0xf3b97148, 0x84be41de, 0x1adad47d, 0x6ddde4eb, 0xf4d4b551, 0x83d385c7,
    0x136c9856, 0x646ba8c0, 0xfd62f97a, 0x8a65c9ec, 0x14015c4f, 0x63066cd9, 0xfa0f3d63, 0x8d080df5
  ]

  const ROW2: seq<bv32> := [
    0x3b6e20c8, 0x4c69105e, 0xd56041e4, 0xa2677172, 0x3c03e4d1, 0x4b04d447, 0xd20d85fd, 0xa50ab56b,
    0x35b5a8fa, 0x42b2986c, 0xdbbbc9d6, 0xacbcf940, 0x32d86ce3, 0x45df5c75, 0xdcd60dcf, 0xabd13d59
  ]

  const ROW3: seq<bv32> := [
    0x26d930ac, 0x51de003a, 0xc8d75180, 0xbfd06116, 0x21b4f4b5, 0x56b3c423, 0xcfba9599, 0xb8bda50f,
    0x2802b89e, 0x5f058808, 0xc60cd9b2, 0xb10be924, 0x2f6f7c87, 0x58684c11, 0xc1611dab, 0xb6662d3d
  ]

  const ROW4: seq<bv32> := [
    0x76dc4190, 0x01db7106, 0x98d220bc, 0xefd5102a, 0x71b18589, 0x06b6b51f, 0x9fbfe4a5, 0xe8b8d433,
    0x7807c9a2, 0x0f00f934, 0x9609a88e, 0xe10e9818, 0x7f6a0dbb, 0x086d3d2d, 0x91646c97, 0xe6635c01
  ]

  const ROW5: seq<bv32> := [
    0x6b6b51f4, 0x1c6c6162, 0x856530d8, 0xf262004e, 0x6c0695ed, 0x1b01a57b, 0x8208f4c1, 0xf50fc457,
    0x65b0d9c6, 0x12b7e950, 0x8bbeb8ea, 0xfcb9887c, 0x62dd1ddf, 0x15da2d49, 0x8cd37cf3, 0xfbd44c65
  ]

  const ROW6: seq<bv32> := [
    0x4db26158, 0x3ab551ce, 0xa3bc0074, 0xd4bb30e2, 0x4adfa541, 0x3dd895d7, 0xa4d1c46d, 0xd3d6f4fb,
    0x4369e96a, 0x346ed9fc, 0xad678846, 0xda60b8d0, 0x44042d73, 0x33031de5, 0xaa0a4c5f, 0xdd0d7cc9
  ]

  const ROW7: seq<bv32> := [
    0x5005713c, 0x270241aa, 0xbe0b1010, 0xc90c2086, 0x5768b525, 0x206f85b3, 0xb966d409, 0xce61e49f,
    0x5edef90e, 0x29d9c998, 0xb0d09822, 0xc7d7a8b4, 0x59b33d17, 0x2eb40d81, 0xb7bd5c3b, 0xc0ba6cad
  ]

  const ROW8: seq<bv32> := [
    0xedb88320, 0x9abfb3b6, 0x03b6e20c, 0x74b1d29a, 0xead54739, 0x9dd277af, 0x04db2615, 0x73dc1683,
    0xe3630b12, 0x94643b84, 0x0d6d6a3e, 0x7a6a5aa8, 0xe40ecf0b, 0x9309ff9d, 0x0a00ae27, 0x7d079eb1
  ]

  const ROW9: seq<bv32> := [
    0xf00f9344, 0x8708a3d2, 0x1e01f268, 0x6906c2fe, 0xf762575d, 0x806567cb, 0x196c3671, 0x6e6b06e7,
    0xfed41b76, 0x89d32be0, 0x10da7a5a, 0x67dd4acc, 0xf9b9df6f, 0x8ebeeff9, 0x17b7be43, 0x60b08ed5
  ]

  const ROW10: seq<bv32> := [
    0xd6d6a3e8, 0xa1d1937e, 0x38d8c2c4, 0x4fdff252, 0xd1bb67f1, 0xa6bc5767, 0x3fb506dd, 0x48b2364b,
    0xd80d2bda, 0xaf0a1b4c, 0x36034af6, 0x41047a60, 0xdf60efc3, 0xa867df55, 0x316e8eef, 0x4669be79
  ]

  const ROW11: seq<bv32> := [
    0xcb61b38c, 0xbc66831a, 0x256fd2a0, 0x5268e236, 0xcc0c7795, 0xbb0b4703, 0x220216b9, 0x5505262f,
    0xc5ba3bbe, 0xb2bd0b28, 0x2bb45a92, 0x5cb36a04, 0xc2d7ffa7, 0xb5d0cf31, 0x2cd99e8b, 0x5bdeae1d
  ]

  const ROW12: seq<bv32> := [
    0x9b64c2b0, 0xec63f226, 0x756aa39c, 0x026d930a, 0x9c0906a9, 0xeb0e363f, 0x72076785, 0x05005713,
    0x95bf4a82, 0xe2b87a14, 0x7bb12bae, 0x0cb61b38, 0x92d28e9b, 0xe5d5be0d, 0x7cdcefb7, 0x0bdbdf21
  ]

  const ROW13: seq<bv32> := [
    0x86d3d2d4, 0xf1d4e242, 0x68ddb3f8, 0x1fda836e, 0x81be16cd, 0xf6b9265b, 0x6fb077e1, 0x18b74777,
    0x88085ae6, 0xff0f6a70, 0x66063bca, 0x11010b5c, 0x8f659eff, 0xf862ae69, 0x616bffd3, 0x166ccf45
  ]

  const ROW14: seq<bv32> := [
    0xa00ae278, 0xd70dd2ee, 0x4e048354, 0x3903b3c2, 0xa7672661, 0xd06016f7, 0x4969474d, 0x3e6e77db,
    0xaed16a4a, 0xd9d65adc, 0x40df0b66, 0x37d83bf0, 0xa9bcae53, 0xdebb9ec5, 0x47b2cf7f, 0x30b5ffe9
  ]

  const ROW15: seq<bv32> := [
    0xbdbdf21c, 0xcabac28a, 0x53b39330, 0x24b4a3a6, 0xbad03605, 0xcdd70693, 0x54de5729, 0x23d967bf,
    0xb3667a2e, 0xc4614ab8, 0x5d681b02, 0x2a6f2b94, 0xb40bbe37, 0xc30c8ea1, 0x5a05df1b, 0x2d02ef8d
  ]

  const TABLE256: seq<seq<bv32>> := [
    ROW0, ROW1, ROW2, ROW3, ROW4, ROW5, ROW6, ROW7, ROW8, ROW9, ROW10, ROW11, ROW12, ROW13, ROW14, ROW15
  ]

  // -------- words --------

  function Xor(a: bv32, b: bv32): bv32 {
    a ^ b
  }

  // c & 0xf and c & 0xff
  function Nibble(c: bv32): bv32 {
    c & 0xf
  }

  function Byte(c: bv32): bv32 {
    c & 0xff
  }

  // c >> 4 and c >> 8
  function Down4(c: bv32): bv32 {
    c >> 4
  }

  function Down8(c: bv32): bv32 {
    c >> 8
  }

  function Wide(b: bv8): bv32 {
    b as bv32
  }

  // -------- one bit at a time --------

  function Shift(c: bv32): bv32 {
    if c & 1 == 1 then (c >> 1) ^ POLYNOMIAL else c >> 1
  }

  function Shift4(c: bv32): bv32 {
    Shift(Shift(Shift(Shift(c))))
  }

  function Shift8(c: bv32): bv32 {
    Shift4(Shift4(c))
  }

  // The remainder after the bytes, one bit at a time.
  function Divide(crc: bv32, s: seq<bv8>): bv32
    decreases |s|
  {
    if s == [] then crc else Divide(Shift8(Xor(crc, Wide(s[0]))), s[1..])
  }

  // Two pieces one after the other are divided like the whole.
  lemma {:induction false} DivideAppend(crc: bv32, s: seq<bv8>, t: seq<bv8>)
    ensures Divide(crc, s + t) == Divide(Divide(crc, s), t)
    decreases |s|
  {
    hide Shift8, Xor, Wide;
    if s == [] {
      assert s + t == t;
    } else {
      assert (s + t)[1..] == s[1..] + t;
      DivideAppend(Shift8(Xor(crc, Wide(s[0]))), s[1..], t);
    }
  }

  lemma DivideSnoc(crc: bv32, s: seq<bv8>, b: bv8)
    ensures Divide(crc, s + [b]) == Shift8(Xor(Divide(crc, s), Wide(b)))
  {
    hide Shift8, Xor, Wide;
    DivideAppend(crc, s, [b]);
  }

  lemma DivideNone(crc: bv32)
    ensures Divide(crc, []) == crc
  {
  }

  // -------- the tables --------

  function Index(x: bv32): (i: nat)
    requires x < 16
    ensures i < 16
  {
    x as int
  }

  lemma Sixteen(i: bv32)
    requires i < 16
    ensures i == 0 || i == 1 || i == 2 || i == 3 || i == 4 || i == 5 || i == 6 || i == 7 ||
            i == 8 || i == 9 || i == 10 || i == 11 || i == 12 || i == 13 || i == 14 || i == 15
  {
  }

  // The small table holds the remainders of the nibbles, the large one those of the bytes.
  lemma Nibbles(i: bv32)
    requires i < 16
    ensures TABLE16[Index(i)] == Shift4(i)
  {
    Sixteen(i);
  }

  lemma Row0(i: bv32)
    requires i < 16
    ensures ROW0[Index(i)] == Shift8(0 ^ i)
  {
    Sixteen(i);
  }

  lemma Row1(i: bv32)
    requires i < 16
    ensures ROW1[Index(i)] == Shift8(16 ^ i)
  {
    Sixteen(i);
  }

  lemma Row2(i: bv32)
    requires i < 16
    ensures ROW2[Index(i)] == Shift8(32 ^ i)
  {
    Sixteen(i);
  }

  lemma Row3(i: bv32)
    requires i < 16
    ensures ROW3[Index(i)] == Shift8(48 ^ i)
  {
    Sixteen(i);
  }

  lemma Row4(i: bv32)
    requires i < 16
    ensures ROW4[Index(i)] == Shift8(64 ^ i)
  {
    Sixteen(i);
  }

  lemma Row5(i: bv32)
    requires i < 16
    ensures ROW5[Index(i)] == Shift8(80 ^ i)
  {
    Sixteen(i);
  }

  lemma Row6(i: bv32)
    requires i < 16
    ensures ROW6[Index(i)] == Shift8(96 ^ i)
  {
    Sixteen(i);
  }

  lemma Row7(i: bv32)
    requires i < 16
    ensures ROW7[Index(i)] == Shift8(112 ^ i)
  {
    Sixteen(i);
  }

  lemma Row8(i: bv32)
    requires i < 16
    ensures ROW8[Index(i)] == Shift8(128 ^ i)
  {
    Sixteen(i);
  }

  lemma Row9(i: bv32)
    requires i < 16
    ensures ROW9[Index(i)] == Shift8(144 ^ i)
  {
    Sixteen(i);
  }

  lemma Row10(i: bv32)
    requires i < 16
    ensures ROW10[Index(i)] == Shift8(160 ^ i)
  {
    Sixteen(i);
  }

  lemma Row11(i: bv32)
    requires i < 16
    ensures ROW11[Index(i)] == Shift8(176 ^ i)
  {
    Sixteen(i);
  }

  lemma Row12(i: bv32)
    requires i < 16
    ensures ROW12[Index(i)] == Shift8(192 ^ i)
  {
    Sixteen(i);
  }

  lemma Row13(i: bv32)
    requires i < 16
    ensures ROW13[Index(i)] == Shift8(208 ^ i)
  {
    Sixteen(i);
  }

  lemma Row14(i: bv32)
    requires i < 16
    ensures ROW14[Index(i)] == Shift8(224 ^ i)
  {
    Sixteen(i);
  }

  lemma Row15(i: bv32)
    requires i < 16
    ensures ROW15[Index(i)] == Shift8(240 ^ i)
  {
    Sixteen(i);
  }

  lemma Halves(x: bv32)
    requires x < 256
    ensures Down4(x) < 16 && Nibble(x) < 16 && x == (Down4(x) << 4) ^ Nibble(x)
  {
  }

  // ngx_crc32_table256[x]
  function Entry(x: bv32): bv32
    requires x < 256
  {
    Halves(x);
    TABLE256[Index(Down4(x))][Index(Nibble(x))]
  }

  lemma AnyRow(r: bv32, i: bv32)
    requires r < 16 && i < 16
    ensures TABLE256[Index(r)][Index(i)] == Shift8((r << 4) ^ i)
  {
    hide Shift8;
    Sixteen(r);
    if r == 0 {
      Row0(i);
    } else if r == 1 {
      Row1(i);
    } else if r == 2 {
      Row2(i);
    } else if r == 3 {
      Row3(i);
    } else if r == 4 {
      Row4(i);
    } else if r == 5 {
      Row5(i);
    } else if r == 6 {
      Row6(i);
    } else if r == 7 {
      Row7(i);
    } else if r == 8 {
      Row8(i);
    } else if r == 9 {
      Row9(i);
    } else if r == 10 {
      Row10(i);
    } else if r == 11 {
      Row11(i);
    } else if r == 12 {
      Row12(i);
    } else if r == 13 {
      Row13(i);
    } else if r == 14 {
      Row14(i);
    } else {
      Row15(i);
    }
  }

  lemma Bytes(x: bv32)
    requires x < 256
    ensures Entry(x) == Shift8(x)
  {
    hide Shift8, Nibble, Down4, Index;
    Halves(x);
    AnyRow(Down4(x), Nibble(x));
  }

  // -------- shifting by more than one bit --------

  lemma LowNibble(c: bv32)
    ensures Shift4(c) == Xor(Shift4(Nibble(c)), Down4(c))
  {
  }

  lemma Associative(a: bv32, b: bv32, c: bv32)
    ensures Xor(a, Xor(b, c)) == Xor(Xor(a, b), c)
  {
  }

  lemma Above(x: bv32, h: bv32)
    requires Nibble(h) == 0
    ensures Nibble(Xor(x, h)) == Nibble(x) && Down4(Xor(x, h)) == Xor(Down4(x), Down4(h))
  {
  }

  // Bits above the lowest four just move down.
  lemma HighBits(x: bv32, h: bv32)
    requires Nibble(h) == 0
    ensures Shift4(Xor(x, h)) == Xor(Shift4(x), Down4(h))
  {
    hide *;
    LowNibble(Xor(x, h));
    LowNibble(x);
    Above(x, h);
    Associative(Shift4(Nibble(x)), Down4(x), Down4(h));
  }

  function AboveByte(c: bv32): bv32 {
    c & 0xffff_ff00
  }

  lemma ByteParts(c: bv32)
    ensures c == Xor(Byte(c), AboveByte(c))
  {
  }

  lemma ByteShifted(c: bv32)
    ensures Nibble(AboveByte(c)) == 0 && Nibble(Down4(AboveByte(c))) == 0
    ensures Down4(Down4(AboveByte(c))) == Down8(c)
  {
  }

  lemma LowByte(c: bv32)
    ensures Shift8(c) == Xor(Shift8(Byte(c)), Down8(c))
  {
    hide Shift4, Xor, Byte, AboveByte, Nibble, Down4, Down8;
    ByteParts(c);
    ByteShifted(c);
    HighBits(Byte(c), AboveByte(c));
    HighBits(Shift4(Byte(c)), Down4(AboveByte(c)));
  }

  function AboveNibble(c: bv32): bv32 {
    c & 0xf0
  }

  lemma NibbleParts(crc: bv32, c: bv32)
    requires c < 256
    ensures Xor(crc, c) == Xor(Xor(crc, Nibble(c)), AboveNibble(c)) && Nibble(AboveNibble(c)) == 0
    ensures Down4(AboveNibble(c)) == Down4(c)
  {
  }

  // Both nibbles of a byte, one after the other, are the byte.
  lemma TwoNibbles(crc: bv32, c: bv32)
    requires c < 256
    ensures Shift4(Xor(Shift4(Xor(crc, Nibble(c))), Down4(c))) == Shift8(Xor(crc, c))
  {
    hide Shift4, Xor, AboveNibble, Nibble, Down4;
    NibbleParts(crc, c);
    HighBits(Xor(crc, Nibble(c)), AboveNibble(c));
  }

  // -------- the loops --------

  lemma NibbleBound(x: bv32)
    ensures Nibble(x) < 16
  {
  }

  lemma ByteBound(x: bv32)
    ensures Byte(x) < 256
  {
  }

  lemma InNibble(crc: bv32, x: bv32)
    requires x < 16
    ensures Down4(Xor(crc, x)) == Down4(crc)
  {
    assert Down4(x) == 0;
  }

  lemma InByte(crc: bv32, x: bv32)
    requires x < 256
    ensures Down8(Xor(crc, x)) == Down8(crc)
  {
    assert Down8(x) == 0;
  }

  // One nibble through the small table.
  function NibbleStep(crc: bv32, x: bv32): bv32 {
    NibbleBound(Xor(crc, x));
    Xor(TABLE16[Index(Nibble(Xor(crc, x)))], Down4(crc))
  }

  lemma NibbleShifts(crc: bv32, x: bv32)
    requires x < 16
    ensures NibbleStep(crc, x) == Shift4(Xor(crc, x))
  {
    hide Shift4, Index, Xor, Nibble, Down4, Down8, Byte;
    InNibble(crc, x);
    NibbleBound(Xor(crc, x));
    Nibbles(Nibble(Xor(crc, x)));
    LowNibble(Xor(crc, x));
  }

  // One byte through the large table.
  function ByteStep(crc: bv32, x: bv32): bv32 {
    ByteBound(Xor(crc, x));
    Xor(Entry(Byte(Xor(crc, x))), Down8(crc))
  }

  lemma ByteShifts(crc: bv32, x: bv32)
    requires x < 256
    ensures ByteStep(crc, x) == Shift8(Xor(crc, x))
  {
    hide Shift8, Entry, Xor, Nibble, Down4, Down8, Byte;
    InByte(crc, x);
    ByteBound(Xor(crc, x));
    Bytes(Byte(Xor(crc, x)));
    LowByte(Xor(crc, x));
  }

  lemma WideBound(b: bv8)
    ensures Wide(b) < 256 && Nibble(Wide(b)) < 16 && Down4(Wide(b)) < 16
  {
  }

  lemma NibblesDivide(crc: bv32, b: bv8)
    ensures NibbleStep(NibbleStep(crc, Nibble(Wide(b))), Down4(Wide(b))) == Shift8(Xor(crc, Wide(b)))
  {
    hide *;
    var c := Wide(b);
    WideBound(b);
    NibbleShifts(crc, Nibble(c));
    NibbleShifts(NibbleStep(crc, Nibble(c)), Down4(c));
    TwoNibbles(crc, c);
  }

  // ngx_crc32_short
  method Short(p: seq<bv8>) returns (r: bv32)
    ensures r == Xor(Divide(0xffff_ffff, p), 0xffff_ffff)
  {
    hide Shift8, Divide, NibbleStep, Xor, Nibble, Down4, Wide;
    var crc: bv32 := 0xffff_ffff;
    DivideNone(crc);
    var i := 0;
    while i < |p|
      invariant i <= |p| && crc == Divide(0xffff_ffff, p[..i])
    {
      var c := Wide(p[i]);
      DivideSnoc(0xffff_ffff, p[..i], p[i]);
      NibblesDivide(crc, p[i]);
      assert p[..i + 1] == p[..i] + [p[i]];
      crc := NibbleStep(crc, Nibble(c));
      crc := NibbleStep(crc, Down4(c));
      i := i + 1;
    }
    assert p[..i] == p;
    r := Xor(crc, 0xffff_ffff);
  }

  // ngx_crc32_long
  method Long(p: seq<bv8>) returns (r: bv32)
    ensures r == Xor(Divide(0xffff_ffff, p), 0xffff_ffff)
  {
    var crc := Update(0xffff_ffff, p);
    r := Xor(crc, 0xffff_ffff);
  }

  // ngx_crc32_update
  method Update(crc0: bv32, p: seq<bv8>) returns (crc: bv32)
    ensures crc == Divide(crc0, p)
  {
    hide Shift8, Divide, ByteStep, Xor, Wide;
    crc := crc0;
    DivideNone(crc);
    var i := 0;
    while i < |p|
      invariant i <= |p| && crc == Divide(crc0, p[..i])
    {
      WideBound(p[i]);
      ByteShifts(crc, Wide(p[i]));
      DivideSnoc(crc0, p[..i], p[i]);
      assert p[..i + 1] == p[..i] + [p[i]];
      crc := ByteStep(crc, Wide(p[i]));
      i := i + 1;
    }
    assert p[..i] == p;
  }

  // However the bytes are cut in pieces, init, updates and final give what both other
  // functions give for the whole.
  method Pieces(ps: seq<seq<bv8>>) returns (r: bv32)
    ensures r == Xor(Divide(0xffff_ffff, Joined(ps)), 0xffff_ffff)
  {
    hide Divide, Xor;
    var crc: bv32 := 0xffff_ffff;
    DivideNone(crc);
    var i := 0;
    while i < |ps|
      invariant i <= |ps| && crc == Divide(0xffff_ffff, Joined(ps[..i]))
    {
      assert ps[..i + 1][..i] == ps[..i];
      DivideAppend(0xffff_ffff, Joined(ps[..i]), ps[i]);
      crc := Update(crc, ps[i]);
      i := i + 1;
    }
    assert ps[..i] == ps;
    r := Xor(crc, 0xffff_ffff);
  }

  function Joined(ps: seq<seq<bv8>>): seq<bv8> {
    if ps == [] then [] else Joined(ps[..|ps| - 1]) + ps[|ps| - 1]
  }

  // The check value of this CRC: the one of the digits from 1 to 9
  lemma CheckValue()
    ensures Xor(Divide(0xffff_ffff, [0x31, 0x32, 0x33, 0x34, 0x35, 0x36, 0x37, 0x38, 0x39]), 0xffff_ffff) == 0xcbf4_3926
  {
    hide Divide;
    DivideNone(0xffff_ffff);
    var s, crc: bv32 := [], 0xffff_ffff;
    s, crc := Digit(s, crc, 0x31, 0x7c231048);
    s, crc := Digit(s, crc, 0x32, 0xb0acbb32);
    s, crc := Digit(s, crc, 0x33, 0x77b79c2d);
    s, crc := Digit(s, crc, 0x34, 0x641c1f5c);
    s, crc := Digit(s, crc, 0x35, 0x340ac5e3);
    s, crc := Digit(s, crc, 0x36, 0xf68d2c9e);
    s, crc := Digit(s, crc, 0x37, 0xaffc9660);
    s, crc := Digit(s, crc, 0x38, 0x651f2550);
    s, crc := Digit(s, crc, 0x39, 0x340bc6d9);
    assert s == [0x31, 0x32, 0x33, 0x34, 0x35, 0x36, 0x37, 0x38, 0x39];
  }

  lemma Digit(s: seq<bv8>, crc: bv32, b: bv8, r: bv32) returns (s': seq<bv8>, crc': bv32)
    requires Divide(0xffff_ffff, s) == crc && Shift8(Xor(crc, Wide(b))) == r
    ensures s' == s + [b] && crc' == r && Divide(0xffff_ffff, s') == crc'
  {
    hide Divide, Shift8, Xor, Wide;
    s', crc' := s + [b], r;
    DivideSnoc(0xffff_ffff, s, b);
  }
}
