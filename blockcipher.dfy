/**
 * Block ciphers of the firmware (abby/firmware/blockcipher.py): the list of
 * ciphers with their input lengths, and the Python reference of the first
 * AES round of the byte-masked AES, which has to agree with the masked
 * implementation whatever the masks are.
 *
 * Bytes are `bv8`, so `^` is the XOR of Python's `int` on bytes. The
 * finite-field operations follow FIPS-197: xtime in section 4.2.1,
 * multiplication in section 4.2, MixColumns in section 5.1.3, the S-box
 * table of section 5.1.1.
 */
module BlockCipher {
  import opened Common

  // ---------------------------------------------------------------------
  // The ciphers the firmware can be built with.
  // ---------------------------------------------------------------------

  /** `GeneratedCode` also carries the generator's seed and instruction count. */
  datatype Kind = Primitive | Generated(seed: Option<int>, count: nat)

  /** A block cipher of the firmware; all lengths in bytes. */
  datatype Cipher = Cipher(name: string, keyLength: nat, ivLength: nat, maskLength: nat, msgLength: nat, kind: Kind)

  /** `get_input_length`: the bytes sent after the start byte. */
  function InputLength(c: Cipher): nat
  {
    c.keyLength + c.ivLength + c.maskLength + c.msgLength
  }

  const ByteMaskedAes := Cipher("byte-masked-aes", 16, 0, 10, 16, Primitive)
  const ChaCha8 := Cipher("chacha8", 32, 8, 0, 8, Primitive)
  const ChaCha20 := Cipher("chacha20", 32, 8, 0, 8, Primitive)
  const Rabbit := Cipher("rabbit", 16, 8, 0, 2, Primitive)
  const Salsa20 := Cipher("salsa20", 32, 8, 0, 8, Primitive)
  const Sosemanuk := Cipher("sosemanuk", 32, 16, 0, 10, Primitive)
  const TinyAes := Cipher("tinyaes", 16, 0, 0, 16, Primitive)
  const Xoodoo := Cipher("xoodoo", 16, 0, 48, 16, Primitive)
  const GeneratedCode := Cipher("generated-code", 0, 0, 0, 16, Generated(None, 1000))

  /** `blockciphers`, in the order of the list. */
  const Blockciphers: seq<Cipher> :=
    [ByteMaskedAes, ChaCha8, ChaCha20, Rabbit, Salsa20, Sosemanuk, TinyAes, Xoodoo, GeneratedCode]

  /** No two ciphers of the list share a name, so a name selects at most one. */
  lemma NamesDistinct()
    ensures forall i, j :: 0 <= i < j < |Blockciphers| ==> Blockciphers[i].name != Blockciphers[j].name
  {
  }

  /** The byte-masked AES takes 16 key, 10 mask and 16 message bytes: 42 in all. */
  lemma ByteMaskedAesInputLength()
    ensures InputLength(ByteMaskedAes) == 42
  {
  }

  // ---------------------------------------------------------------------
  // Tables of the byte-masked AES and their FIPS-197 meaning.
  // ---------------------------------------------------------------------

  const SboxRows: seq<seq<byte>> :=
    [
      [0x63, 0x7c, 0x77, 0x7b, 0xf2, 0x6b, 0x6f, 0xc5, 0x30, 0x01, 0x67, 0x2b, 0xfe, 0xd7, 0xab, 0x76],
      [0xca, 0x82, 0xc9, 0x7d, 0xfa, 0x59, 0x47, 0xf0, 0xad, 0xd4, 0xa2, 0xaf, 0x9c, 0xa4, 0x72, 0xc0],
      [0xb7, 0xfd, 0x93, 0x26, 0x36, 0x3f, 0xf7, 0xcc, 0x34, 0xa5, 0xe5, 0xf1, 0x71, 0xd8, 0x31, 0x15],
      [0x04, 0xc7, 0x23, 0xc3, 0x18, 0x96, 0x05, 0x9a, 0x07, 0x12, 0x80, 0xe2, 0xeb, 0x27, 0xb2, 0x75],
      [0x09, 0x83, 0x2c, 0x1a, 0x1b, 0x6e, 0x5a, 0xa0, 0x52, 0x3b, 0xd6, 0xb3, 0x29, 0xe3, 0x2f, 0x84],
      [0x53, 0xd1, 0x00, 0xed, 0x20, 0xfc, 0xb1, 0x5b, 0x6a, 0xcb, 0xbe, 0x39, 0x4a, 0x4c, 0x58, 0xcf],
      [0xd0, 0xef, 0xaa, 0xfb, 0x43, 0x4d, 0x33, 0x85, 0x45, 0xf9, 0x02, 0x7f, 0x50, 0x3c, 0x9f, 0xa8],
      [0x51, 0xa3, 0x40, 0x8f, 0x92, 0x9d, 0x38, 0xf5, 0xbc, 0xb6, 0xda, 0x21, 0x10, 0xff, 0xf3, 0xd2],
      [0xcd, 0x0c, 0x13, 0xec, 0x5f, 0x97, 0x44, 0x17, 0xc4, 0xa7, 0x7e, 0x3d, 0x64, 0x5d, 0x19, 0x73],
      [0x60, 0x81, 0x4f, 0xdc, 0x22, 0x2a, 0x90, 0x88, 0x46, 0xee, 0xb8, 0x14, 0xde, 0x5e, 0x0b, 0xdb],
      [0xe0, 0x32, 0x3a, 0x0a, 0x49, 0x06, 0x24, 0x5c, 0xc2, 0xd3, 0xac, 0x62, 0x91, 0x95, 0xe4, 0x79],
      [0xe7, 0xc8, 0x37, 0x6d, 0x8d, 0xd5, 0x4e, 0xa9, 0x6c, 0x56, 0xf4, 0xea, 0x65, 0x7a, 0xae, 0x08],
      [0xba, 0x78, 0x25, 0x2e, 0x1c, 0xa6, 0xb4, 0xc6, 0xe8, 0xdd, 0x74, 0x1f, 0x4b, 0xbd, 0x8b, 0x8a],
      [0x70, 0x3e, 0xb5, 0x66, 0x48, 0x03, 0xf6, 0x0e, 0x61, 0x35, 0x57, 0xb9, 0x86, 0xc1, 0x1d, 0x9e],
      [0xe1, 0xf8, 0x98, 0x11, 0x69, 0xd9, 0x8e, 0x94, 0x9b, 0x1e, 0x87, 0xe9, 0xce, 0x55, 0x28, 0xdf],
      [0x8c, 0xa1, 0x89, 0x0d, 0xbf, 0xe6, 0x42, 0x68, 0x41, 0x99, 0x2d, 0x0f, 0xb0, 0x54, 0xbb, 0x16]
    ]

  const Mul2Rows: seq<seq<byte>> :=
    [
      [0x00, 0x02, 0x04, 0x06, 0x08, 0x0a, 0x0c, 0x0e, 0x10, 0x12, 0x14, 0x16, 0x18, 0x1a, 0x1c, 0x1e],
      [0x20, 0x22, 0x24, 0x26, 0x28, 0x2a, 0x2c, 0x2e, 0x30, 0x32, 0x34, 0x36, 0x38, 0x3a, 0x3c, 0x3e],
      [0x40, 0x42, 0x44, 0x46, 0x48, 0x4a, 0x4c, 0x4e, 0x50, 0x52, 0x54, 0x56, 0x58, 0x5a, 0x5c, 0x5e],
      [0x60, 0x62, 0x64, 0x66, 0x68, 0x6a, 0x6c, 0x6e, 0x70, 0x72, 0x74, 0x76, 0x78, 0x7a, 0x7c, 0x7e],
      [0x80, 0x82, 0x84, 0x86, 0x88, 0x8a, 0x8c, 0x8e, 0x90, 0x92, 0x94, 0x96, 0x98, 0x9a, 0x9c, 0x9e],
      [0xa0, 0xa2, 0xa4, 0xa6, 0xa8, 0xaa, 0xac, 0xae, 0xb0, 0xb2, 0xb4, 0xb6, 0xb8, 0xba, 0xbc, 0xbe],
      [0xc0, 0xc2, 0xc4, 0xc6, 0xc8, 0xca, 0xcc, 0xce, 0xd0, 0xd2, 0xd4, 0xd6, 0xd8, 0xda, 0xdc, 0xde],
      [0xe0, 0xe2, 0xe4, 0xe6, 0xe8, 0xea, 0xec, 0xee, 0xf0, 0xf2, 0xf4, 0xf6, 0xf8, 0xfa, 0xfc, 0xfe],
      [0x1b, 0x19, 0x1f, 0x1d, 0x13, 0x11, 0x17, 0x15, 0x0b, 0x09, 0x0f, 0x0d, 0x03, 0x01, 0x07, 0x05],
      [0x3b, 0x39, 0x3f, 0x3d, 0x33, 0x31, 0x37, 0x35, 0x2b, 0x29, 0x2f, 0x2d, 0x23, 0x21, 0x27, 0x25],
      [0x5b, 0x59, 0x5f, 0x5d, 0x53, 0x51, 0x57, 0x55, 0x4b, 0x49, 0x4f, 0x4d, 0x43, 0x41, 0x47, 0x45],
      [0x7b, 0x79, 0x7f, 0x7d, 0x73, 0x71, 0x77, 0x75, 0x6b, 0x69, 0x6f, 0x6d, 0x63, 0x61, 0x67, 0x65],
      [0x9b, 0x99, 0x9f, 0x9d, 0x93, 0x91, 0x97, 0x95, 0x8b, 0x89, 0x8f, 0x8d, 0x83, 0x81, 0x87, 0x85],
      [0xbb, 0xb9, 0xbf, 0xbd, 0xb3, 0xb1, 0xb7, 0xb5, 0xab, 0xa9, 0xaf, 0xad, 0xa3, 0xa1, 0xa7, 0xa5],
      [0xdb, 0xd9, 0xdf, 0xdd, 0xd3, 0xd1, 0xd7, 0xd5, 0xcb, 0xc9, 0xcf, 0xcd, 0xc3, 0xc1, 0xc7, 0xc5],
      [0xfb, 0xf9, 0xff, 0xfd, 0xf3, 0xf1, 0xf7, 0xf5, 0xeb, 0xe9, 0xef, 0xed, 0xe3, 0xe1, 0xe7, 0xe5]
    ]

  const Mul3Rows: seq<seq<byte>> :=
    [
      [0x00, 0x03, 0x06, 0x05, 0x0c, 0x0f, 0x0a, 0x09, 0x18, 0x1b, 0x1e, 0x1d, 0x14, 0x17, 0x12, 0x11],
      [0x30, 0x33, 0x36, 0x35, 0x3c, 0x3f, 0x3a, 0x39, 0x28, 0x2b, 0x2e, 0x2d, 0x24, 0x27, 0x22, 0x21],
      [0x60, 0x63, 0x66, 0x65, 0x6c, 0x6f, 0x6a, 0x69, 0x78, 0x7b, 0x7e, 0x7d, 0x74, 0x77, 0x72, 0x71],
      [0x50, 0x53, 0x56, 0x55, 0x5c, 0x5f, 0x5a, 0x59, 0x48, 0x4b, 0x4e, 0x4d, 0x44, 0x47, 0x42, 0x41],
      [0xc0, 0xc3, 0xc6, 0xc5, 0xcc, 0xcf, 0xca, 0xc9, 0xd8, 0xdb, 0xde, 0xdd, 0xd4, 0xd7, 0xd2, 0xd1],
      [0xf0, 0xf3, 0xf6, 0xf5, 0xfc, 0xff, 0xfa, 0xf9, 0xe8, 0xeb, 0xee, 0xed, 0xe4, 0xe7, 0xe2, 0xe1],
      [0xa0, 0xa3, 0xa6, 0xa5, 0xac, 0xaf, 0xaa, 0xa9, 0xb8, 0xbb, 0xbe, 0xbd, 0xb4, 0xb7, 0xb2, 0xb1],
      [0x90, 0x93, 0x96, 0x95, 0x9c, 0x9f, 0x9a, 0x99, 0x88, 0x8b, 0x8e, 0x8d, 0x84, 0x87, 0x82, 0x81],
      [0x9b, 0x98, 0x9d, 0x9e, 0x97, 0x94, 0x91, 0x92, 0x83, 0x80, 0x85, 0x86, 0x8f, 0x8c, 0x89, 0x8a],
      [0xab, 0xa8, 0xad, 0xae, 0xa7, 0xa4, 0xa1, 0xa2, 0xb3, 0xb0, 0xb5, 0xb6, 0xbf, 0xbc, 0xb9, 0xba],
      [0xfb, 0xf8, 0xfd, 0xfe, 0xf7, 0xf4, 0xf1, 0xf2, 0xe3, 0xe0, 0xe5, 0xe6, 0xef, 0xec, 0xe9, 0xea],
      [0xcb, 0xc8, 0xcd, 0xce, 0xc7, 0xc4, 0xc1, 0xc2, 0xd3, 0xd0, 0xd5, 0xd6, 0xdf, 0xdc, 0xd9, 0xda],
      [0x5b, 0x58, 0x5d, 0x5e, 0x57, 0x54, 0x51, 0x52, 0x43, 0x40, 0x45, 0x46, 0x4f, 0x4c, 0x49, 0x4a],
      [0x6b, 0x68, 0x6d, 0x6e, 0x67, 0x64, 0x61, 0x62, 0x73, 0x70, 0x75, 0x76, 0x7f, 0x7c, 0x79, 0x7a],
      [0x3b, 0x38, 0x3d, 0x3e, 0x37, 0x34, 0x31, 0x32, 0x23, 0x20, 0x25, 0x26, 0x2f, 0x2c, 0x29, 0x2a],
      [0x0b, 0x08, 0x0d, 0x0e, 0x07, 0x04, 0x01, 0x02, 0x13, 0x10, 0x15, 0x16, 0x1f, 0x1c, 0x19, 0x1a]
    ]

  /** `_sbox[x]`: the AES S-box. */
  function Sbox(x: byte): byte
  {
    SboxRows[(x >> 4) as int][(x & 0xf) as int]
  }

  /** `_mul2[x]`. */
  function Mul2(x: byte): byte
  {
    Mul2Rows[(x >> 4) as int][(x & 0xf) as int]
  }

  /** `_mul3[x]`. */
  function Mul3(x: byte): byte
  {
    Mul3Rows[(x >> 4) as int][(x & 0xf) as int]
  }

  /** Multiplication by {02} in GF(2^8): shift left, reduce by {1b} when bit 7 falls out. */
  function Xtime(x: byte): byte
  {
    if x & 0x80 == 0 then x << 1 else (x << 1) ^ 0x1b
  }

  /** The product of a by the low n bits of b in GF(2^8), by repeated xtime. */
  function GfMulBits(a: byte, b: byte, n: nat): byte
    decreases n
  {
    if n == 0 then 0 else (if b & 1 == 1 then a else 0) ^ GfMulBits(Xtime(a), b >> 1, n - 1)
  }

  /** Multiplication in GF(2^8) modulo x^8 + x^4 + x^3 + x + 1. */
  function GfMul(a: byte, b: byte): byte
  {
    GfMulBits(a, b, 8)
  }

  lemma {:induction false} GfMulBitsZero(a: byte, n: nat)
    ensures GfMulBits(a, 0, n) == 0
    decreases n
  {
    if n > 0 {
      GfMulBitsZero(Xtime(a), n - 1);
    }
  }

  /** {02} and {03} times x, from the definition of the product. */
  lemma GfMulTwoThree(x: byte)
    ensures GfMul(x, 2) == Xtime(x)
    ensures GfMul(x, 3) == Xtime(x) ^ x
  {
    GfMulBitsZero(Xtime(Xtime(x)), 6);
    assert GfMulBits(x, 2, 8) == GfMulBits(Xtime(x), 1, 7);
    assert GfMulBits(x, 3, 8) == x ^ GfMulBits(Xtime(x), 1, 7);
  }

  /** `_mul2` is the xtime table, first half. */
  lemma Mul2IsXtimeLow()
    ensures forall x: byte | x < 0x80 :: Mul2(x) == Xtime(x)
  {
    forall x: byte | x < 0x80
      ensures Mul2(x) == Xtime(x)
    {
      if x >> 4 == 0 {
      } else if x >> 4 == 1 {
      } else if x >> 4 == 2 {
      } else if x >> 4 == 3 {
      } else if x >> 4 == 4 {
      } else if x >> 4 == 5 {
      } else if x >> 4 == 6 {
      } else {
      }
    }
  }

  /** `_mul2` is the xtime table, second half. */
  lemma Mul2IsXtimeHigh()
    ensures forall x: byte | x >= 0x80 :: Mul2(x) == Xtime(x)
  {
    forall x: byte | x >= 0x80
      ensures Mul2(x) == Xtime(x)
    {
      if x >> 4 == 8 {
      } else if x >> 4 == 9 {
      } else if x >> 4 == 10 {
      } else if x >> 4 == 11 {
      } else if x >> 4 == 12 {
      } else if x >> 4 == 13 {
      } else if x >> 4 == 14 {
      } else {
      }
    }
  }

  /** `_mul3[x] == _mul2[x] ^ x`, first quarter. */
  lemma Mul3IsMul2XorFirst()
    ensures forall x: byte | x < 0x40 :: Mul3(x) == Mul2(x) ^ x
  {
    forall x: byte | x < 0x40
      ensures Mul3(x) == Mul2(x) ^ x
    {
      if x >> 4 == 0 {
      } else if x >> 4 == 1 {
      } else if x >> 4 == 2 {
      } else {
      }
    }
  }

  /** `_mul3[x] == _mul2[x] ^ x`, second quarter. */
  lemma Mul3IsMul2XorSecond()
    ensures forall x: byte | 0x40 <= x < 0x80 :: Mul3(x) == Mul2(x) ^ x
  {
    forall x: byte | 0x40 <= x < 0x80
      ensures Mul3(x) == Mul2(x) ^ x
    {
      if x >> 4 == 4 {
      } else if x >> 4 == 5 {
      } else if x >> 4 == 6 {
      } else {
      }
    }
  }

  /** `_mul3[x] == _mul2[x] ^ x`, third quarter. */
  lemma Mul3IsMul2XorThird()
    ensures forall x: byte | 0x80 <= x < 0xc0 :: Mul3(x) == Mul2(x) ^ x
  {
    forall x: byte | 0x80 <= x < 0xc0
      ensures Mul3(x) == Mul2(x) ^ x
    {
      if x >> 4 == 8 {
      } else if x >> 4 == 9 {
      } else if x >> 4 == 10 {
      } else {
      }
    }
  }

  /** `_mul3[x] == _mul2[x] ^ x`, fourth quarter. */
  lemma Mul3IsMul2XorFourth()
    ensures forall x: byte | x >= 0xc0 :: Mul3(x) == Mul2(x) ^ x
  {
    forall x: byte | x >= 0xc0
      ensures Mul3(x) == Mul2(x) ^ x
    {
      if x >> 4 == 12 {
      } else if x >> 4 == 13 {
      } else if x >> 4 == 14 {
      } else {
      }
    }
  }

  /** One entry of each table is a product once it matches xtime and xtime ^ x. */
  lemma EntryIsProduct(x: byte)
    requires Mul2(x) == Xtime(x) && Mul3(x) == Mul2(x) ^ x
    ensures Mul2(x) == GfMul(x, 2) && Mul3(x) == GfMul(x, 3)
  {
    GfMulTwoThree(x);
  }

  /** Both tables are products in GF(2^8): by {02} and by {03}. */
  lemma TablesAreProducts()
    ensures forall x: byte :: Mul2(x) == GfMul(x, 2) && Mul3(x) == GfMul(x, 3)
  {
    Mul2IsXtimeLow();
    Mul2IsXtimeHigh();
    Mul3IsMul2XorFirst();
    Mul3IsMul2XorSecond();
    Mul3IsMul2XorThird();
    Mul3IsMul2XorFourth();
    forall x: byte
      ensures Mul2(x) == GfMul(x, 2) && Mul3(x) == GfMul(x, 3)
    {
      EntryIsProduct(x);
    }
  }

  /** The S-box examples of FIPS-197: {00} to {63}, and {53} to {ed} (section 5.1.1). */
  lemma SboxExamples()
    ensures Sbox(0x00) == 0x63 && Sbox(0x53) == 0xed
  {
  }

  // ---------------------------------------------------------------------
  // The masked first round, for any tables.
  // ---------------------------------------------------------------------

  /**
   * The three class attributes `_sbox`, `_mul2` and `_mul3` that
   * `get_sbox_output` reads. The cancellation of the masks holds whatever
   * they contain, so the masked round is stated for any tables.
   */
  datatype Tables = Tables(sbox: byte -> byte, mul2: byte -> byte, mul3: byte -> byte)

  /** The tables of `ByteMaskedAES`. */
  const AesTables := Tables(Sbox, Mul2, Mul3)

  /** One column of MixColumns (FIPS-197 section 5.1.3). */
  function MixColumn(s: seq<byte>): (r: seq<byte>)
    requires |s| == 4
    ensures |r| == 4
  {
    [Xor(Xor(Xor(GfMul(s[0], 2), GfMul(s[1], 3)), s[2]), s[3]),
     Xor(Xor(Xor(s[0], GfMul(s[1], 2)), GfMul(s[2], 3)), s[3]),
     Xor(Xor(Xor(s[0], s[1]), GfMul(s[2], 2)), GfMul(s[3], 3)),
     Xor(Xor(Xor(GfMul(s[0], 3), s[1]), s[2]), GfMul(s[3], 2))]
  }

  /** `Init_masking`: the four masks derived from mask[0..3] with the tables. */
  function InitMasking(t: Tables, m: seq<byte>): (r: seq<byte>)
    requires |m| >= 4
    ensures |r| == 4
  {
    [Xor(Xor(Xor(t.mul2(m[0]), t.mul3(m[1])), m[2]), m[3]),
     Xor(Xor(Xor(m[0], t.mul2(m[1])), t.mul3(m[2])), m[3]),
     Xor(Xor(Xor(m[0], m[1]), t.mul2(m[2])), t.mul3(m[3])),
     Xor(Xor(Xor(t.mul3(m[0]), m[1]), m[2]), t.mul2(m[3]))]
  }

  /** With product tables, the derived masks are MixColumns of the first four mask bytes. */
  lemma InitMaskingIsMixColumn(t: Tables, m: seq<byte>)
    requires forall x: byte :: t.mul2(x) == GfMul(x, 2) && t.mul3(x) == GfMul(x, 3)
    requires |m| >= 4
    ensures InitMasking(t, m) == MixColumn(m[..4])
  {
  }

  /** The tables of `ByteMaskedAES` derive MixColumns of mask[0..3]. */
  lemma AesInitMasking(m: seq<byte>)
    requires |m| >= 4
    ensures InitMasking(AesTables, m) == MixColumn(m[..4])
  {
    TablesAreProducts();
    InitMaskingIsMixColumn(AesTables, m);
  }

  /** Bytes 0..15 XORed with the mask of their column (index mod 4); later bytes unchanged. */
  function Remasked(s: seq<byte>, masks: seq<byte>): (r: seq<byte>)
    requires |s| >= 16 && |masks| == 4
    ensures |r| == |s| && r[16..] == s[16..]
  {
    seq(|s|, k requires 0 <= k < |s| => if k < 16 then Xor(s[k], masks[k % 4]) else s[k])
  }

  /** Remasking twice with the same masks gives back the input. */
  lemma RemaskedTwice(s: seq<byte>, masks: seq<byte>)
    requires |s| >= 16 && |masks| == 4
    ensures Remasked(Remasked(s, masks), masks) == s
  {
    var r := Remasked(Remasked(s, masks), masks);
    forall k | 0 <= k < |s|
      ensures r[k] == s[k]
    {
      if k < 16 {
        XorCancels(s[k], masks[k % 4]);
      }
    }
  }

  /** Remasking with a then b is remasking with a XOR b. */
  lemma RemaskedCompose(s: seq<byte>, a: seq<byte>, b: seq<byte>)
    requires |s| >= 16 && |a| == 4 && |b| == 4
    ensures Remasked(Remasked(s, a), b) == Remasked(s, seq(4, j requires 0 <= j < 4 => Xor(a[j], b[j])))
  {
    var lhs := Remasked(Remasked(s, a), b);
    var rhs := Remasked(s, seq(4, j requires 0 <= j < 4 => Xor(a[j], b[j])));
    forall k | 0 <= k < 16
      ensures lhs[k] == rhs[k]
    {
      XorAssociates(s[k], a[k % 4], b[k % 4]);
    }
    assert lhs == rhs;
  }

  /** Replacing position i of goal[..i] + rest[i..] by goal[i] extends the prefix by one. */
  lemma PrefixStep<T>(goal: seq<T>, rest: seq<T>, cur: seq<T>, i: nat)
    requires i < |goal| == |rest| && cur == goal[..i] + rest[i..]
    ensures cur[i := goal[i]] == goal[..i + 1] + rest[i + 1..]
  {
  }

  /** Once the prefix reaches the part where goal and rest agree, the whole sequence is goal. */
  lemma PrefixComplete<T>(goal: seq<T>, rest: seq<T>, n: nat)
    requires n <= |goal| == |rest| && goal[n..] == rest[n..]
    ensures goal[..n] + rest[n..] == goal
  {
    assert goal == goal[..n] + goal[n..];
  }

  /** The first n bytes of cur are those of r, the rest those of s0. */
  ghost predicate RemaskedUpTo(cur: seq<byte>, r: seq<byte>, s0: seq<byte>, n: nat)
  {
    n <= |r| == |s0| && cur == r[..n] + s0[n..]
  }

  /** `s[k] = s[k] ^ m`, which extends the remasked prefix by one byte. */
  method RemaskByte(s: array<byte>, k: nat, m: byte, ghost s0: seq<byte>, ghost r: seq<byte>)
    requires k < |s0| == |r| == s.Length && r[k] == Xor(s0[k], m)
    requires s[..] == r[..k] + s0[k..]
    modifies s
    ensures s[..] == r[..k + 1] + s0[k + 1..]
  {
    assert s[k] == s0[k];
    PrefixStep(r, s0, s[..], k);
    s[k] := Xor(s[k], m);
  }

  /** Bytes 4i..4i+3 of r are those of s0 XORed with the four masks, in order. */
  ghost predicate BlockMasked(r: seq<byte>, s0: seq<byte>, masks: seq<byte>, i: nat)
  {
    var b := 4 * i;
    b + 4 <= |r| && b + 4 <= |s0| && |masks| == 4 &&
    r[b] == Xor(s0[b], masks[0]) && r[b + 1] == Xor(s0[b + 1], masks[1]) &&
    r[b + 2] == Xor(s0[b + 2], masks[2]) && r[b + 3] == Xor(s0[b + 3], masks[3])
  }

  /** Each of the four blocks of a remasked sequence is masked with the four masks. */
  lemma RemaskedBlock(s0: seq<byte>, masks: seq<byte>, i: nat)
    requires |s0| >= 16 && |masks| == 4 && i < 4
    ensures BlockMasked(Remasked(s0, masks), s0, masks, i)
  {
    var b := 4 * i;
    assert b % 4 == 0 && (b + 1) % 4 == 1 && (b + 2) % 4 == 2 && (b + 3) % 4 == 3;
  }

  /** The four blocks of r are those of s0 masked, and r keeps the rest of s0. */
  ghost predicate MaskedBlocks(r: seq<byte>, s0: seq<byte>, masks: seq<byte>)
  {
    |r| == |s0| >= 16 && r[16..] == s0[16..] &&
    forall i :: 0 <= i < 4 ==> BlockMasked(r, s0, masks, i)
  }

  lemma RemaskedBlocks(s0: seq<byte>, masks: seq<byte>)
    requires |s0| >= 16 && |masks| == 4
    ensures MaskedBlocks(Remasked(s0, masks), s0, masks)
  {
    forall i | 0 <= i < 4
      ensures BlockMasked(Remasked(s0, masks), s0, masks, i)
    {
      RemaskedBlock(s0, masks, i);
    }
  }

  /**
   * The body of the loop of `_remask` on block i: bytes 4i..4i+3 are XORed
   * with the four masks, which extends the remasked prefix by four bytes.
   */
  method RemaskBlock(s: array<byte>, i: nat, masks: seq<byte>, ghost s0: seq<byte>, ghost r: seq<byte>)
    requires |r| == |s0| == s.Length && BlockMasked(r, s0, masks, i)
    requires RemaskedUpTo(s[..], r, s0, 4 * i)
    modifies s
    ensures RemaskedUpTo(s[..], r, s0, 4 * i + 4)
  {
    var b := 4 * i;
    RemaskByte(s, b, masks[0], s0, r);
    RemaskByte(s, b + 1, masks[1], s0, r);
    RemaskByte(s, b + 2, masks[2], s0, r);
    RemaskByte(s, b + 3, masks[3], s0, r);
  }

  /**
   * `_remask`: in place, byte 4i + j is XORed with m(j+1) ^ m(j+5) for
   * i, j in 0..3; the last four masks default to 0.
   */
  method Remask(s: array<byte>, m1: byte, m2: byte, m3: byte, m4: byte,
                m5: byte := 0, m6: byte := 0, m7: byte := 0, m8: byte := 0)
    requires s.Length >= 16
    modifies s
    ensures s[..] == Remasked(old(s[..]), [Xor(m1, m5), Xor(m2, m6), Xor(m3, m7), Xor(m4, m8)])
  {
    RemaskWith(s, [Xor(m1, m5), Xor(m2, m6), Xor(m3, m7), Xor(m4, m8)]);
  }

  /** `_remask` with the four combined masks. */
  method RemaskWith(s: array<byte>, masks: seq<byte>)
    requires s.Length >= 16 && |masks| == 4
    modifies s
    ensures s[..] == Remasked(old(s[..]), masks)
  {
    RemaskedBlocks(s[..], masks);
    RemaskLoop(s, masks, s[..], Remasked(s[..], masks));
  }

  /** The loop of `_remask`: block after block, s becomes r. */
  method RemaskLoop(s: array<byte>, masks: seq<byte>, ghost s0: seq<byte>, ghost r: seq<byte>)
    requires s[..] == s0 && s.Length == |s0| && MaskedBlocks(r, s0, masks)
    modifies s
    ensures s[..] == r
  {
    assert r[..0] + s0[0..] == s0;
    for i := 0 to 4
      invariant RemaskedUpTo(s[..], r, s0, 4 * i)
    {
      RemaskBlock(s, i, masks, s0, r);
    }
    PrefixComplete(r, s0, 16);
  }

  /** A byte as a list index: `sbox_masked[b]`. */
  function Index(b: byte): (i: nat)
    ensures i < 256
  {
    b as int
  }

  lemma IndexInjective(a: byte, b: byte)
    requires Index(a) == Index(b)
    ensures a == b
  {
  }

  lemma IndexNext(x: byte)
    requires Index(x) < 255
    ensures Index(x + 1) == Index(x) + 1
  {
  }

  /** Slots y with y ^ m4 < cnt hold S(y ^ m4) ^ m5: the first cnt steps of the loop are done. */
  ghost predicate MaskedUpTo(t: seq<byte>, sbox: byte -> byte, m4: byte, m5: byte, cnt: int)
  {
    |t| == 256 && forall y: byte {:trigger t[Index(y)]} :: Index(Xor(y, m4)) < cnt ==> t[Index(y)] == Xor(sbox(Xor(y, m4)), m5)
  }

  /** Step x writes S(x) ^ m5 to the slot y with y ^ m4 == x. */
  lemma MaskStepNew(t: seq<byte>, sbox: byte -> byte, m4: byte, m5: byte, x: byte, y: byte)
    requires |t| == 256 && Index(Xor(y, m4)) == Index(x)
    ensures t[Index(Xor(x, m4)) := Xor(sbox(x), m5)][Index(y)] == Xor(sbox(Xor(y, m4)), m5)
  {
    IndexInjective(Xor(y, m4), x);
    XorCancels(y, m4);
  }

  /** Step x does not overwrite a slot of an earlier step: each slot is written once. */
  lemma MaskStepOld(m4: byte, x: byte, y: byte)
    requires Index(Xor(y, m4)) < Index(x)
    ensures Index(y) != Index(Xor(x, m4))
  {
    if Index(y) == Index(Xor(x, m4)) {
      IndexInjective(y, Xor(x, m4));
      XorCancels(x, m4);
    }
  }

  lemma MaskStep(t: seq<byte>, sbox: byte -> byte, m4: byte, m5: byte, x: byte)
    requires MaskedUpTo(t, sbox, m4, m5, Index(x))
    ensures MaskedUpTo(t[Index(Xor(x, m4)) := Xor(sbox(x), m5)], sbox, m4, m5, Index(x) + 1)
  {
    forall y: byte | Index(Xor(y, m4)) < Index(x) + 1
      ensures t[Index(Xor(x, m4)) := Xor(sbox(x), m5)][Index(y)] == Xor(sbox(Xor(y, m4)), m5)
    {
      if Index(Xor(y, m4)) == Index(x) {
        MaskStepNew(t, sbox, m4, m5, x, y);
      } else {
        MaskStepOld(m4, x, y);
      }
    }
  }

  /** Slot y of the masked S-box holds S(y ^ m4) ^ m5. */
  ghost predicate IsMaskedSbox(t: seq<byte>, sbox: byte -> byte, m4: byte, m5: byte)
  {
    |t| == 256 && forall y: byte {:trigger t[Index(y)]} :: t[Index(y)] == Xor(sbox(Xor(y, m4)), m5)
  }

  /**
   * The masked S-box loop: for cnt in 0..255, slot cnt ^ m4 receives
   * S(cnt) ^ m5, so that afterwards table[y] == S(y ^ m4) ^ m5 for every
   * slot y. The byte x runs along cnt.
   */
  method MaskSbox(sbox: byte -> byte, m4: byte, m5: byte) returns (sboxMasked: seq<byte>)
    ensures IsMaskedSbox(sboxMasked, sbox, m4, m5)
  {
    var table := new byte[256](_ => 0);
    var cnt := 0;
    var x: byte := 0;
    while cnt < 256
      invariant 0 <= cnt <= 256 && (cnt < 256 ==> Index(x) == cnt)
      invariant MaskedUpTo(table[..], sbox, m4, m5, cnt)
    {
      ghost var t := table[..];
      MaskStep(t, sbox, m4, m5, x);
      var slot := Index(Xor(x, m4));
      table[slot] := Xor(sbox(x), m5);
      assert table[..] == t[slot := Xor(sbox(x), m5)];
      if cnt < 255 {
        IndexNext(x);
      }
      cnt := cnt + 1;
      x := x + 1;
    }
    sboxMasked := table[..];
  }

  /**
   * What the first round of AES-128 computes, unmasked and then masked
   * with the output masks: byte i is S(key[i] ^ msg[i]) ^ mask[5] ^ mask[6 + i % 4]
   * for i < 16; message bytes beyond 16 pass through.
   */
  function FirstRoundReference(sbox: byte -> byte, key: seq<byte>, mask: seq<byte>, msg: seq<byte>): (r: seq<byte>)
    requires |key| >= 16 && |mask| >= 10 && |msg| >= 16
    ensures |r| == |msg|
  {
    seq(|msg|, i requires 0 <= i < |msg| =>
      if i < 16 then Xor(Xor(sbox(Xor(key[i], msg[i])), mask[5]), mask[6 + i % 4]) else msg[i])
  }

  /**
   * The masks of one byte cancel: message byte g remasked with d, key
   * byte k remasked with d ^ m4 ^ w, XORed, with w and m4 removed, is k ^ g.
   */
  lemma ByteMasksCancel(k: byte, g: byte, d: byte, m4: byte, w: byte)
    ensures Xor(Xor(Xor(Xor(g, Xor(d, 0)), Xor(k, Xor(d, Xor(m4, w)))), w), m4) == Xor(k, g)
  {
  }

  /**
   * Looking up y == s ^ r ^ c in the masked S-box and removing c gives
   * S(z) ^ m5 ^ c when y ^ m4 == z: the lookup removes the mask m4.
   */
  lemma MaskedLookup(sbox: byte -> byte, table: seq<byte>, m4: byte, m5: byte, s: byte, r: byte, c: byte, z: byte)
    requires IsMaskedSbox(table, sbox, m4, m5)
    requires Xor(Xor(Xor(s, r), c), m4) == z
    ensures Xor(table[Index(Xor(Xor(s, r), c))], c) == Xor(Xor(sbox(z), m5), c)
  {
  }

  /**
   * Byte i of the last loop of `get_sbox_output` is byte i of the
   * reference, for a message byte remasked with d and a key byte remasked
   * with d ^ m4 ^ c, where c == mask[6 + i % 4] is the word mask of its column.
   */
  lemma MaskedRoundByte(sbox: byte -> byte, table: seq<byte>, key: seq<byte>, mask: seq<byte>, msg: seq<byte>,
                        m4: byte, d: byte, i: nat)
    requires |key| >= 16 && |mask| >= 10 && |msg| >= 16 && i < 16
    requires IsMaskedSbox(table, sbox, m4, mask[5])
    ensures var c := mask[6 + i % 4];
      Xor(table[Index(Xor(Xor(Xor(msg[i], Xor(d, 0)), Xor(key[i], Xor(d, Xor(m4, c)))), c))], c)
        == FirstRoundReference(sbox, key, mask, msg)[i]
  {
    var c := mask[6 + i % 4];
    ByteMasksCancel(key[i], msg[i], d, m4, c);
    MaskedLookup(sbox, table, m4, mask[5], Xor(msg[i], Xor(d, 0)), Xor(key[i], Xor(d, Xor(m4, c))), c, Xor(key[i], msg[i]));
  }

  /**
   * What the last loop of `get_sbox_output` computes: for i < 16, byte i of
   * the state is XORed with the round key, looked up in the masked S-box
   * after removing the word mask, and the word mask is removed again.
   */
  ghost function MaskedRoundResult(s0: seq<byte>, rk: seq<byte>, table: seq<byte>, w: seq<byte>): (r: seq<byte>)
    requires |s0| >= 16 && |rk| >= 16 && |table| == 256 && |w| == 4
    ensures |r| == |s0| && r[16..] == s0[16..]
  {
    seq(|s0|, i requires 0 <= i < |s0| =>
      if i < 16 then Xor(table[Index(Xor(Xor(s0[i], rk[i]), w[i % 4]))], w[i % 4]) else s0[i])
  }

  /** The last loop of `get_sbox_output`, in place on the state. */
  method MaskedRound(state: array<byte>, roundkey: seq<byte>, sboxMasked: seq<byte>, wordmask: seq<byte>)
    requires state.Length >= 16 && |roundkey| >= 16 && |sboxMasked| == 256 && |wordmask| == 4
    modifies state
    ensures state[..] == MaskedRoundResult(old(state[..]), roundkey, sboxMasked, wordmask)
  {
    ghost var s0 := state[..];
    ghost var goal := MaskedRoundResult(s0, roundkey, sboxMasked, wordmask);
    for i := 0 to 16
      invariant state[..] == goal[..i] + s0[i..]
    {
      assert state[i] == s0[i];
      PrefixStep(goal, s0, state[..], i);
      state[i] := Xor(state[i], roundkey[i]);
      state[i] := Xor(sboxMasked[Index(Xor(state[i], wordmask[i % 4]))], wordmask[i % 4]);
    }
    PrefixComplete(goal, s0, 16);
  }

  /** The masks of the `_remask` call on the state: m1..m4 are d, m5..m8 default to 0. */
  function StateMasks(d: seq<byte>): seq<byte>
    requires |d| == 4
  {
    [Xor(d[0], 0), Xor(d[1], 0), Xor(d[2], 0), Xor(d[3], 0)]
  }

  /** The masks of the `_remask` call on the round key: m1..m4 are d, m5..m8 are m4 ^ w. */
  function RoundKeyMasks(d: seq<byte>, m4: byte, w: seq<byte>): seq<byte>
    requires |d| == 4 && |w| == 4
  {
    [Xor(d[0], Xor(m4, w[0])), Xor(d[1], Xor(m4, w[1])), Xor(d[2], Xor(m4, w[2])), Xor(d[3], Xor(m4, w[3]))]
  }

  /** Column j of the two mask lists. */
  lemma MasksAt(d: seq<byte>, m4: byte, w: seq<byte>, j: nat)
    requires |d| == 4 && |w| == 4 && j < 4
    ensures StateMasks(d)[j] == Xor(d[j], 0) && RoundKeyMasks(d, m4, w)[j] == Xor(d[j], Xor(m4, w[j]))
  {
    if j == 0 {
    } else if j == 1 {
    } else if j == 2 {
    } else {
    }
  }

  /** Byte i < 16 of the last loop's result is byte i of the reference. */
  lemma MaskedRoundAt(sbox: byte -> byte, table: seq<byte>, key: seq<byte>, mask: seq<byte>, msg: seq<byte>,
                      d: seq<byte>, i: nat)
    requires |key| >= 16 && |mask| >= 10 && |msg| >= 16 && |d| == 4 && i < 16
    requires IsMaskedSbox(table, sbox, mask[4], mask[5])
    ensures MaskedRoundResult(Remasked(msg, StateMasks(d)), Remasked(key, RoundKeyMasks(d, mask[4], mask[6..10])), table, mask[6..10])[i]
      == FirstRoundReference(sbox, key, mask, msg)[i]
  {
    var j := i % 4;
    var w := mask[6..10];
    assert w[j] == mask[6 + j];
    MasksAt(d, mask[4], w, j);
    assert Remasked(msg, StateMasks(d))[i] == Xor(msg[i], Xor(d[j], 0));
    assert Remasked(key, RoundKeyMasks(d, mask[4], w))[i] == Xor(key[i], Xor(d[j], Xor(mask[4], mask[6 + j])));
    MaskedRoundByte(sbox, table, key, mask, msg, mask[4], d[j], i);
  }

  /**
   * The masks cancel: a message remasked with the derived masks d, a key
   * remasked with d ^ mask[4] ^ wordmask, and the S-box masked with
   * mask[4] in and mask[5] out give, through the last loop, the reference
   * first round.
   */
  lemma MaskedRoundIsReference(sbox: byte -> byte, table: seq<byte>, key: seq<byte>, mask: seq<byte>, msg: seq<byte>,
                               d: seq<byte>)
    requires |key| >= 16 && |mask| >= 10 && |msg| >= 16 && |d| == 4
    requires IsMaskedSbox(table, sbox, mask[4], mask[5])
    ensures MaskedRoundResult(Remasked(msg, StateMasks(d)), Remasked(key, RoundKeyMasks(d, mask[4], mask[6..10])), table, mask[6..10])
      == FirstRoundReference(sbox, key, mask, msg)
  {
    var lhs := MaskedRoundResult(Remasked(msg, StateMasks(d)), Remasked(key, RoundKeyMasks(d, mask[4], mask[6..10])), table, mask[6..10]);
    var rhs := FirstRoundReference(sbox, key, mask, msg);
    forall i | 0 <= i < |lhs|
      ensures lhs[i] == rhs[i]
    {
      if i < 16 {
        MaskedRoundAt(sbox, table, key, mask, msg, d, i);
      } else {
        assert lhs[i] == lhs[16..][i - 16];
      }
    }
  }

  /** Python `list(s)`: a fresh mutable copy of the bytes. */
  method ListOf(s: seq<byte>) returns (a: array<byte>)
    ensures fresh(a) && a[..] == s
  {
    a := new byte[|s|](k requires 0 <= k < |s| => s[k]);
  }

  /**
   * `get_sbox_output`: the masked S-box and the masked round key are built
   * from the masks, the state is remasked and sent through the masked S-box.
   * All masks cancel except mask[5] and the input word masks mask[6..9]. A
   * mask shorter than 10 bytes, or a key or message shorter than 16, makes
   * an index fail.
   */
  method GetSboxOutput(t: Tables, key: seq<byte>, mask: seq<byte>, msg: seq<byte>) returns (r: Result<seq<byte>, string>)
    ensures r.Err? <==> |mask| < 10 || |key| < 16 || |msg| < 16
    ensures r.Ok? ==> |key| >= 16 && |mask| >= 10 && |msg| >= 16 && r.value == FirstRoundReference(t.sbox, key, mask, msg)
  {
    if |mask| < 10 || |key| < 16 || |msg| < 16 {
      return Err("IndexError: index out of range");
    }
    // Set_mask and Init_masking: m4, m5 come from the input, d are the derived masks m[6..9]
    var wordmask := mask[6..10];
    var m4, m5 := mask[4], mask[5];
    var d := InitMasking(t, mask);

    // Mask sbox
    var sboxMasked := MaskSbox(t.sbox, m4, m5);

    // Mask roundkey
    var roundkey := ListOf(key);
    Remask(roundkey, d[0], d[1], d[2], d[3],
           Xor(m4, wordmask[0]), Xor(m4, wordmask[1]), Xor(m4, wordmask[2]), Xor(m4, wordmask[3]));
    var roundkeyMasked := roundkey[..];
    assert roundkeyMasked == Remasked(key, RoundKeyMasks(d, m4, wordmask));

    // Calculate state
    var state := ListOf(msg);
    Remask(state, d[0], d[1], d[2], d[3]);
    assert state[..] == Remasked(msg, StateMasks(d));
    MaskedRoundIsReference(t.sbox, sboxMasked, key, mask, msg, d);
    MaskedRound(state, roundkeyMasked, sboxMasked, wordmask);
    r := Ok(state[..]);
  }

  /** The output does not depend on mask[0..4]: only mask[5..9] reach it. */
  lemma FirstRoundIgnoresInnerMasks(sbox: byte -> byte, key: seq<byte>, mask: seq<byte>, mask': seq<byte>, msg: seq<byte>)
    requires |key| >= 16 && |mask| >= 10 && |mask'| >= 10 && |msg| >= 16
    requires mask[5..10] == mask'[5..10]
    ensures FirstRoundReference(sbox, key, mask, msg) == FirstRoundReference(sbox, key, mask', msg)
  {
    forall i | 0 <= i < 16
      ensures mask[5] == mask'[5] && mask[6 + i % 4] == mask'[6 + i % 4]
    {
      assert mask[5..10][0] == mask'[5..10][0];
      assert mask[5..10][1 + i % 4] == mask'[5..10][1 + i % 4];
    }
  }

  /** With zero output masks the result is SubBytes of AddRoundKey: S(key[i] ^ msg[i]). */
  lemma FirstRoundUnmasked(sbox: byte -> byte, key: seq<byte>, mask: seq<byte>, msg: seq<byte>, i: nat)
    requires |key| >= 16 && |mask| >= 10 && |msg| >= 16 && i < 16
    requires mask[5] == 0 && mask[6] == 0 && mask[7] == 0 && mask[8] == 0 && mask[9] == 0
    ensures FirstRoundReference(sbox, key, mask, msg)[i] == sbox(Xor(key[i], msg[i]))
  {
    XorZero(sbox(Xor(key[i], msg[i])));
    XorZero(Xor(sbox(Xor(key[i], msg[i])), 0));
  }

  /** The known vector of the firmware tests: key, mask, message and first-round S-box output. */
  const VectorKey: seq<byte> := [0x66, 0xe9, 0x4b, 0xd4, 0xef, 0x8a, 0x2c, 0x3b, 0x88, 0x4c, 0xfa, 0x59, 0xca, 0x34, 0x2b, 0x2e]
  const VectorMask: seq<byte> := [0xab, 0x4b, 0x36, 0xbd, 0xc8, 0x1d, 0x8b, 0xd2, 0xbc, 0xed]
  const VectorMsg: seq<byte> := [0x4b, 0x36, 0xbd, 0xc8, 0x1d, 0x8b, 0xd2, 0xbc, 0xed, 0x4b, 0x64, 0x68, 0x05, 0xa7, 0x08, 0xb4]
  const VectorOut: seq<byte> := [0x4e, 0x51, 0xe3, 0x6c, 0x1f, 0xb3, 0x1a, 0xe7, 0xdb, 0x0a, 0xaa, 0x37, 0x1c, 0x13, 0x87, 0x48]

  /** Byte i of the reference, evaluated through its intermediate values. */
  lemma ReferenceByte(sbox: byte -> byte, key: seq<byte>, mask: seq<byte>, msg: seq<byte>, i: nat,
                      k: byte, g: byte, m5: byte, c: byte, x: byte, s: byte, y: byte, out: byte)
    requires |key| >= 16 && |mask| >= 10 && |msg| >= 16 && i < 16
    requires key[i] == k && msg[i] == g && mask[5] == m5 && mask[6 + i % 4] == c
    requires k ^ g == x && sbox(x) == s && s ^ m5 == y && y ^ c == out
    ensures FirstRoundReference(sbox, key, mask, msg)[i] == out
  {
    assert Xor(key[i], msg[i]) == x;
  }

  /** For each byte of the known vector, key ^ message, and the S-box entry it selects. */
  const VectorSboxIn: seq<byte> := [0x2d, 0xdf, 0xf6, 0x1c, 0xf2, 0x01, 0xfe, 0x87, 0x65, 0x07, 0x9e, 0x31, 0xcf, 0x93, 0x23, 0x9a]
  const VectorSboxOut: seq<byte> := [0xd8, 0x9e, 0x42, 0x9c, 0x89, 0x7c, 0xbb, 0x17, 0x4d, 0xc5, 0x0b, 0xc7, 0x8a, 0xdc, 0x26, 0xb8]

  /** Byte i of the known vector step by step: key ^ message, its S-box entry, and the two output masks. */
  lemma VectorSteps(i: nat)
    requires i < 16
    ensures Xor(VectorKey[i], VectorMsg[i]) == VectorSboxIn[i]
    ensures Sbox(VectorSboxIn[i]) == VectorSboxOut[i]
    ensures Xor(Xor(VectorSboxOut[i], VectorMask[5]), VectorMask[6 + i % 4]) == VectorOut[i]
  {
    match i
      case 0 => assert Sbox(0x2d) == 0xd8;
      case 1 => assert Sbox(0xdf) == 0x9e;
      case 2 => assert Sbox(0xf6) == 0x42;
      case 3 => assert Sbox(0x1c) == 0x9c;
      case 4 => assert Sbox(0xf2) == 0x89;
      case 5 => assert Sbox(0x01) == 0x7c;
      case 6 => assert Sbox(0xfe) == 0xbb;
      case 7 => assert Sbox(0x87) == 0x17;
      case 8 => assert Sbox(0x65) == 0x4d;
      case 9 => assert Sbox(0x07) == 0xc5;
      case 10 => assert Sbox(0x9e) == 0x0b;
      case 11 => assert Sbox(0x31) == 0xc7;
      case 12 => assert Sbox(0xcf) == 0x8a;
      case 13 => assert Sbox(0x93) == 0xdc;
      case 14 => assert Sbox(0x23) == 0x26;
      case 15 => assert Sbox(0x9a) == 0xb8;
  }

  /** Byte i of the known vector, through its tabulated S-box lookup. */
  lemma VectorAt(key: seq<byte>, mask: seq<byte>, msg: seq<byte>, i: nat)
    requires key == VectorKey && mask == VectorMask && msg == VectorMsg && i < 16
    ensures FirstRoundReference(Sbox, key, mask, msg)[i] == VectorOut[i]
  {
    VectorSteps(i);
    ReferenceByte(Sbox, key, mask, msg, i, key[i], msg[i], mask[5], mask[6 + i % 4],
                  VectorSboxIn[i], VectorSboxOut[i], Xor(VectorSboxOut[i], mask[5]), VectorOut[i]);
  }

  /** On the known vector, the reference first round gives the output the firmware tests expect. */
  lemma FirstRoundVector()
    ensures FirstRoundReference(Sbox, VectorKey, VectorMask, VectorMsg) == VectorOut
  {
    forall i | 0 <= i < 16
      ensures FirstRoundReference(Sbox, VectorKey, VectorMask, VectorMsg)[i] == VectorOut[i]
    {
      VectorAt(VectorKey, VectorMask, VectorMsg, i);
    }
  }
}
