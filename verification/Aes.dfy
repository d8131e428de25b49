/** The AES cipher of AESencript.c against FIPS 197.

    Module `Fips197` is the standard: a state is four columns of four bytes (section 3.4), and
    every transformation is a function on such values.  Module `AesCipher` is the program: global
    arrays rewritten by nested loops, each routine tied to the function it computes. */
module Fips197 {

  /** A column of the state, or a word of the key schedule. */
  datatype Word = Word(b0: bv8, b1: bv8, b2: bv8, b3: bv8)

  /** The state, column by column. */
  datatype Block = Block(c0: Word, c1: Word, c2: Word, c3: Word)

  // ----- bytes -----

  /** Entry `low` of one row of sixteen. */
  function Entry(low: bv8, e0: bv8, e1: bv8, e2: bv8, e3: bv8, e4: bv8, e5: bv8, e6: bv8, e7: bv8,
                 e8: bv8, e9: bv8, ea: bv8, eb: bv8, ec: bv8, ed: bv8, ee: bv8, ef: bv8): bv8 {
    if low < 8 then
      if low < 4 then
        if low < 2 then (if low == 0 then e0 else e1) else (if low == 2 then e2 else e3)
      else
        if low < 6 then (if low == 4 then e4 else e5) else (if low == 6 then e6 else e7)
    else
      if low < 12 then
        if low < 10 then (if low == 8 then e8 else e9) else (if low == 10 then ea else eb)
      else
        if low < 14 then (if low == 12 then ec else ed) else (if low == 14 then ee else ef)
  }

  /** The substitution table of the cipher, row by row. */
  function SBox(b: bv8): (s: bv8) {
    var low := b & 0x0f;
    if b < 0x80 then
      if b < 0x40 then
        if b < 0x20 then
          if b < 0x10 then
            Entry(low, 0x63, 0x7c, 0x77, 0x7b, 0xf2, 0x6b, 0x6f, 0xc5, 0x30, 0x01, 0x67, 0x2b, 0xfe, 0xd7, 0xab, 0x76)
          else
            Entry(low, 0xca, 0x82, 0xc9, 0x7d, 0xfa, 0x59, 0x47, 0xf0, 0xad, 0xd4, 0xa2, 0xaf, 0x9c, 0xa4, 0x72, 0xc0)
        else
          if b < 0x30 then
            Entry(low, 0xb7, 0xfd, 0x93, 0x26, 0x36, 0x3f, 0xf7, 0xcc, 0x34, 0xa5, 0xe5, 0xf1, 0x71, 0xd8, 0x31, 0x15)
          else
            Entry(low, 0x04, 0xc7, 0x23, 0xc3, 0x18, 0x96, 0x05, 0x9a, 0x07, 0x12, 0x80, 0xe2, 0xeb, 0x27, 0xb2, 0x75)
      else
        if b < 0x60 then
          if b < 0x50 then
            Entry(low, 0x09, 0x83, 0x2c, 0x1a, 0x1b, 0x6e, 0x5a, 0xa0, 0x52, 0x3b, 0xd6, 0xb3, 0x29, 0xe3, 0x2f, 0x84)
          else
            Entry(low, 0x53, 0xd1, 0x00, 0xed, 0x20, 0xfc, 0xb1, 0x5b, 0x6a, 0xcb, 0xbe, 0x39, 0x4a, 0x4c, 0x58, 0xcf)
        else
          if b < 0x70 then
            Entry(low, 0xd0, 0xef, 0xaa, 0xfb, 0x43, 0x4d, 0x33, 0x85, 0x45, 0xf9, 0x02, 0x7f, 0x50, 0x3c, 0x9f, 0xa8)
          else
            Entry(low, 0x51, 0xa3, 0x40, 0x8f, 0x92, 0x9d, 0x38, 0xf5, 0xbc, 0xb6, 0xda, 0x21, 0x10, 0xff, 0xf3, 0xd2)
    else
      if b < 0xc0 then
        if b < 0xa0 then
          if b < 0x90 then
            Entry(low, 0xcd, 0x0c, 0x13, 0xec, 0x5f, 0x97, 0x44, 0x17, 0xc4, 0xa7, 0x7e, 0x3d, 0x64, 0x5d, 0x19, 0x73)
          else
            Entry(low, 0x60, 0x81, 0x4f, 0xdc, 0x22, 0x2a, 0x90, 0x88, 0x46, 0xee, 0xb8, 0x14, 0xde, 0x5e, 0x0b, 0xdb)
        else
          if b < 0xb0 then
            Entry(low, 0xe0, 0x32, 0x3a, 0x0a, 0x49, 0x06, 0x24, 0x5c, 0xc2, 0xd3, 0xac, 0x62, 0x91, 0x95, 0xe4, 0x79)
          else
            Entry(low, 0xe7, 0xc8, 0x37, 0x6d, 0x8d, 0xd5, 0x4e, 0xa9, 0x6c, 0x56, 0xf4, 0xea, 0x65, 0x7a, 0xae, 0x08)
      else
        if b < 0xe0 then
          if b < 0xd0 then
            Entry(low, 0xba, 0x78, 0x25, 0x2e, 0x1c, 0xa6, 0xb4, 0xc6, 0xe8, 0xdd, 0x74, 0x1f, 0x4b, 0xbd, 0x8b, 0x8a)
          else
            Entry(low, 0x70, 0x3e, 0xb5, 0x66, 0x48, 0x03, 0xf6, 0x0e, 0x61, 0x35, 0x57, 0xb9, 0x86, 0xc1, 0x1d, 0x9e)
        else
          if b < 0xf0 then
            Entry(low, 0xe1, 0xf8, 0x98, 0x11, 0x69, 0xd9, 0x8e, 0x94, 0x9b, 0x1e, 0x87, 0xe9, 0xce, 0x55, 0x28, 0xdf)
          else
            Entry(low, 0x8c, 0xa1, 0x89, 0x0d, 0xbf, 0xe6, 0x42, 0x68, 0x41, 0x99, 0x2d, 0x0f, 0xb0, 0x54, 0xbb, 0x16)
  }

  /** The table of the inverse cipher (figure 14 of FIPS 197). */
  function InvSBox(b: bv8): (s: bv8) {
    var low := b & 0x0f;
    if b < 0x80 then
      if b < 0x40 then
        if b < 0x20 then
          if b < 0x10 then
            Entry(low, 0x52, 0x09, 0x6a, 0xd5, 0x30, 0x36, 0xa5, 0x38, 0xbf, 0x40, 0xa3, 0x9e, 0x81, 0xf3, 0xd7, 0xfb)
          else
            Entry(low, 0x7c, 0xe3, 0x39, 0x82, 0x9b, 0x2f, 0xff, 0x87, 0x34, 0x8e, 0x43, 0x44, 0xc4, 0xde, 0xe9, 0xcb)
        else
          if b < 0x30 then
            Entry(low, 0x54, 0x7b, 0x94, 0x32, 0xa6, 0xc2, 0x23, 0x3d, 0xee, 0x4c, 0x95, 0x0b, 0x42, 0xfa, 0xc3, 0x4e)
          else
            Entry(low, 0x08, 0x2e, 0xa1, 0x66, 0x28, 0xd9, 0x24, 0xb2, 0x76, 0x5b, 0xa2, 0x49, 0x6d, 0x8b, 0xd1, 0x25)
      else
        if b < 0x60 then
          if b < 0x50 then
            Entry(low, 0x72, 0xf8, 0xf6, 0x64, 0x86, 0x68, 0x98, 0x16, 0xd4, 0xa4, 0x5c, 0xcc, 0x5d, 0x65, 0xb6, 0x92)
          else
            Entry(low, 0x6c, 0x70, 0x48, 0x50, 0xfd, 0xed, 0xb9, 0xda, 0x5e, 0x15, 0x46, 0x57, 0xa7, 0x8d, 0x9d, 0x84)
        else
          if b < 0x70 then
            Entry(low, 0x90, 0xd8, 0xab, 0x00, 0x8c, 0xbc, 0xd3, 0x0a, 0xf7, 0xe4, 0x58, 0x05, 0xb8, 0xb3, 0x45, 0x06)
          else
            Entry(low, 0xd0, 0x2c, 0x1e, 0x8f, 0xca, 0x3f, 0x0f, 0x02, 0xc1, 0xaf, 0xbd, 0x03, 0x01, 0x13, 0x8a, 0x6b)
    else
      if b < 0xc0 then
        if b < 0xa0 then
          if b < 0x90 then
            Entry(low, 0x3a, 0x91, 0x11, 0x41, 0x4f, 0x67, 0xdc, 0xea, 0x97, 0xf2, 0xcf, 0xce, 0xf0, 0xb4, 0xe6, 0x73)
          else
            Entry(low, 0x96, 0xac, 0x74, 0x22, 0xe7, 0xad, 0x35, 0x85, 0xe2, 0xf9, 0x37, 0xe8, 0x1c, 0x75, 0xdf, 0x6e)
        else
          if b < 0xb0 then
            Entry(low, 0x47, 0xf1, 0x1a, 0x71, 0x1d, 0x29, 0xc5, 0x89, 0x6f, 0xb7, 0x62, 0x0e, 0xaa, 0x18, 0xbe, 0x1b)
          else
            Entry(low, 0xfc, 0x56, 0x3e, 0x4b, 0xc6, 0xd2, 0x79, 0x20, 0x9a, 0xdb, 0xc0, 0xfe, 0x78, 0xcd, 0x5a, 0xf4)
      else
        if b < 0xe0 then
          if b < 0xd0 then
            Entry(low, 0x1f, 0xdd, 0xa8, 0x33, 0x88, 0x07, 0xc7, 0x31, 0xb1, 0x12, 0x10, 0x59, 0x27, 0x80, 0xec, 0x5f)
          else
            Entry(low, 0x60, 0x51, 0x7f, 0xa9, 0x19, 0xb5, 0x4a, 0x0d, 0x2d, 0xe5, 0x7a, 0x9f, 0x93, 0xc9, 0x9c, 0xef)
        else
          if b < 0xf0 then
            Entry(low, 0xa0, 0xe0, 0x3b, 0x4d, 0xae, 0x2a, 0xf5, 0xb0, 0xc8, 0xeb, 0xbb, 0x3c, 0x83, 0x53, 0x99, 0x61)
          else
            Entry(low, 0x17, 0x2b, 0x04, 0x7e, 0xba, 0x77, 0xd6, 0x26, 0xe1, 0x69, 0x14, 0x63, 0x55, 0x21, 0x0c, 0x7d)
  }

  /** Addition in GF(2^8) (section 4.1). */
  function Add(a: bv8, b: bv8): bv8 {
    a ^ b
  }

  function Sum(a: bv8, b: bv8, c: bv8, d: bv8): bv8 {
    Add(Add(a, b), Add(c, d))
  }

  /** Multiplication by {02} (section 4.2.1), as the cipher's macro has it. */
  function Xtime(x: bv8): bv8 {
    (x << 1) ^ (((x >> 7) & 1) * 0x1b)
  }

  /** The product of two bytes in GF(2^8): the sum of a * {02}^k over the set bits k of b. */
  function Times(a: bv8, b: bv8): bv8 {
    var a1 := Xtime(a);
    var a2 := Xtime(a1);
    var a3 := Xtime(a2);
    var a4 := Xtime(a3);
    var a5 := Xtime(a4);
    var a6 := Xtime(a5);
    var a7 := Xtime(a6);
    Pick(b, 0x01, a) ^ Pick(b, 0x02, a1) ^ Pick(b, 0x04, a2) ^ Pick(b, 0x08, a3) ^
    Pick(b, 0x10, a4) ^ Pick(b, 0x20, a5) ^ Pick(b, 0x40, a6) ^ Pick(b, 0x80, a7)
  }

  function Pick(b: bv8, bit: bv8, a: bv8): bv8 {
    if b & bit == 0 then 0 else a
  }

  /** {02}^k: the round constants of section 5.2. */
  function Power(k: nat): bv8 {
    if k == 0 then 1 else Xtime(Power(k - 1))
  }

  // ----- words -----

  function Plus(a: Word, b: Word): Word {
    Word(Add(a.b0, b.b0), Add(a.b1, b.b1), Add(a.b2, b.b2), Add(a.b3, b.b3))
  }

  function SubWord(w: Word): Word {
    Word(SBox(w.b0), SBox(w.b1), SBox(w.b2), SBox(w.b3))
  }

  function RotWord(w: Word): Word {
    Word(w.b1, w.b2, w.b3, w.b0)
  }

  /** Word `i` of the expanded key (figure 11 of FIPS 197); Nk is the length of the key. */
  function KeyWord(key: seq<Word>, i: nat): Word
    requires |key| > 0
  {
    if i < |key| then
      key[i]
    else
      Plus(KeyWord(key, i - |key|), Mangled(KeyWord(key, i - 1), |key|, i))
  }

  function Mangled(w: Word, nk: nat, i: nat): Word
    requires 0 < nk <= i
  {
    if i % nk == 0 then
      Plus(SubWord(RotWord(w)), Word(RoundConstant(i / nk), 0, 0, 0))
    else if nk > 6 && i % nk == 4 then
      SubWord(w)
    else
      w
  }

  function RoundConstant(n: int): bv8 {
    if n > 0 then Power(n - 1) else 0
  }

  // ----- rounds -----

  function SubBlock(b: Block): Block {
    Block(SubWord(b.c0), SubWord(b.c1), SubWord(b.c2), SubWord(b.c3))
  }

  /** Row r moves r places to the left. */
  function ShiftBlock(b: Block): Block {
    Block(Word(b.c0.b0, b.c1.b1, b.c2.b2, b.c3.b3),
          Word(b.c1.b0, b.c2.b1, b.c3.b2, b.c0.b3),
          Word(b.c2.b0, b.c3.b1, b.c0.b2, b.c1.b3),
          Word(b.c3.b0, b.c0.b1, b.c1.b2, b.c2.b3))
  }

  /** The row (p q r s) times a column. */
  function Dot(p: bv8, q: bv8, r: bv8, s: bv8, w: Word): bv8 {
    Sum(Times(w.b0, p), Times(w.b1, q), Times(w.b2, r), Times(w.b3, s))
  }

  /** A column times the circulant matrix whose first row is (p q r s). */
  function Circulant(p: bv8, q: bv8, r: bv8, s: bv8, w: Word): Word {
    Word(Dot(p, q, r, s, w), Dot(s, p, q, r, w), Dot(r, s, p, q, w), Dot(q, r, s, p, w))
  }

  function MixWord(w: Word): Word {
    Circulant(2, 3, 1, 1, w)
  }

  function MixBlock(b: Block): Block {
    Block(MixWord(b.c0), MixWord(b.c1), MixWord(b.c2), MixWord(b.c3))
  }

  function AddKey(key: seq<Word>, round: nat, b: Block): Block
    requires |key| > 0
  {
    Block(Plus(b.c0, KeyWord(key, 4 * round)), Plus(b.c1, KeyWord(key, 4 * round + 1)),
          Plus(b.c2, KeyWord(key, 4 * round + 2)), Plus(b.c3, KeyWord(key, 4 * round + 3)))
  }

  /** The state after the initial key addition and `n` full rounds. */
  function Rounds(key: seq<Word>, n: nat, b: Block): Block
    requires |key| > 0
  {
    if n == 0 then AddKey(key, 0, b) else AddKey(key, n, MixBlock(ShiftBlock(SubBlock(Rounds(key, n - 1, b)))))
  }

  /** The cipher (figure 5 of FIPS 197). */
  function Encrypt(key: seq<Word>, b: Block): Block
    requires |key| > 0
  {
    AddKey(key, |key| + 6, ShiftBlock(SubBlock(Rounds(key, |key| + 5, b))))
  }

  // ----- the inverse cipher (section 5.3 of FIPS 197) -----

  function InvSubWord(w: Word): Word {
    Word(InvSBox(w.b0), InvSBox(w.b1), InvSBox(w.b2), InvSBox(w.b3))
  }

  function InvSubBlock(b: Block): Block {
    Block(InvSubWord(b.c0), InvSubWord(b.c1), InvSubWord(b.c2), InvSubWord(b.c3))
  }

  /** Row r moves r places to the right. */
  function InvShiftBlock(b: Block): Block {
    Block(Word(b.c0.b0, b.c3.b1, b.c2.b2, b.c1.b3),
          Word(b.c1.b0, b.c0.b1, b.c3.b2, b.c2.b3),
          Word(b.c2.b0, b.c1.b1, b.c0.b2, b.c3.b3),
          Word(b.c3.b0, b.c2.b1, b.c1.b2, b.c0.b3))
  }

  function InvMixWord(w: Word): Word {
    Circulant(0x0e, 0x0b, 0x0d, 0x09, w)
  }

  function InvMixBlock(b: Block): Block {
    Block(InvMixWord(b.c0), InvMixWord(b.c1), InvMixWord(b.c2), InvMixWord(b.c3))
  }

  /** Undoes `n` full rounds and the initial key addition. */
  function InvRounds(key: seq<Word>, n: nat, b: Block): Block
    requires |key| > 0
  {
    if n == 0 then
      AddKey(key, 0, b)
    else
      InvRounds(key, n - 1, InvSubBlock(InvShiftBlock(InvMixBlock(AddKey(key, n, b)))))
  }

  function Decrypt(key: seq<Word>, b: Block): Block
    requires |key| > 0
  {
    InvRounds(key, |key| + 5, InvSubBlock(InvShiftBlock(AddKey(key, |key| + 6, b))))
  }

  // ----- the tables are inverse to each other -----

  lemma {:induction false} InvSubAfterSub0(b: bv8)
    requires 0x00 <= b < 0x40
    ensures InvSBox(SBox(b)) == b
  {
  }

  lemma {:induction false} InvSubAfterSub1(b: bv8)
    requires 0x40 <= b < 0x80
    ensures InvSBox(SBox(b)) == b
  {
  }

  lemma {:induction false} InvSubAfterSub2(b: bv8)
    requires 0x80 <= b < 0xc0
    ensures InvSBox(SBox(b)) == b
  {
  }

  lemma {:induction false} InvSubAfterSub3(b: bv8)
    requires 0xc0 <= b
    ensures InvSBox(SBox(b)) == b
  {
  }

  lemma {:induction false} SubAfterInvSub0(b: bv8)
    requires 0x00 <= b < 0x40
    ensures SBox(InvSBox(b)) == b
  {
  }

  lemma {:induction false} SubAfterInvSub1(b: bv8)
    requires 0x40 <= b < 0x80
    ensures SBox(InvSBox(b)) == b
  {
  }

  lemma {:induction false} SubAfterInvSub2(b: bv8)
    requires 0x80 <= b < 0xc0
    ensures SBox(InvSBox(b)) == b
  {
  }

  lemma {:induction false} SubAfterInvSub3(b: bv8)
    requires 0xc0 <= b
    ensures SBox(InvSBox(b)) == b
  {
  }

  lemma {:induction false} TablesAreInverse(b: bv8)
    ensures InvSBox(SBox(b)) == b && SBox(InvSBox(b)) == b
  {
    hide SBox;
    hide InvSBox;
    if b < 0x40 {
      InvSubAfterSub0(b);
      SubAfterInvSub0(b);
    } else if b < 0x80 {
      InvSubAfterSub1(b);
      SubAfterInvSub1(b);
    } else if b < 0xc0 {
      InvSubAfterSub2(b);
      SubAfterInvSub2(b);
    } else {
      InvSubAfterSub3(b);
      SubAfterInvSub3(b);
    }
  }

  // ----- the table is the substitution of section 5.1.1 of FIPS 197 -----

  function RotateLeft(x: bv8, n: nat): bv8
    requires n < 8
  {
    (x << n) | (x >> (8 - n))
  }

  /** The affine map of equation 5.1. */
  function Affine(x: bv8): bv8 {
    x ^ RotateLeft(x, 1) ^ RotateLeft(x, 2) ^ RotateLeft(x, 3) ^ RotateLeft(x, 4) ^ 0x63
  }

  /** The affine map backwards. */
  function Unmapped(y: bv8): bv8 {
    RotateLeft(y, 1) ^ RotateLeft(y, 3) ^ RotateLeft(y, 6) ^ 0x05
  }

  lemma {:induction false} AffineOfUnmapped(y: bv8)
    ensures Affine(Unmapped(y)) == y
  {
  }

  lemma {:induction false} EntryIsInverse0(b: bv8)
    requires 0x00 < b < 0x20
    ensures Times(b, Unmapped(SBox(b))) == 1
  {
  }

  lemma {:induction false} EntryIsInverse1(b: bv8)
    requires 0x20 <= b < 0x40
    ensures Times(b, Unmapped(SBox(b))) == 1
  {
  }

  lemma {:induction false} EntryIsInverse2(b: bv8)
    requires 0x40 <= b < 0x60
    ensures Times(b, Unmapped(SBox(b))) == 1
  {
  }

  lemma {:induction false} EntryIsInverse3(b: bv8)
    requires 0x60 <= b < 0x80
    ensures Times(b, Unmapped(SBox(b))) == 1
  {
  }

  lemma {:induction false} EntryIsInverse4(b: bv8)
    requires 0x80 <= b < 0xa0
    ensures Times(b, Unmapped(SBox(b))) == 1
  {
  }

  lemma {:induction false} EntryIsInverse5(b: bv8)
    requires 0xa0 <= b < 0xc0
    ensures Times(b, Unmapped(SBox(b))) == 1
  {
  }

  lemma {:induction false} EntryIsInverse6(b: bv8)
    requires 0xc0 <= b < 0xe0
    ensures Times(b, Unmapped(SBox(b))) == 1
  {
  }

  lemma {:induction false} EntryIsInverse7(b: bv8)
    requires 0xe0 <= b
    ensures Times(b, Unmapped(SBox(b))) == 1
  {
  }

  /** Every byte but zero has an inverse, the one its entry was made from. */
  lemma {:induction false} HasInverse(b: bv8)
    requires b != 0
    ensures Times(b, Unmapped(SBox(b))) == 1
  {
    hide Times;
    hide SBox;
    hide Unmapped;
    if b < 0x20 {
      EntryIsInverse0(b);
    } else if b < 0x40 {
      EntryIsInverse1(b);
    } else if b < 0x60 {
      EntryIsInverse2(b);
    } else if b < 0x80 {
      EntryIsInverse3(b);
    } else if b < 0xa0 {
      EntryIsInverse4(b);
    } else if b < 0xc0 {
      EntryIsInverse5(b);
    } else if b < 0xe0 {
      EntryIsInverse6(b);
    } else {
      EntryIsInverse7(b);
    }
  }

  lemma {:induction false} NoZeroDivisor0(b: bv8, z: bv8)
    requires 0x00 < b < 0x40 && Times(b, z) == 0
    ensures z == 0
  {
  }

  lemma {:induction false} NoZeroDivisor1(b: bv8, z: bv8)
    requires 0x40 <= b < 0x80 && Times(b, z) == 0
    ensures z == 0
  {
  }

  lemma {:induction false} NoZeroDivisor2(b: bv8, z: bv8)
    requires 0x80 <= b < 0xc0 && Times(b, z) == 0
    ensures z == 0
  {
  }

  lemma {:induction false} NoZeroDivisor3(b: bv8, z: bv8)
    requires 0xc0 <= b && Times(b, z) == 0
    ensures z == 0
  {
  }

  lemma {:induction false} NoZeroDivisors(b: bv8, z: bv8)
    requires b != 0 && Times(b, z) == 0
    ensures z == 0
  {
    hide Times;
    if b < 0x40 {
      NoZeroDivisor0(b, z);
    } else if b < 0x80 {
      NoZeroDivisor1(b, z);
    } else if b < 0xc0 {
      NoZeroDivisor2(b, z);
    } else {
      NoZeroDivisor3(b, z);
    }
  }

  lemma {:induction false} XorGroups(p0: bv8, p1: bv8, p2: bv8, p3: bv8, p4: bv8, p5: bv8, p6: bv8, p7: bv8)
    ensures p0 ^ p1 ^ p2 ^ p3 ^ p4 ^ p5 ^ p6 ^ p7 == Add(Sum(p0, p1, p2, p3), Sum(p4, p5, p6, p7))
  {
  }

  lemma {:induction false} TimesPicks(a: bv8, b: bv8)
    ensures var a1 := Xtime(a);
            var a2 := Xtime(a1);
            var a3 := Xtime(a2);
            var a4 := Xtime(a3);
            var a5 := Xtime(a4);
            var a6 := Xtime(a5);
            var a7 := Xtime(a6);
            Times(a, b) ==
            Add(Sum(Pick(b, 0x01, a), Pick(b, 0x02, a1), Pick(b, 0x04, a2), Pick(b, 0x08, a3)),
                Sum(Pick(b, 0x10, a4), Pick(b, 0x20, a5), Pick(b, 0x40, a6), Pick(b, 0x80, a7)))
  {
    hide Xtime;
    hide Pick;
    hide Add;
    hide Sum;
    var a1 := Xtime(a);
    var a2 := Xtime(a1);
    var a3 := Xtime(a2);
    var a4 := Xtime(a3);
    var a5 := Xtime(a4);
    var a6 := Xtime(a5);
    var a7 := Xtime(a6);
    XorGroups(Pick(b, 0x01, a), Pick(b, 0x02, a1), Pick(b, 0x04, a2), Pick(b, 0x08, a3),
              Pick(b, 0x10, a4), Pick(b, 0x20, a5), Pick(b, 0x40, a6), Pick(b, 0x80, a7));
  }

  lemma {:induction false} BitAdds(x: bv8, y: bv8, bit: bv8)
    requires bit in {0x01, 0x02, 0x04, 0x08, 0x10, 0x20, 0x40, 0x80}
    ensures (Add(x, y) & bit == 0) == ((x & bit == 0) == (y & bit == 0))
  {
  }

  lemma {:induction false} PickAdds(x: bv8, y: bv8, bit: bv8, a: bv8)
    requires bit in {0x01, 0x02, 0x04, 0x08, 0x10, 0x20, 0x40, 0x80}
    ensures Pick(Add(x, y), bit, a) == Add(Pick(x, bit, a), Pick(y, bit, a))
  {
    BitAdds(x, y, bit);
    AddZero(a);
    hide Add;
  }

  lemma {:induction false} AddZero(a: bv8)
    ensures Add(a, 0) == a && Add(0, a) == a && Add(a, a) == 0 && Add(0, 0) == 0
  {
  }

  lemma {:induction false} TimesAdds(a: bv8, x: bv8, y: bv8)
    ensures Times(a, Add(x, y)) == Add(Times(a, x), Times(a, y))
  {
    hide Xtime;
    hide Pick;
    hide Add;
    hide Sum;
    hide Times;
    TimesPicks(a, x);
    TimesPicks(a, y);
    TimesPicks(a, Add(x, y));
    var a1 := Xtime(a);
    var a2 := Xtime(a1);
    var a3 := Xtime(a2);
    var a4 := Xtime(a3);
    var a5 := Xtime(a4);
    var a6 := Xtime(a5);
    var a7 := Xtime(a6);
    PickAdds(x, y, 0x01, a);
    PickAdds(x, y, 0x02, a1);
    PickAdds(x, y, 0x04, a2);
    PickAdds(x, y, 0x08, a3);
    PickAdds(x, y, 0x10, a4);
    PickAdds(x, y, 0x20, a5);
    PickAdds(x, y, 0x40, a6);
    PickAdds(x, y, 0x80, a7);
    SumSplits(Pick(x, 0x01, a), Pick(x, 0x02, a1), Pick(x, 0x04, a2), Pick(x, 0x08, a3),
              Pick(y, 0x01, a), Pick(y, 0x02, a1), Pick(y, 0x04, a2), Pick(y, 0x08, a3));
    SumSplits(Pick(x, 0x10, a4), Pick(x, 0x20, a5), Pick(x, 0x40, a6), Pick(x, 0x80, a7),
              Pick(y, 0x10, a4), Pick(y, 0x20, a5), Pick(y, 0x40, a6), Pick(y, 0x80, a7));
    AddSwap(Sum(Pick(x, 0x01, a), Pick(x, 0x02, a1), Pick(x, 0x04, a2), Pick(x, 0x08, a3)),
            Sum(Pick(y, 0x01, a), Pick(y, 0x02, a1), Pick(y, 0x04, a2), Pick(y, 0x08, a3)),
            Sum(Pick(x, 0x10, a4), Pick(x, 0x20, a5), Pick(x, 0x40, a6), Pick(x, 0x80, a7)),
            Sum(Pick(y, 0x10, a4), Pick(y, 0x20, a5), Pick(y, 0x40, a6), Pick(y, 0x80, a7)));
  }

  lemma {:induction false} AddIsZero(x: bv8, y: bv8)
    ensures Add(x, y) == 0 <==> x == y
  {
  }

  lemma {:induction false} InverseIsUnique(b: bv8, x: bv8, y: bv8)
    requires b != 0 && Times(b, x) == Times(b, y)
    ensures x == y
  {
    hide Times;
    hide Add;
    TimesAdds(b, x, y);
    AddIsZero(Times(b, x), Times(b, y));
    AddIsZero(x, y);
    NoZeroDivisors(b, Add(x, y));
  }

  /** The table is the affine map of the inverse in GF(2^8), where zero stands for its own inverse. */
  lemma {:induction false} TableIsAffineInverse(b: bv8, x: bv8)
    requires if b == 0 then x == 0 else Times(b, x) == 1
    ensures SBox(b) == Affine(x)
  {
    if b != 0 {
      hide Times;
      hide Unmapped;
      hide SBox;
      hide Affine;
      HasInverse(b);
      InverseIsUnique(b, x, Unmapped(SBox(b)));
      AffineOfUnmapped(SBox(b));
    }
  }

  // ----- the column matrices are inverse to each other -----

  lemma {:induction false} Times01(a: bv8)
    ensures Times(a, 0x01) == a
  {
    hide Xtime;
  }

  lemma {:induction false} Times02(a: bv8)
    ensures Times(a, 0x02) == Xtime(a)
  {
    hide Xtime;
  }

  lemma {:induction false} Times03(a: bv8)
    ensures Times(a, 0x03) == Add(Xtime(a), a)
  {
    hide Xtime;
  }

  lemma {:induction false} Times09(a: bv8)
    ensures Times(a, 0x09) == Add(Xtime(Xtime(Xtime(a))), a)
  {
    hide Xtime;
  }

  lemma {:induction false} Times0B(a: bv8)
    ensures Times(a, 0x0b) == Add(Add(Xtime(Xtime(Xtime(a))), Xtime(a)), a)
  {
    hide Xtime;
  }

  lemma {:induction false} Times0D(a: bv8)
    ensures Times(a, 0x0d) == Add(Add(Xtime(Xtime(Xtime(a))), Xtime(Xtime(a))), a)
  {
    hide Xtime;
  }

  lemma {:induction false} Times0E(a: bv8)
    ensures Times(a, 0x0e) == Add(Add(Xtime(Xtime(Xtime(a))), Xtime(Xtime(a))), Xtime(a))
  {
    hide Xtime;
  }

  lemma {:induction false} AddAssociates(a: bv8, b: bv8, c: bv8)
    ensures Add(Add(a, b), c) == Add(a, Add(b, c))
  {
  }

  lemma {:induction false} AddCommutes(a: bv8, b: bv8)
    ensures Add(a, b) == Add(b, a)
  {
  }

  lemma {:induction false} AddCancels(a: bv8, b: bv8, u: bv8)
    ensures Add(Add(a, u), Add(b, u)) == Add(a, b)
    ensures Add(Add(a, u), u) == a
  {
  }

  lemma {:induction false} AddSwap(a: bv8, b: bv8, c: bv8, d: bv8)
    ensures Add(Add(a, b), Add(c, d)) == Add(Add(a, c), Add(b, d))
  {
    hide Add;
    AddAssociates(a, b, Add(c, d));
    AddAssociates(b, c, d);
    AddCommutes(b, c);
    AddAssociates(c, b, d);
    AddAssociates(a, c, Add(b, d));
  }

  lemma {:induction false} XtimeAdds(a: bv8, b: bv8)
    ensures Xtime(Add(a, b)) == Add(Xtime(a), Xtime(b))
  {
  }

  /** One byte of a column product done cheaply: the byte, the sum of the column, one doubling. */
  function FastByte(a: bv8, b: bv8, sum: bv8): bv8 {
    Add(Add(a, Xtime(Add(a, b))), sum)
  }

  function FastMix(w: Word): Word {
    var sum := Sum(w.b0, w.b1, w.b2, w.b3);
    Word(FastByte(w.b0, w.b1, sum), FastByte(w.b1, w.b2, sum), FastByte(w.b2, w.b3, sum), FastByte(w.b3, w.b0, sum))
  }

  lemma {:induction false} Rotate(a: bv8, b: bv8, c: bv8, d: bv8)
    ensures Sum(a, b, c, d) == Sum(b, c, d, a)
  {
    hide Add;
    AddSwap(b, a, c, d);
    AddCommutes(a, b);
    AddCommutes(a, d);
  }

  lemma {:induction false} FastSum(a: bv8, b: bv8, c: bv8, d: bv8, p: bv8, q: bv8)
    ensures Sum(p, Add(q, b), c, d) == Add(Add(a, Add(p, q)), Sum(a, b, c, d))
  {
    hide Add;
    AddAssociates(p, q, b);
    AddAssociates(Add(a, Add(p, q)), Add(a, b), Add(c, d));
    AddCommutes(a, Add(p, q));
    AddCommutes(a, b);
    AddCancels(Add(p, q), b, a);
  }

  lemma {:induction false} FastByteIsDot(a: bv8, b: bv8, c: bv8, d: bv8)
    ensures var byte := FastByte(a, b, Sum(a, b, c, d));
            && Sum(Times(a, 2), Times(b, 3), Times(c, 1), Times(d, 1)) == byte
            && Sum(Times(d, 1), Times(a, 2), Times(b, 3), Times(c, 1)) == byte
            && Sum(Times(c, 1), Times(d, 1), Times(a, 2), Times(b, 3)) == byte
            && Sum(Times(b, 3), Times(c, 1), Times(d, 1), Times(a, 2)) == byte
  {
    hide Xtime;
    hide Times;
    hide Add;
    hide Sum;
    Times02(a);
    Times03(b);
    Times01(c);
    Times01(d);
    XtimeAdds(a, b);
    FastSum(a, b, c, d, Xtime(a), Xtime(b));
    Rotate(Times(c, 1), Times(d, 1), Times(a, 2), Times(b, 3));
    Rotate(Times(d, 1), Times(a, 2), Times(b, 3), Times(c, 1));
    Rotate(Times(a, 2), Times(b, 3), Times(c, 1), Times(d, 1));
  }

  /** The cheap form is the matrix product of section 5.1.3. */
  lemma {:induction false} FastMixIsMix(w: Word)
    ensures FastMix(w) == MixWord(w)
  {
    hide Xtime;
    hide Times;
    hide Add;
    hide Sum;
    hide FastByte;
    FastByteIsDot(w.b0, w.b1, w.b2, w.b3);
    FastByteIsDot(w.b1, w.b2, w.b3, w.b0);
    FastByteIsDot(w.b2, w.b3, w.b0, w.b1);
    FastByteIsDot(w.b3, w.b0, w.b1, w.b2);
    Rotate(w.b0, w.b1, w.b2, w.b3);
    Rotate(w.b1, w.b2, w.b3, w.b0);
    Rotate(w.b2, w.b3, w.b0, w.b1);
  }

  /** The square of the column matrix is the circulant (5 0 4 0), which is its own inverse. */
  function Fold(w: Word): Word {
    var u, v := Xtime(Xtime(Add(w.b0, w.b2))), Xtime(Xtime(Add(w.b1, w.b3)));
    Word(Add(w.b0, u), Add(w.b1, v), Add(w.b2, u), Add(w.b3, v))
  }

  lemma {:induction false} FoldTwice(w: Word)
    ensures Fold(Fold(w)) == w
  {
    hide Xtime;
    hide Add;
    var u, v := Xtime(Xtime(Add(w.b0, w.b2))), Xtime(Xtime(Add(w.b1, w.b3)));
    AddCancels(w.b0, w.b2, u);
    AddCancels(w.b1, w.b3, v);
    AddCancels(w.b2, w.b0, u);
    AddCancels(w.b3, w.b1, v);
  }

  lemma {:induction false} AddTelescopes(a: bv8, b: bv8, c: bv8)
    ensures Add(Add(a, b), Add(b, c)) == Add(a, c)
  {
    hide Add;
    AddCommutes(b, c);
    AddCancels(a, c, b);
  }

  lemma {:induction false} TwoSums(a: bv8, b: bv8, c: bv8, p: bv8, q: bv8, s: bv8, z: bv8)
    ensures Add(Add(Add(a, p), s), Add(Add(b, q), s)) == Add(Add(a, b), Add(p, q))
    ensures Add(Add(Add(Add(a, p), s), Add(p, z)), s) == Add(a, z)
  {
    hide Add;
    AddCancels(Add(a, p), Add(b, q), s);
    AddSwap(a, p, b, q);
    AddAssociates(Add(a, p), s, Add(p, z));
    AddCommutes(s, Add(p, z));
    AddAssociates(Add(a, p), Add(p, z), s);
    AddCancels(Add(Add(a, p), Add(p, z)), a, s);
    AddTelescopes(a, p, z);
  }

  lemma {:induction false} TwoBytes(a: bv8, b: bv8, c: bv8, s: bv8)
    ensures FastByte(FastByte(a, b, s), FastByte(b, c, s), s) == Add(a, Xtime(Xtime(Add(a, c))))
  {
    hide Xtime;
    hide Add;
    var p, q := Xtime(Add(a, b)), Xtime(Add(b, c));
    XtimeAdds(Add(a, b), Add(b, c));
    XtimeAdds(Add(a, b), Add(p, q));
    AddTelescopes(a, b, c);
    TwoSums(a, b, c, p, q, s, Xtime(Add(p, q)));
  }

  lemma {:induction false} SumOfSums(a: bv8, b: bv8, c: bv8, d: bv8, p: bv8, q: bv8, r: bv8, t: bv8)
    ensures var s := Sum(a, b, c, d);
            Sum(Add(Add(a, p), s), Add(Add(b, q), s), Add(Add(c, r), s), Add(Add(d, t), s)) == Add(s, Sum(p, q, r, t))
  {
    hide Add;
    var s := Sum(a, b, c, d);
    AddCancels(Add(a, p), Add(b, q), s);
    AddCancels(Add(c, r), Add(d, t), s);
    AddSwap(a, p, b, q);
    AddSwap(c, r, d, t);
    AddSwap(Add(a, b), Add(p, q), Add(c, d), Add(r, t));
  }

  lemma {:induction false} SumIsKept(a: bv8, b: bv8, c: bv8, d: bv8, s: bv8)
    requires s == Sum(a, b, c, d)
    ensures Sum(FastByte(a, b, s), FastByte(b, c, s), FastByte(c, d, s), FastByte(d, a, s)) == s
  {
    hide Xtime;
    hide Add;
    SumOfSums(a, b, c, d, Xtime(Add(a, b)), Xtime(Add(b, c)), Xtime(Add(c, d)), Xtime(Add(d, a)));
    XtimeAdds(Add(a, b), Add(b, c));
    XtimeAdds(Add(c, d), Add(d, a));
    AddTelescopes(a, b, c);
    AddTelescopes(c, d, a);
    AddCommutes(a, c);
    AddSelf(Xtime(Add(a, c)), s);
  }

  lemma {:induction false} AddSelf(a: bv8, s: bv8)
    ensures Add(a, a) == 0 && Add(s, 0) == s
  {
  }

  /** The square of the cheap form. */
  lemma {:induction false} FastMixTwice(w: Word)
    ensures FastMix(FastMix(w)) == Fold(w)
  {
    hide Xtime;
    hide Add;
    hide Sum;
    hide FastByte;
    var s := Sum(w.b0, w.b1, w.b2, w.b3);
    SumIsKept(w.b0, w.b1, w.b2, w.b3, s);
    TwoBytes(w.b0, w.b1, w.b2, s);
    TwoBytes(w.b1, w.b2, w.b3, s);
    TwoBytes(w.b2, w.b3, w.b0, s);
    TwoBytes(w.b3, w.b0, w.b1, s);
    AddCommutes(w.b0, w.b2);
    AddCommutes(w.b1, w.b3);
  }

  lemma {:induction false} SumSplits(a: bv8, b: bv8, c: bv8, d: bv8, p: bv8, q: bv8, r: bv8, t: bv8)
    ensures Sum(Add(a, p), Add(b, q), Add(c, r), Add(d, t)) == Add(Sum(a, b, c, d), Sum(p, q, r, t))
  {
    hide Add;
    AddSwap(a, p, b, q);
    AddSwap(c, r, d, t);
    AddSwap(Add(a, b), Add(p, q), Add(c, d), Add(r, t));
  }

  lemma {:induction false} InverseSumLow(a1: bv8, a2: bv8, b: bv8, b1: bv8, c: bv8, c2: bv8, d: bv8)
    ensures Sum(Add(a2, a1), Add(b1, b), Add(c2, c), d) == Add(Add(Add(a2, c2), Add(a1, b1)), Add(b, Add(c, d)))
  {
    hide Add;
    var m := Add(a1, b1);
    AddAssociates(Add(a2, a1), b1, b);
    AddAssociates(a2, a1, b1);
    AddAssociates(c2, c, d);
    AddSwap(Add(a2, m), b, c2, Add(c, d));
    AddCommutes(Add(a2, m), c2);
    AddAssociates(c2, a2, m);
    AddCommutes(c2, a2);
  }

  lemma {:induction false} InverseSumHigh(a: bv8, b: bv8, c: bv8, d: bv8, u: bv8, m: bv8, z: bv8)
    ensures Add(Add(Add(a, u), Add(m, z)), Sum(a, b, c, d)) == Add(z, Add(Add(u, m), Add(b, Add(c, d))))
  {
    hide Add;
    var k, r := Add(u, Add(m, z)), Add(b, Add(c, d));
    AddAssociates(a, u, Add(m, z));
    AddAssociates(a, b, Add(c, d));
    AddCommutes(a, k);
    AddCommutes(a, r);
    AddCancels(k, r, a);
    AddAssociates(u, m, z);
    AddCommutes(Add(u, m), z);
    AddAssociates(z, Add(u, m), r);
  }

  /** One byte of the inverse column product, as a cheap round on the folded column. */
  lemma {:induction false} InverseByte(a: bv8, b: bv8, c: bv8, d: bv8)
    ensures FastByte(Add(a, Xtime(Xtime(Add(a, c)))), Add(b, Xtime(Xtime(Add(b, d)))), Sum(a, b, c, d)) ==
            Sum(Times(a, 0x0e), Times(b, 0x0b), Times(c, 0x0d), Times(d, 0x09))
  {
    hide Xtime;
    hide Times;
    hide Add;
    hide Sum;
    var a1, b1, c1, d1 := Xtime(a), Xtime(b), Xtime(c), Xtime(d);
    var a2, b2, c2, d2 := Xtime(a1), Xtime(b1), Xtime(c1), Xtime(d1);
    var a3, b3, c3, d3 := Xtime(a2), Xtime(b2), Xtime(c2), Xtime(d2);
    var u, v, z := Add(a2, c2), Add(b2, d2), Sum(a3, b3, c3, d3);
    calc {
      Sum(Times(a, 0x0e), Times(b, 0x0b), Times(c, 0x0d), Times(d, 0x09));
      { Times0E(a); Times0B(b); Times0D(c); Times09(d); }
      Sum(Add(Add(a3, a2), a1), Add(Add(b3, b1), b), Add(Add(c3, c2), c), Add(d3, d));
      { AddAssociates(a3, a2, a1); AddAssociates(b3, b1, b); AddAssociates(c3, c2, c); }
      Sum(Add(a3, Add(a2, a1)), Add(b3, Add(b1, b)), Add(c3, Add(c2, c)), Add(d3, d));
      { SumSplits(a3, b3, c3, d3, Add(a2, a1), Add(b1, b), Add(c2, c), d); InverseSumLow(a1, a2, b, b1, c, c2, d); }
      Add(z, Add(Add(u, Add(a1, b1)), Add(b, Add(c, d))));
      { InverseSumHigh(a, b, c, d, u, Add(a1, b1), z); }
      Add(Add(Add(a, u), Add(Add(a1, b1), z)), Sum(a, b, c, d));
    }
    XtimeAdds(a, c);
    XtimeAdds(a1, c1);
    XtimeAdds(b, d);
    XtimeAdds(b1, d1);
    InverseDoubling(a, b, u, v, z, a2, b2, c2, d2);
  }

  lemma {:induction false} InverseDoubling(a: bv8, b: bv8, u: bv8, v: bv8, z: bv8, a2: bv8, b2: bv8, c2: bv8, d2: bv8)
    requires u == Add(a2, c2) && v == Add(b2, d2)
    requires z == Sum(Xtime(a2), Xtime(b2), Xtime(c2), Xtime(d2))
    ensures Xtime(Add(Add(a, u), Add(b, v))) == Add(Add(Xtime(a), Xtime(b)), z)
  {
    hide Xtime;
    hide Add;
    AddSwap(a, u, b, v);
    XtimeAdds(Add(a, b), Add(u, v));
    XtimeAdds(a, b);
    XtimeAdds(u, v);
    XtimeAdds(a2, c2);
    XtimeAdds(b2, d2);
    AddSwap(Xtime(a2), Xtime(c2), Xtime(b2), Xtime(d2));
  }

  lemma {:induction false} FoldKeepsSum(w: Word)
    ensures var f := Fold(w); Sum(f.b0, f.b1, f.b2, f.b3) == Sum(w.b0, w.b1, w.b2, w.b3)
  {
    hide Xtime;
    hide Add;
    var u, v := Xtime(Xtime(Add(w.b0, w.b2))), Xtime(Xtime(Add(w.b1, w.b3)));
    SumSplits(w.b0, w.b1, w.b2, w.b3, u, v, u, v);
    AddSelf(Add(u, v), Sum(w.b0, w.b1, w.b2, w.b3));
  }

  /** The inverse matrix of section 5.3.3 is the column matrix times its own square. */
  lemma {:induction false} InverseIsFold(w: Word)
    ensures InvMixWord(w) == FastMix(Fold(w))
  {
    hide Xtime;
    hide Times;
    hide Add;
    hide Sum;
    hide FastByte;
    var Word(a, b, c, d) := w;
    FoldKeepsSum(w);
    AddCommutes(a, c);
    AddCommutes(b, d);
    InverseByte(a, b, c, d);
    InverseByte(b, c, d, a);
    InverseByte(c, d, a, b);
    InverseByte(d, a, b, c);
    Rotate(a, b, c, d);
    Rotate(b, c, d, a);
    Rotate(c, d, a, b);
    Rotations(Times(b, 0x0e), Times(c, 0x0b), Times(d, 0x0d), Times(a, 0x09));
    Rotations(Times(c, 0x0e), Times(d, 0x0b), Times(a, 0x0d), Times(b, 0x09));
    Rotations(Times(d, 0x0e), Times(a, 0x0b), Times(b, 0x0d), Times(c, 0x09));
  }

  lemma {:induction false} Rotations(a: bv8, b: bv8, c: bv8, d: bv8)
    ensures Sum(a, b, c, d) == Sum(d, a, b, c) == Sum(c, d, a, b) == Sum(b, c, d, a)
  {
    hide Sum;
    Rotate(a, b, c, d);
    Rotate(b, c, d, a);
    Rotate(c, d, a, b);
  }

  lemma {:induction false} MixIsInvertible(w: Word)
    ensures InvMixWord(MixWord(w)) == w && MixWord(InvMixWord(w)) == w
  {
    hide MixWord;
    hide InvMixWord;
    hide FastMix;
    hide Fold;
    FastMixIsMix(w);
    InverseIsFold(FastMix(w));
    InverseIsFold(w);
    FastMixIsMix(FastMix(Fold(w)));
    FastMixTwice(w);
    FastMixTwice(Fold(w));
    FoldTwice(w);
    FastMixTwice(FastMix(w));
  }

  // ----- the cipher is a permutation of the blocks -----

  lemma {:induction false} AddKeyTwice(key: seq<Word>, round: nat, b: Block)
    requires |key| > 0
    ensures AddKey(key, round, AddKey(key, round, b)) == b
  {
    hide KeyWord;
    PlusTwice(b.c0, KeyWord(key, 4 * round));
    PlusTwice(b.c1, KeyWord(key, 4 * round + 1));
    PlusTwice(b.c2, KeyWord(key, 4 * round + 2));
    PlusTwice(b.c3, KeyWord(key, 4 * round + 3));
  }

  lemma {:induction false} PlusTwice(w: Word, k: Word)
    ensures Plus(Plus(w, k), k) == w
  {
    hide Add;
    AddCancels(w.b0, 0, k.b0);
    AddCancels(w.b1, 0, k.b1);
    AddCancels(w.b2, 0, k.b2);
    AddCancels(w.b3, 0, k.b3);
  }

  lemma {:induction false} SubWordIsInvertible(w: Word)
    ensures InvSubWord(SubWord(w)) == w && SubWord(InvSubWord(w)) == w
  {
    hide SBox;
    hide InvSBox;
    TablesAreInverse(w.b0);
    TablesAreInverse(w.b1);
    TablesAreInverse(w.b2);
    TablesAreInverse(w.b3);
  }

  lemma {:induction false} SubBlockIsInvertible(b: Block)
    ensures InvSubBlock(SubBlock(b)) == b && SubBlock(InvSubBlock(b)) == b
  {
    hide SubWord;
    hide InvSubWord;
    SubWordIsInvertible(b.c0);
    SubWordIsInvertible(b.c1);
    SubWordIsInvertible(b.c2);
    SubWordIsInvertible(b.c3);
  }

  lemma {:induction false} MixBlockIsInvertible(b: Block)
    ensures InvMixBlock(MixBlock(b)) == b && MixBlock(InvMixBlock(b)) == b
  {
    hide MixWord;
    hide InvMixWord;
    MixIsInvertible(b.c0);
    MixIsInvertible(b.c1);
    MixIsInvertible(b.c2);
    MixIsInvertible(b.c3);
  }

  lemma {:induction false} ShiftBlockIsInvertible(b: Block)
    ensures InvShiftBlock(ShiftBlock(b)) == b && ShiftBlock(InvShiftBlock(b)) == b
  {
  }

  lemma {:induction false} InvRoundsUndoRounds(key: seq<Word>, n: nat, b: Block)
    requires |key| > 0
    ensures InvRounds(key, n, Rounds(key, n, b)) == b
    decreases n
  {
    hide AddKey;
    hide MixBlock;
    hide InvMixBlock;
    hide ShiftBlock;
    hide InvShiftBlock;
    hide SubBlock;
    hide InvSubBlock;
    if n == 0 {
      AddKeyTwice(key, 0, b);
    } else {
      var before := Rounds(key, n - 1, b);
      var mixed := MixBlock(ShiftBlock(SubBlock(before)));
      AddKeyTwice(key, n, mixed);
      MixBlockIsInvertible(ShiftBlock(SubBlock(before)));
      ShiftBlockIsInvertible(SubBlock(before));
      SubBlockIsInvertible(before);
      InvRoundsUndoRounds(key, n - 1, b);
    }
  }

  lemma {:induction false} RoundsUndoInvRounds(key: seq<Word>, n: nat, b: Block)
    requires |key| > 0
    ensures Rounds(key, n, InvRounds(key, n, b)) == b
    decreases n
  {
    hide AddKey;
    hide MixBlock;
    hide InvMixBlock;
    hide ShiftBlock;
    hide InvShiftBlock;
    hide SubBlock;
    hide InvSubBlock;
    if n == 0 {
      AddKeyTwice(key, 0, b);
    } else {
      var unkeyed := AddKey(key, n, b);
      var unshifted := InvShiftBlock(InvMixBlock(unkeyed));
      RoundsUndoInvRounds(key, n - 1, InvSubBlock(unshifted));
      SubBlockIsInvertible(unshifted);
      ShiftBlockIsInvertible(InvMixBlock(unkeyed));
      MixBlockIsInvertible(unkeyed);
      AddKeyTwice(key, n, b);
    }
  }

  /** For each key, the cipher is a bijection on blocks, and the inverse cipher is its inverse. */
  lemma {:induction false} CipherIsBijective(key: seq<Word>, b: Block)
    requires |key| > 0
    ensures Decrypt(key, Encrypt(key, b)) == b
    ensures Encrypt(key, Decrypt(key, b)) == b
  {
    hide AddKey;
    hide ShiftBlock;
    hide InvShiftBlock;
    hide SubBlock;
    hide InvSubBlock;
    hide Rounds;
    hide InvRounds;
    var n := |key| + 5;
    var state := Rounds(key, n, b);
    AddKeyTwice(key, n + 1, ShiftBlock(SubBlock(state)));
    ShiftBlockIsInvertible(SubBlock(state));
    SubBlockIsInvertible(state);
    InvRoundsUndoRounds(key, n, b);
    var unkeyed := AddKey(key, n + 1, b);
    RoundsUndoInvRounds(key, n, InvSubBlock(InvShiftBlock(unkeyed)));
    SubBlockIsInvertible(InvShiftBlock(unkeyed));
    ShiftBlockIsInvertible(unkeyed);
    AddKeyTwice(key, n + 1, b);
  }
}

/** AESencript.c: the same computation on global arrays. */
module AesCipher {
  import opened Fips197

  /** The round constants as the program stores them. */
  function Rcon(i: nat): bv8
    requires i < 255
  {
    if i < 128 then
      if i < 64 then
        if i < 32 then
          if i < 16 then
            [0x8d, 0x01, 0x02, 0x04, 0x08, 0x10, 0x20, 0x40, 0x80, 0x1b, 0x36, 0x6c, 0xd8, 0xab, 0x4d, 0x9a][i - 0]
          else
            [0x2f, 0x5e, 0xbc, 0x63, 0xc6, 0x97, 0x35, 0x6a, 0xd4, 0xb3, 0x7d, 0xfa, 0xef, 0xc5, 0x91, 0x39][i - 16]
        else
          if i < 48 then
            [0x72, 0xe4, 0xd3, 0xbd, 0x61, 0xc2, 0x9f, 0x25, 0x4a, 0x94, 0x33, 0x66, 0xcc, 0x83, 0x1d, 0x3a][i - 32]
          else
            [0x74, 0xe8, 0xcb, 0x8d, 0x01, 0x02, 0x04, 0x08, 0x10, 0x20, 0x40, 0x80, 0x1b, 0x36, 0x6c, 0xd8][i - 48]
      else
        if i < 96 then
          if i < 80 then
            [0xab, 0x4d, 0x9a, 0x2f, 0x5e, 0xbc, 0x63, 0xc6, 0x97, 0x35, 0x6a, 0xd4, 0xb3, 0x7d, 0xfa, 0xef][i - 64]
          else
            [0xc5, 0x91, 0x39, 0x72, 0xe4, 0xd3, 0xbd, 0x61, 0xc2, 0x9f, 0x25, 0x4a, 0x94, 0x33, 0x66, 0xcc][i - 80]
        else
          if i < 112 then
            [0x83, 0x1d, 0x3a, 0x74, 0xe8, 0xcb, 0x8d, 0x01, 0x02, 0x04, 0x08, 0x10, 0x20, 0x40, 0x80, 0x1b][i - 96]
          else
            [0x36, 0x6c, 0xd8, 0xab, 0x4d, 0x9a, 0x2f, 0x5e, 0xbc, 0x63, 0xc6, 0x97, 0x35, 0x6a, 0xd4, 0xb3][i - 112]
    else
      if i < 192 then
        if i < 160 then
          if i < 144 then
            [0x7d, 0xfa, 0xef, 0xc5, 0x91, 0x39, 0x72, 0xe4, 0xd3, 0xbd, 0x61, 0xc2, 0x9f, 0x25, 0x4a, 0x94][i - 128]
          else
            [0x33, 0x66, 0xcc, 0x83, 0x1d, 0x3a, 0x74, 0xe8, 0xcb, 0x8d, 0x01, 0x02, 0x04, 0x08, 0x10, 0x20][i - 144]
        else
          if i < 176 then
            [0x40, 0x80, 0x1b, 0x36, 0x6c, 0xd8, 0xab, 0x4d, 0x9a, 0x2f, 0x5e, 0xbc, 0x63, 0xc6, 0x97, 0x35][i - 160]
          else
            [0x6a, 0xd4, 0xb3, 0x7d, 0xfa, 0xef, 0xc5, 0x91, 0x39, 0x72, 0xe4, 0xd3, 0xbd, 0x61, 0xc2, 0x9f][i - 176]
      else
        if i < 224 then
          if i < 208 then
            [0x25, 0x4a, 0x94, 0x33, 0x66, 0xcc, 0x83, 0x1d, 0x3a, 0x74, 0xe8, 0xcb, 0x8d, 0x01, 0x02, 0x04][i - 192]
          else
            [0x08, 0x10, 0x20, 0x40, 0x80, 0x1b, 0x36, 0x6c, 0xd8, 0xab, 0x4d, 0x9a, 0x2f, 0x5e, 0xbc, 0x63][i - 208]
        else
          if i < 240 then
            [0xc6, 0x97, 0x35, 0x6a, 0xd4, 0xb3, 0x7d, 0xfa, 0xef, 0xc5, 0x91, 0x39, 0x72, 0xe4, 0xd3, 0xbd][i - 224]
          else
            [0x61, 0xc2, 0x9f, 0x25, 0x4a, 0x94, 0x33, 0x66, 0xcc, 0x83, 0x1d, 0x3a, 0x74, 0xe8, 0xcb][i - 240]
  }

  /** The stored constants are the ones the key schedule of section 5.2 asks for. */
  lemma {:induction false} RconIsPower(n: nat)
    requires 1 <= n <= 10
    ensures Rcon(n) == RoundConstant(n)
  {
    assert Power(1) == 0x02 && Power(2) == 0x04 && Power(3) == 0x08;
    assert Power(4) == 0x10 && Power(5) == 0x20 && Power(6) == 0x40;
    assert Power(7) == 0x80 && Power(8) == 0x1b && Power(9) == 0x36;
  }

  /** Four bytes of a byte sequence as a word. */
  function WordAt(bytes: seq<bv8>, i: nat): Word
    requires 4 * i + 4 <= |bytes|
  {
    Word(bytes[4 * i], bytes[4 * i + 1], bytes[4 * i + 2], bytes[4 * i + 3])
  }

  /** The first `n` words of a byte sequence. */
  function Words(bytes: seq<bv8>, n: nat): (words: seq<Word>)
    requires 4 * n <= |bytes|
    ensures |words| == n
    ensures forall i | 0 <= i < n :: words[i] == WordAt(bytes, i)
  {
    seq(n, i requires 0 <= i < n => WordAt(bytes, i))
  }

  /** Sixteen bytes as a state: byte r + 4c is row r of column c (section 3.4). */
  function BlockOf(bytes: seq<bv8>): Block
    requires |bytes| >= 16
  {
    Block(WordAt(bytes, 0), WordAt(bytes, 1), WordAt(bytes, 2), WordAt(bytes, 3))
  }

  lemma {:induction false} ConstantIndex(i: nat, nk: nat)
    requires nk == 4 || nk == 6 || nk == 8
    requires nk <= i < 4 * (nk + 7)
    ensures 1 <= i / nk <= 10
  {
  }

  lemma {:induction false} KeyWordStep(words: seq<Word>, i: nat)
    requires 0 < |words|
    ensures i < |words| ==> KeyWord(words, i) == words[i]
    ensures i >= |words| ==>
              KeyWord(words, i) == Plus(KeyWord(words, i - |words|), Mangled(KeyWord(words, i - 1), |words|, i))
  {
  }

  lemma {:induction false} WordStored(before: seq<bv8>, after: seq<bv8>, i: nat)
    requires |before| == |after| == 240 && i < 60
    requires after[..4 * i] == before[..4 * i] && after[4 * i + 4..] == before[4 * i + 4..]
    ensures forall k | 0 <= k < 60 && k != i :: WordAt(after, k) == WordAt(before, k)
  {
    forall k | 0 <= k < 60 && k != i
      ensures WordAt(after, k) == WordAt(before, k)
    {
      if k < i {
        assert WordAt(before, k) == WordAt(before[..4 * i], k);
        assert WordAt(after, k) == WordAt(after[..4 * i], k);
      } else {
        assert WordAt(before, k) == WordAt(before[4 * i + 4..], k - i - 1);
        assert WordAt(after, k) == WordAt(after[4 * i + 4..], k - i - 1);
      }
    }
  }

  /** The four-byte left rotation of the key schedule. */
  method Rotate4(temp: array<bv8>)
    requires temp.Length == 4
    modifies temp
    ensures WordAt(temp[..], 0) == RotWord(old(WordAt(temp[..], 0)))
  {
    var k := temp[0];
    temp[0] := temp[1];
    temp[1] := temp[2];
    temp[2] := temp[3];
    temp[3] := k;
  }

  /** The four-byte substitution of the key schedule. */
  method Substitute4(temp: array<bv8>)
    requires temp.Length == 4
    modifies temp
    ensures WordAt(temp[..], 0) == SubWord(old(WordAt(temp[..], 0)))
  {
    hide SBox;
    temp[0] := SBox(temp[0]);
    temp[1] := SBox(temp[1]);
    temp[2] := SBox(temp[2]);
    temp[3] := SBox(temp[3]);
  }

  /** Adds four consecutive words to a state. */
  function Keyed(b: Block, bytes: seq<bv8>, round: nat): Block
    requires 16 * round + 16 <= |bytes|
  {
    Block(Plus(b.c0, WordAt(bytes, 4 * round)), Plus(b.c1, WordAt(bytes, 4 * round + 1)),
          Plus(b.c2, WordAt(bytes, 4 * round + 2)), Plus(b.c3, WordAt(bytes, 4 * round + 3)))
  }

  lemma {:induction false} KeyedIsAddKey(words: seq<Word>, bytes: seq<bv8>, rounds: nat)
    requires |words| > 0 && 16 * rounds <= |bytes|
    requires forall i | 0 <= i < 4 * rounds :: WordAt(bytes, i) == KeyWord(words, i)
    ensures forall b, r | 0 <= r < rounds :: Keyed(b, bytes, r) == AddKey(words, r, b)
  {
    hide KeyWord;
    hide Plus;
    hide WordAt;
  }

  lemma {:induction false} SameStart(a: seq<bv8>, b: seq<bv8>)
    requires |a| >= 16 && |b| >= 16 && a[..16] == b[..16]
    ensures Words(a, 4) == Words(b, 4) && BlockOf(a) == BlockOf(b)
  {
    assert forall i | 0 <= i < 16 :: a[i] == a[..16][i] == b[i];
  }

  class Aes {
    var Nr: int
    var Nk: int
    const input: array<bv8>
    const output: array<bv8>
    const state: array2<bv8>
    const roundKey: array<bv8>
    const key: array<bv8>

    ghost predicate Valid() {
      && input.Length == 16 && output.Length == 16
      && state.Length0 == 4 && state.Length1 == 4
      && roundKey.Length == 240 && key.Length == 32
      && input != output && input != roundKey && input != key
      && output != roundKey && output != key && roundKey != key
    }

    constructor ()
      ensures Valid()
      ensures fresh(input) && fresh(output) && fresh(state) && fresh(roundKey) && fresh(key)
    {
      input := new bv8[16];
      output := new bv8[16];
      state := new bv8[4, 4];
      roundKey := new bv8[240];
      key := new bv8[32];
    }

    ghost function Column(c: nat): Word
      requires Valid() && c < 4
      reads state
    {
      Word(state[0, c], state[1, c], state[2, c], state[3, c])
    }

    ghost function State(): Block
      requires Valid()
      reads state
    {
      Block(Column(0), Column(1), Column(2), Column(3))
    }

    /** The key sizes the schedule is written for. */
    ghost predicate Sized()
      reads this
    {
      (Nk == 4 || Nk == 6 || Nk == 8) && Nr == Nk + 6
    }

    /** Whether the first `n` words of the schedule are expanded. */
    ghost predicate Expanded(words: seq<Word>, n: nat)
      requires Valid() && |words| > 0 && n <= 60
      reads roundKey
    {
      forall i | 0 <= i < n :: WordAt(roundKey[..], i) == KeyWord(words, i)
    }

    method KeyExpansion()
      requires Valid() && Sized()
      modifies roundKey
      ensures Expanded(Words(key[..], Nk), 4 * (Nr + 1))
    {
      hide KeyWord;
      ghost var words := Words(key[..], Nk);
      var i := 0;
      while i < Nk
        invariant 0 <= i <= Nk
        invariant Expanded(words, i)
        modifies roundKey
      {
        CopyWord(i);
        KeyWordStep(words, i);
        assert words[i] == WordAt(key[..], i);
        i := i + 1;
      }
      var temp := new bv8[4];
      while i < 4 * (Nr + 1)
        invariant Nk <= i <= 4 * (Nr + 1)
        invariant Expanded(words, i)
        modifies roundKey, temp
      {
        ExpandWord(temp, i);
        KeyWordStep(words, i);
        i := i + 1;
      }
    }

    /** Copies word `i` of the key. */
    method CopyWord(i: nat)
      requires Valid() && Sized() && i < Nk
      modifies roundKey
      ensures WordAt(roundKey[..], i) == WordAt(key[..], i)
      ensures forall k | 0 <= k < 60 && k != i :: WordAt(roundKey[..], k) == old(WordAt(roundKey[..], k))
    {
      roundKey[i * 4] := key[i * 4];
      roundKey[i * 4 + 1] := key[i * 4 + 1];
      roundKey[i * 4 + 2] := key[i * 4 + 2];
      roundKey[i * 4 + 3] := key[i * 4 + 3];
    }

    /** Computes word `i` from the words `i - 1` and `i - Nk`. */
    method ExpandWord(temp: array<bv8>, i: nat)
      requires Valid() && Sized() && Nk <= i < 4 * (Nr + 1)
      requires temp.Length == 4 && temp != roundKey
      modifies roundKey, temp
      ensures WordAt(roundKey[..], i) ==
              Plus(old(WordAt(roundKey[..], i - Nk)), Mangled(old(WordAt(roundKey[..], i - 1)), Nk, i))
      ensures forall k | 0 <= k < 60 && k != i :: WordAt(roundKey[..], k) == old(WordAt(roundKey[..], k))
    {
      hide Mangled;
      var j := 0;
      while j < 4
        invariant 0 <= j <= 4
        invariant forall k | 0 <= k < j :: temp[k] == roundKey[(i - 1) * 4 + k]
        modifies temp
      {
        temp[j] := roundKey[(i - 1) * 4 + j];
        j := j + 1;
      }
      Mangle(temp, i);
      XorWord(temp, i);
    }

    /** Word `i` becomes the sum of word `i - Nk` and the temporary word. */
    method XorWord(temp: array<bv8>, i: nat)
      requires Valid() && Sized() && Nk <= i < 4 * (Nr + 1)
      requires temp.Length == 4 && temp != roundKey
      modifies roundKey
      ensures WordAt(roundKey[..], i) == Plus(old(WordAt(roundKey[..], i - Nk)), WordAt(temp[..], 0))
      ensures forall k | 0 <= k < 60 && k != i :: WordAt(roundKey[..], k) == old(WordAt(roundKey[..], k))
    {
      hide Add;
      ghost var before := roundKey[..];
      var from := (i - Nk) * 4;
      assert from + 4 <= i * 4;
      roundKey[i * 4] := Add(roundKey[from], temp[0]);
      roundKey[i * 4 + 1] := Add(roundKey[from + 1], temp[1]);
      roundKey[i * 4 + 2] := Add(roundKey[from + 2], temp[2]);
      roundKey[i * 4 + 3] := Add(roundKey[from + 3], temp[3]);
      WordStored(before, roundKey[..], i);
    }

    /** The branch on `i` inside the key expansion. */
    method Mangle(temp: array<bv8>, i: nat)
      requires Valid() && Sized() && Nk <= i < 4 * (Nr + 1)
      requires temp.Length == 4 && temp != roundKey
      modifies temp
      ensures WordAt(temp[..], 0) == Mangled(old(WordAt(temp[..], 0)), Nk, i)
    {
      hide SubWord;
      hide Add;
      if i % Nk == 0 {
        Rotate4(temp);
        Substitute4(temp);
        ConstantIndex(i, Nk);
        RconIsPower(i / Nk);
        temp[0] := Add(temp[0], Rcon(i / Nk));
        AddSelf(0, temp[1]);
        AddSelf(0, temp[2]);
        AddSelf(0, temp[3]);
      } else if Nk > 6 && i % Nk == 4 {
        Substitute4(temp);
      }
    }

    method AddRoundKey(round: nat)
      requires Valid() && round <= 14
      modifies state
      ensures State() == Keyed(old(State()), roundKey[..], round)
    {
      hide Plus;
      hide WordAt;
      var i := 0;
      while i < 4
        invariant 0 <= i <= 4
        invariant forall c | 0 <= c < i :: Column(c) == Plus(old(Column(c)), WordAt(roundKey[..], 4 * round + c))
        invariant forall c | i <= c < 4 :: Column(c) == old(Column(c))
      {
        AddRoundColumn(round, i);
        i := i + 1;
      }
    }

    /** The inner loop. */
    method AddRoundColumn(round: nat, i: nat)
      requires Valid() && round <= 14 && i < 4
      modifies state
      ensures Column(i) == Plus(old(Column(i)), WordAt(roundKey[..], 4 * round + i))
      ensures forall c | 0 <= c < 4 && c != i :: Column(c) == old(Column(c))
    {
      hide Add;
      var j := 0;
      while j < 4
        invariant 0 <= j <= 4
        invariant forall r | 0 <= r < j :: state[r, i] == Add(old(state[r, i]), roundKey[round * 16 + i * 4 + r])
        invariant forall r | j <= r < 4 :: state[r, i] == old(state[r, i])
        invariant forall r, c | 0 <= r < 4 && 0 <= c < 4 && c != i :: state[r, c] == old(state[r, c])
      {
        state[j, i] := Add(state[j, i], roundKey[round * 4 * 4 + i * 4 + j]);
        j := j + 1;
      }
    }

    method SubBytes()
      requires Valid()
      modifies state
      ensures State() == SubBlock(old(State()))
    {
      hide SBox;
      var i := 0;
      while i < 4
        invariant 0 <= i <= 4
        invariant forall r, c | 0 <= r < 4 && 0 <= c < 4 ::
                    state[r, c] == if r < i then SBox(old(state[r, c])) else old(state[r, c])
      {
        var j := 0;
        while j < 4
          invariant 0 <= j <= 4
          invariant forall r, c | 0 <= r < 4 && 0 <= c < 4 ::
                      state[r, c] == if r < i || (r == i && c < j) then SBox(old(state[r, c])) else old(state[r, c])
        {
          state[i, j] := SBox(state[i, j]);
          j := j + 1;
        }
        i := i + 1;
      }
    }

    method ShiftRow1()
      requires Valid()
      modifies state
      ensures forall c | 0 <= c < 4 :: state[1, c] == old(state[1, (c + 1) % 4])
      ensures forall r, c | 0 <= r < 4 && 0 <= c < 4 && r != 1 :: state[r, c] == old(state[r, c])
    {
      var temp := state[1, 0];
      state[1, 0] := state[1, 1];
      state[1, 1] := state[1, 2];
      state[1, 2] := state[1, 3];
      state[1, 3] := temp;
    }

    method ShiftRow2()
      requires Valid()
      modifies state
      ensures forall c | 0 <= c < 4 :: state[2, c] == old(state[2, (c + 2) % 4])
      ensures forall r, c | 0 <= r < 4 && 0 <= c < 4 && r != 2 :: state[r, c] == old(state[r, c])
    {
      var temp := state[2, 0];
      state[2, 0] := state[2, 2];
      state[2, 2] := temp;

      temp := state[2, 1];
      state[2, 1] := state[2, 3];
      state[2, 3] := temp;
    }

    method ShiftRow3()
      requires Valid()
      modifies state
      ensures forall c | 0 <= c < 4 :: state[3, c] == old(state[3, (c + 3) % 4])
      ensures forall r, c | 0 <= r < 4 && 0 <= c < 4 && r != 3 :: state[r, c] == old(state[r, c])
    {
      var temp := state[3, 0];
      state[3, 0] := state[3, 3];
      state[3, 3] := state[3, 2];
      state[3, 2] := state[3, 1];
      state[3, 1] := temp;
    }

    method ShiftRows()
      requires Valid()
      modifies state
      ensures State() == ShiftBlock(old(State()))
    {
      ShiftRow1();
      ShiftRow2();
      ShiftRow3();
    }

    method MixColumns()
      requires Valid()
      modifies state
      ensures State() == MixBlock(old(State()))
    {
      hide MixWord;
      ghost var before := State();
      var i := 0;
      while i < 4
        invariant 0 <= i <= 4
        invariant forall c | 0 <= c < i :: Column(c) == MixWord(old(Column(c)))
        invariant forall c | i <= c < 4 :: Column(c) == old(Column(c))
      {
        MixColumn(i);
        i := i + 1;
      }
    }

    /** The body of the column loop. */
    method MixColumn(i: nat)
      requires Valid() && i < 4
      modifies state
      ensures Column(i) == MixWord(old(Column(i)))
      ensures forall c | 0 <= c < 4 && c != i :: Column(c) == old(Column(c))
    {
      hide MixWord;
      hide Add;
      hide Xtime;
      ghost var was := Column(i);
      var t := state[0, i];
      var sum := Sum(state[0, i], state[1, i], state[2, i], state[3, i]);
      var double := Xtime(Add(state[0, i], state[1, i]));
      state[0, i] := Add(state[0, i], Add(double, sum));
      double := Xtime(Add(state[1, i], state[2, i]));
      state[1, i] := Add(state[1, i], Add(double, sum));
      double := Xtime(Add(state[2, i], state[3, i]));
      state[2, i] := Add(state[2, i], Add(double, sum));
      double := Xtime(Add(state[3, i], t));
      state[3, i] := Add(state[3, i], Add(double, sum));
      AddAssociates(was.b0, Xtime(Add(was.b0, was.b1)), sum);
      AddAssociates(was.b1, Xtime(Add(was.b1, was.b2)), sum);
      AddAssociates(was.b2, Xtime(Add(was.b2, was.b3)), sum);
      AddAssociates(was.b3, Xtime(Add(was.b3, was.b0)), sum);
      FastMixIsMix(was);
    }

    /** Copies the block into the state, column by column. */
    method LoadState()
      requires Valid()
      modifies state
      ensures State() == BlockOf(input[..])
    {
      var i := 0;
      while i < 4
        invariant 0 <= i <= 4
        invariant forall r, c | 0 <= r < 4 && 0 <= c < i :: state[r, c] == input[c * 4 + r]
      {
        var j := 0;
        while j < 4
          invariant 0 <= j <= 4
          invariant forall r, c | 0 <= r < 4 && 0 <= c < i :: state[r, c] == input[c * 4 + r]
          invariant forall r | 0 <= r < j :: state[r, i] == input[i * 4 + r]
        {
          state[j, i] := input[i * 4 + j];
          j := j + 1;
        }
        i := i + 1;
      }
    }

    /** Copies the state to the output array. */
    method StoreState()
      requires Valid()
      modifies output
      ensures BlockOf(output[..]) == State()
    {
      hide WordAt;
      var i := 0;
      while i < 4
        invariant 0 <= i <= 4
        invariant forall c | 0 <= c < i :: WordAt(output[..], c) == Column(c)
      {
        StoreColumn(i);
        i := i + 1;
      }
    }

    /** The inner loop. */
    method StoreColumn(i: nat)
      requires Valid() && i < 4
      modifies output
      ensures WordAt(output[..], i) == Column(i)
      ensures forall c | 0 <= c < i :: WordAt(output[..], c) == old(WordAt(output[..], c))
    {
      var j := 0;
      while j < 4
        invariant 0 <= j <= 4
        invariant forall r | 0 <= r < j :: output[i * 4 + r] == state[r, i]
        invariant forall k | 0 <= k < i * 4 :: output[k] == old(output[k])
      {
        output[i * 4 + j] := state[j, i];
        j := j + 1;
      }
    }

    /** The rounds, once key and state are loaded. */
    method RunRounds(ghost words: seq<Word>)
      requires Valid() && Sized() && |words| == Nk
      requires Expanded(words, 4 * (Nr + 1))
      modifies state
      ensures State() == Encrypt(words, old(State()))
    {
      hide AddKey;
      hide Keyed;
      hide MixBlock;
      hide ShiftBlock;
      hide SubBlock;
      ghost var block := State();
      KeyedIsAddKey(words, roundKey[..], Nr + 1);
      AddRoundKey(0);
      var round := 1;
      while round < Nr
        invariant 1 <= round <= Nr
        invariant State() == Rounds(words, round - 1, block)
      {
        SubBytes();
        ShiftRows();
        MixColumns();
        AddRoundKey(round);
        round := round + 1;
      }
      SubBytes();
      ShiftRows();
      AddRoundKey(Nr);
    }

    /** Copies the key and the plain text. */
    method CopyInputs(plainText: array<bv8>, useKey: array<bv8>)
      requires Valid() && Nk == 4
      requires plainText.Length >= 16 && useKey.Length >= 16
      requires plainText != key && useKey != input
      modifies input, key
      ensures key[..16] == old(useKey[..16])
      ensures input[..] == old(plainText[..16])
    {
      var i := 0;
      while i < Nk * 4
        invariant 0 <= i <= 16
        invariant key[..i] == old(useKey[..i])
        invariant input[..i] == old(plainText[..i])
        invariant plainText[i..] == old(plainText[i..]) && useKey[i..] == old(useKey[i..])
      {
        assert plainText[i] == plainText[i..][0] && useKey[i] == useKey[i..][0];
        key[i] := useKey[i];
        input[i] := plainText[i];
        i := i + 1;
      }
    }

    /**
     * The cipher: whatever the global arrays and sizes held before, the output is the AES-128
     * encryption of the plain text.  The plain text may be the output of an earlier call.
     */
    method Cipher(plainText: array<bv8>, useKey: array<bv8>) returns (cipherText: array<bv8>)
      requires Valid()
      requires plainText.Length >= 16 && useKey.Length >= 16
      requires plainText != key && useKey != input
      modifies this, input, key, roundKey, state, output
      ensures cipherText == output
      ensures BlockOf(output[..]) == Encrypt(Words(old(useKey[..]), 4), BlockOf(old(plainText[..])))
    {
      hide Encrypt;
      hide WordAt;
      Nr := 128;
      Nk := Nr / 32;
      Nr := Nk + 6;
      CopyInputs(plainText, useKey);
      SameStart(key[..], old(useKey[..]));
      SameStart(input[..], old(plainText[..]));
      KeyExpansion();
      LoadState();
      RunRounds(Words(key[..], 4));
      StoreState();
      cipherText := output;
    }
  }
}
