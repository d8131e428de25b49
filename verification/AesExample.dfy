/** The example of appendix C.1 of FIPS 197, followed round by round: the functions of the standard
    are fixed by it, whatever the program does. */
module AesExample {
  import opened Fips197
  import opened AesCipher

  // ----- the values of the appendix: what each round begins with, its steps, and its key -----

  const INPUT_0: Block :=
    Block(Word(0x00, 0x10, 0x20, 0x30), Word(0x40, 0x50, 0x60, 0x70),
          Word(0x80, 0x90, 0xa0, 0xb0), Word(0xc0, 0xd0, 0xe0, 0xf0))
  const INPUT_1: Block :=
    Block(Word(0x89, 0xd8, 0x10, 0xe8), Word(0x85, 0x5a, 0xce, 0x68),
          Word(0x2d, 0x18, 0x43, 0xd8), Word(0xcb, 0x12, 0x8f, 0xe4))
  const INPUT_2: Block :=
    Block(Word(0x49, 0x15, 0x59, 0x8f), Word(0x55, 0xe5, 0xd7, 0xa0),
          Word(0xda, 0xca, 0x94, 0xfa), Word(0x1f, 0x0a, 0x63, 0xf7))
  const INPUT_3: Block :=
    Block(Word(0xfa, 0x63, 0x6a, 0x28), Word(0x25, 0xb3, 0x39, 0xc9),
          Word(0x40, 0x66, 0x8a, 0x31), Word(0x57, 0x24, 0x4d, 0x17))
  const INPUT_4: Block :=
    Block(Word(0x24, 0x72, 0x40, 0x23), Word(0x69, 0x66, 0xb3, 0xfa),
          Word(0x6e, 0xd2, 0x75, 0x32), Word(0x88, 0x42, 0x5b, 0x6c))
  const INPUT_5: Block :=
    Block(Word(0xc8, 0x16, 0x77, 0xbc), Word(0x9b, 0x7a, 0xc9, 0x3b),
          Word(0x25, 0x02, 0x79, 0x92), Word(0xb0, 0x26, 0x19, 0x96))
  const INPUT_6: Block :=
    Block(Word(0xc6, 0x2f, 0xe1, 0x09), Word(0xf7, 0x5e, 0xed, 0xc3),
          Word(0xcc, 0x79, 0x39, 0x5d), Word(0x84, 0xf9, 0xcf, 0x5d))
  const INPUT_7: Block :=
    Block(Word(0xd1, 0x87, 0x6c, 0x0f), Word(0x79, 0xc4, 0x30, 0x0a),
          Word(0xb4, 0x55, 0x94, 0xad), Word(0xd6, 0x6f, 0xf4, 0x1f))
  const INPUT_8: Block :=
    Block(Word(0xfd, 0xe3, 0xba, 0xd2), Word(0x05, 0xe5, 0xd0, 0xd7),
          Word(0x35, 0x47, 0x96, 0x4e), Word(0xf1, 0xfe, 0x37, 0xf1))
  const INPUT_9: Block :=
    Block(Word(0xbd, 0x6e, 0x7c, 0x3d), Word(0xf2, 0xb5, 0x77, 0x9e),
          Word(0x0b, 0x61, 0x21, 0x6e), Word(0x8b, 0x10, 0xb6, 0x89))

  const SUBSTITUTED_1: Block :=
    Block(Word(0x63, 0xca, 0xb7, 0x04), Word(0x09, 0x53, 0xd0, 0x51),
          Word(0xcd, 0x60, 0xe0, 0xe7), Word(0xba, 0x70, 0xe1, 0x8c))
  const SUBSTITUTED_2: Block :=
    Block(Word(0xa7, 0x61, 0xca, 0x9b), Word(0x97, 0xbe, 0x8b, 0x45),
          Word(0xd8, 0xad, 0x1a, 0x61), Word(0x1f, 0xc9, 0x73, 0x69))
  const SUBSTITUTED_3: Block :=
    Block(Word(0x3b, 0x59, 0xcb, 0x73), Word(0xfc, 0xd9, 0x0e, 0xe0),
          Word(0x57, 0x74, 0x22, 0x2d), Word(0xc0, 0x67, 0xfb, 0x68))
  const SUBSTITUTED_4: Block :=
    Block(Word(0x2d, 0xfb, 0x02, 0x34), Word(0x3f, 0x6d, 0x12, 0xdd),
          Word(0x09, 0x33, 0x7e, 0xc7), Word(0x5b, 0x36, 0xe3, 0xf0))
  const SUBSTITUTED_5: Block :=
    Block(Word(0x36, 0x40, 0x09, 0x26), Word(0xf9, 0x33, 0x6d, 0x2d),
          Word(0x9f, 0xb5, 0x9d, 0x23), Word(0xc4, 0x2c, 0x39, 0x50))
  const SUBSTITUTED_6: Block :=
    Block(Word(0xe8, 0x47, 0xf5, 0x65), Word(0x14, 0xda, 0xdd, 0xe2),
          Word(0x3f, 0x77, 0xb6, 0x4f), Word(0xe7, 0xf7, 0xd4, 0x90))
  const SUBSTITUTED_7: Block :=
    Block(Word(0xb4, 0x15, 0xf8, 0x01), Word(0x68, 0x58, 0x55, 0x2e),
          Word(0x4b, 0xb6, 0x12, 0x4c), Word(0x5f, 0x99, 0x8a, 0x4c))
  const SUBSTITUTED_8: Block :=
    Block(Word(0x3e, 0x17, 0x50, 0x76), Word(0xb6, 0x1c, 0x04, 0x67),
          Word(0x8d, 0xfc, 0x22, 0x95), Word(0xf6, 0xa8, 0xbf, 0xc0))
  const SUBSTITUTED_9: Block :=
    Block(Word(0x54, 0x11, 0xf4, 0xb5), Word(0x6b, 0xd9, 0x70, 0x0e),
          Word(0x96, 0xa0, 0x90, 0x2f), Word(0xa1, 0xbb, 0x9a, 0xa1))
  const SUBSTITUTED_10: Block :=
    Block(Word(0x7a, 0x9f, 0x10, 0x27), Word(0x89, 0xd5, 0xf5, 0x0b),
          Word(0x2b, 0xef, 0xfd, 0x9f), Word(0x3d, 0xca, 0x4e, 0xa7))

  const MIXED_1: Block :=
    Block(Word(0x5f, 0x72, 0x64, 0x15), Word(0x57, 0xf5, 0xbc, 0x92),
          Word(0xf7, 0xbe, 0x3b, 0x29), Word(0x1d, 0xb9, 0xf9, 0x1a))
  const MIXED_2: Block :=
    Block(Word(0xff, 0x87, 0x96, 0x84), Word(0x31, 0xd8, 0x6a, 0x51),
          Word(0x64, 0x51, 0x51, 0xfa), Word(0x77, 0x3a, 0xd0, 0x09))
  const MIXED_3: Block :=
    Block(Word(0x4c, 0x9c, 0x1e, 0x66), Word(0xf7, 0x71, 0xf0, 0x76),
          Word(0x2c, 0x3f, 0x86, 0x8e), Word(0x53, 0x4d, 0xf2, 0x56))
  const MIXED_4: Block :=
    Block(Word(0x63, 0x85, 0xb7, 0x9f), Word(0xfc, 0x53, 0x8d, 0xf9),
          Word(0x97, 0xbe, 0x47, 0x8e), Word(0x75, 0x47, 0xd6, 0x91))
  const MIXED_5: Block :=
    Block(Word(0xf4, 0xbc, 0xd4, 0x54), Word(0x32, 0xe5, 0x54, 0xd0),
          Word(0x75, 0xf1, 0xd6, 0xc5), Word(0x1d, 0xd0, 0x3b, 0x3c))
  const MIXED_6: Block :=
    Block(Word(0x98, 0x16, 0xee, 0x74), Word(0x00, 0xf8, 0x7f, 0x55),
          Word(0x6b, 0x2c, 0x04, 0x9c), Word(0x8e, 0x5a, 0xd0, 0x36))
  const MIXED_7: Block :=
    Block(Word(0xc5, 0x7e, 0x1c, 0x15), Word(0x9a, 0x9b, 0xd2, 0x86),
          Word(0xf0, 0x5f, 0x4b, 0xe0), Word(0x98, 0xc6, 0x34, 0x39))
  const MIXED_8: Block :=
    Block(Word(0xba, 0xa0, 0x3d, 0xe7), Word(0xa1, 0xf9, 0xb5, 0x6e),
          Word(0xd5, 0x51, 0x2c, 0xba), Word(0x5f, 0x41, 0x4d, 0x23))
  const MIXED_9: Block :=
    Block(Word(0xe9, 0xf7, 0x4e, 0xec), Word(0x02, 0x30, 0x20, 0xf6),
          Word(0x1b, 0xf2, 0xcc, 0xf2), Word(0x35, 0x3c, 0x21, 0xc7))

  const KEY_0: Block :=
    Block(Word(0x00, 0x01, 0x02, 0x03), Word(0x04, 0x05, 0x06, 0x07),
          Word(0x08, 0x09, 0x0a, 0x0b), Word(0x0c, 0x0d, 0x0e, 0x0f))
  const KEY_1: Block :=
    Block(Word(0xd6, 0xaa, 0x74, 0xfd), Word(0xd2, 0xaf, 0x72, 0xfa),
          Word(0xda, 0xa6, 0x78, 0xf1), Word(0xd6, 0xab, 0x76, 0xfe))
  const KEY_2: Block :=
    Block(Word(0xb6, 0x92, 0xcf, 0x0b), Word(0x64, 0x3d, 0xbd, 0xf1),
          Word(0xbe, 0x9b, 0xc5, 0x00), Word(0x68, 0x30, 0xb3, 0xfe))
  const KEY_3: Block :=
    Block(Word(0xb6, 0xff, 0x74, 0x4e), Word(0xd2, 0xc2, 0xc9, 0xbf),
          Word(0x6c, 0x59, 0x0c, 0xbf), Word(0x04, 0x69, 0xbf, 0x41))
  const KEY_4: Block :=
    Block(Word(0x47, 0xf7, 0xf7, 0xbc), Word(0x95, 0x35, 0x3e, 0x03),
          Word(0xf9, 0x6c, 0x32, 0xbc), Word(0xfd, 0x05, 0x8d, 0xfd))
  const KEY_5: Block :=
    Block(Word(0x3c, 0xaa, 0xa3, 0xe8), Word(0xa9, 0x9f, 0x9d, 0xeb),
          Word(0x50, 0xf3, 0xaf, 0x57), Word(0xad, 0xf6, 0x22, 0xaa))
  const KEY_6: Block :=
    Block(Word(0x5e, 0x39, 0x0f, 0x7d), Word(0xf7, 0xa6, 0x92, 0x96),
          Word(0xa7, 0x55, 0x3d, 0xc1), Word(0x0a, 0xa3, 0x1f, 0x6b))
  const KEY_7: Block :=
    Block(Word(0x14, 0xf9, 0x70, 0x1a), Word(0xe3, 0x5f, 0xe2, 0x8c),
          Word(0x44, 0x0a, 0xdf, 0x4d), Word(0x4e, 0xa9, 0xc0, 0x26))
  const KEY_8: Block :=
    Block(Word(0x47, 0x43, 0x87, 0x35), Word(0xa4, 0x1c, 0x65, 0xb9),
          Word(0xe0, 0x16, 0xba, 0xf4), Word(0xae, 0xbf, 0x7a, 0xd2))
  const KEY_9: Block :=
    Block(Word(0x54, 0x99, 0x32, 0xd1), Word(0xf0, 0x85, 0x57, 0x68),
          Word(0x10, 0x93, 0xed, 0x9c), Word(0xbe, 0x2c, 0x97, 0x4e))
  const KEY_10: Block :=
    Block(Word(0x13, 0x11, 0x1d, 0x7f), Word(0xe3, 0x94, 0x4a, 0x17),
          Word(0xf3, 0x07, 0xa7, 0x8b), Word(0x4d, 0x2b, 0x30, 0xc5))

  const PLAIN: Block :=
    Block(Word(0x00, 0x11, 0x22, 0x33), Word(0x44, 0x55, 0x66, 0x77),
          Word(0x88, 0x99, 0xaa, 0xbb), Word(0xcc, 0xdd, 0xee, 0xff))
  const CIPHERED: Block :=
    Block(Word(0x69, 0xc4, 0xe0, 0xd8), Word(0x6a, 0x7b, 0x04, 0x30),
          Word(0xd8, 0xcd, 0xb7, 0x80), Word(0x70, 0xb4, 0xc5, 0x5a))
  const KEY: seq<Word> :=
    [Word(0x00, 0x01, 0x02, 0x03), Word(0x04, 0x05, 0x06, 0x07),
     Word(0x08, 0x09, 0x0a, 0x0b), Word(0x0c, 0x0d, 0x0e, 0x0f)]

  // ----- the steps -----

  lemma {:induction false} Substitutions1To5()
    ensures SubBlock(INPUT_0) == SUBSTITUTED_1
    ensures SubBlock(INPUT_1) == SUBSTITUTED_2
    ensures SubBlock(INPUT_2) == SUBSTITUTED_3
    ensures SubBlock(INPUT_3) == SUBSTITUTED_4
    ensures SubBlock(INPUT_4) == SUBSTITUTED_5
  {
  }

  lemma {:induction false} Substitutions6To10()
    ensures SubBlock(INPUT_5) == SUBSTITUTED_6
    ensures SubBlock(INPUT_6) == SUBSTITUTED_7
    ensures SubBlock(INPUT_7) == SUBSTITUTED_8
    ensures SubBlock(INPUT_8) == SUBSTITUTED_9
    ensures SubBlock(INPUT_9) == SUBSTITUTED_10
  {
  }

  /** The columns mixed in the form with one sum, which is easier to compute. */
  lemma {:induction false} MixesFast(b: Block)
    ensures MixBlock(b) == Block(FastMix(b.c0), FastMix(b.c1), FastMix(b.c2), FastMix(b.c3))
  {
    hide MixWord;
    hide FastMix;
    FastMixIsMix(b.c0);
    FastMixIsMix(b.c1);
    FastMixIsMix(b.c2);
    FastMixIsMix(b.c3);
  }

  lemma {:induction false} Mixture1()
    ensures MixBlock(ShiftBlock(SUBSTITUTED_1)) == MIXED_1
  {
    hide MixBlock;
    MixesFast(ShiftBlock(SUBSTITUTED_1));
  }

  lemma {:induction false} Mixture2()
    ensures MixBlock(ShiftBlock(SUBSTITUTED_2)) == MIXED_2
  {
    hide MixBlock;
    MixesFast(ShiftBlock(SUBSTITUTED_2));
  }

  lemma {:induction false} Mixture3()
    ensures MixBlock(ShiftBlock(SUBSTITUTED_3)) == MIXED_3
  {
    hide MixBlock;
    MixesFast(ShiftBlock(SUBSTITUTED_3));
  }

  lemma {:induction false} Mixture4()
    ensures MixBlock(ShiftBlock(SUBSTITUTED_4)) == MIXED_4
  {
    hide MixBlock;
    MixesFast(ShiftBlock(SUBSTITUTED_4));
  }

  lemma {:induction false} Mixture5()
    ensures MixBlock(ShiftBlock(SUBSTITUTED_5)) == MIXED_5
  {
    hide MixBlock;
    MixesFast(ShiftBlock(SUBSTITUTED_5));
  }

  lemma {:induction false} Mixture6()
    ensures MixBlock(ShiftBlock(SUBSTITUTED_6)) == MIXED_6
  {
    hide MixBlock;
    MixesFast(ShiftBlock(SUBSTITUTED_6));
  }

  lemma {:induction false} Mixture7()
    ensures MixBlock(ShiftBlock(SUBSTITUTED_7)) == MIXED_7
  {
    hide MixBlock;
    MixesFast(ShiftBlock(SUBSTITUTED_7));
  }

  lemma {:induction false} Mixture8()
    ensures MixBlock(ShiftBlock(SUBSTITUTED_8)) == MIXED_8
  {
    hide MixBlock;
    MixesFast(ShiftBlock(SUBSTITUTED_8));
  }

  lemma {:induction false} Mixture9()
    ensures MixBlock(ShiftBlock(SUBSTITUTED_9)) == MIXED_9
  {
    hide MixBlock;
    MixesFast(ShiftBlock(SUBSTITUTED_9));
  }

  function PlusBlock(b: Block, k: Block): Block {
    Block(Plus(b.c0, k.c0), Plus(b.c1, k.c1), Plus(b.c2, k.c2), Plus(b.c3, k.c3))
  }

  lemma {:induction false} Additions()
    ensures PlusBlock(PLAIN, KEY_0) == INPUT_0
    ensures PlusBlock(MIXED_1, KEY_1) == INPUT_1
    ensures PlusBlock(MIXED_2, KEY_2) == INPUT_2
    ensures PlusBlock(MIXED_3, KEY_3) == INPUT_3
    ensures PlusBlock(MIXED_4, KEY_4) == INPUT_4
    ensures PlusBlock(MIXED_5, KEY_5) == INPUT_5
    ensures PlusBlock(MIXED_6, KEY_6) == INPUT_6
    ensures PlusBlock(MIXED_7, KEY_7) == INPUT_7
    ensures PlusBlock(MIXED_8, KEY_8) == INPUT_8
    ensures PlusBlock(MIXED_9, KEY_9) == INPUT_9
    ensures PlusBlock(ShiftBlock(SUBSTITUTED_10), KEY_10) == CIPHERED
  {
  }

  function NextKey(k: Block, constant: bv8): Block {
    var c0 := Plus(k.c0, Plus(SubWord(RotWord(k.c3)), Word(constant, 0, 0, 0)));
    var c1 := Plus(k.c1, c0);
    var c2 := Plus(k.c2, c1);
    Block(c0, c1, c2, Plus(k.c3, c2))
  }

  lemma {:induction false} Keys1To3()
    ensures NextKey(KEY_0, 0x01) == KEY_1
    ensures NextKey(KEY_1, 0x02) == KEY_2
    ensures NextKey(KEY_2, 0x04) == KEY_3
  {
  }

  lemma {:induction false} Keys4To6()
    ensures NextKey(KEY_3, 0x08) == KEY_4
    ensures NextKey(KEY_4, 0x10) == KEY_5
    ensures NextKey(KEY_5, 0x20) == KEY_6
  {
  }

  lemma {:induction false} Keys7To8()
    ensures NextKey(KEY_6, 0x40) == KEY_7
    ensures NextKey(KEY_7, 0x80) == KEY_8
  {
  }

  lemma {:induction false} Keys9To10()
    ensures NextKey(KEY_8, 0x1b) == KEY_9
    ensures NextKey(KEY_9, 0x36) == KEY_10
  {
  }

  /** The four words of the key of a round, as the key schedule gives them. */
  function ScheduledKey(round: nat): Block {
    Block(KeyWord(KEY, 4 * round), KeyWord(KEY, 4 * round + 1),
          KeyWord(KEY, 4 * round + 2), KeyWord(KEY, 4 * round + 3))
  }

  lemma {:induction false} NextWord(i: nat)
    requires i >= 4
    ensures KeyWord(KEY, i) ==
            Plus(KeyWord(KEY, i - 4),
                 if i % 4 == 0 then Plus(SubWord(RotWord(KeyWord(KEY, i - 1))), Word(RoundConstant(i / 4), 0, 0, 0))
                 else KeyWord(KEY, i - 1))
  {
    hide Plus;
    hide SubWord;
    hide RotWord;
    hide RoundConstant;
    assert |KEY| == 4;
  }

  lemma {:induction false} ScheduleStep(round: nat)
    requires round >= 1
    ensures ScheduledKey(round) == NextKey(ScheduledKey(round - 1), Power(round - 1))
  {
    hide KeyWord;
    hide Plus;
    hide SubWord;
    hide RotWord;
    hide Power;
    var i := 4 * round;
    assert i / 4 == round;
    NextWord(i);
    NextWord(i + 1);
    NextWord(i + 2);
    NextWord(i + 3);
  }

  lemma {:induction false} Constants()
    ensures Power(0) == 0x01 && Power(1) == 0x02 && Power(2) == 0x04 && Power(3) == 0x08 && Power(4) == 0x10
    ensures Power(5) == 0x20 && Power(6) == 0x40 && Power(7) == 0x80 && Power(8) == 0x1b && Power(9) == 0x36
  {
    assert Power(2) == 0x04 && Power(4) == 0x10 && Power(6) == 0x40;
  }

  lemma {:induction false} Schedule0To5()
    ensures ScheduledKey(0) == KEY_0
    ensures ScheduledKey(1) == KEY_1
    ensures ScheduledKey(2) == KEY_2
    ensures ScheduledKey(3) == KEY_3
    ensures ScheduledKey(4) == KEY_4
    ensures ScheduledKey(5) == KEY_5
  {
    hide NextKey;
    hide Power;
    Constants();
    assert ScheduledKey(0) == KEY_0;
    hide ScheduledKey;
    Keys1To3();
    Keys4To6();
    ScheduleStep(1);
    ScheduleStep(2);
    ScheduleStep(3);
    ScheduleStep(4);
    ScheduleStep(5);
  }

  lemma {:induction false} Schedule6To10()
    ensures ScheduledKey(6) == KEY_6
    ensures ScheduledKey(7) == KEY_7
    ensures ScheduledKey(8) == KEY_8
    ensures ScheduledKey(9) == KEY_9
    ensures ScheduledKey(10) == KEY_10
  {
    hide NextKey;
    hide Power;
    Constants();
    hide ScheduledKey;
    Schedule0To5();
    Keys4To6();
    Keys7To8();
    Keys9To10();
    ScheduleStep(6);
    ScheduleStep(7);
    ScheduleStep(8);
    ScheduleStep(9);
    ScheduleStep(10);
  }

  lemma {:induction false} RoundStep(round: nat)
    requires round >= 1
    ensures Rounds(KEY, round, PLAIN) ==
            PlusBlock(MixBlock(ShiftBlock(SubBlock(Rounds(KEY, round - 1, PLAIN)))), ScheduledKey(round))
    ensures Rounds(KEY, 0, PLAIN) == PlusBlock(PLAIN, ScheduledKey(0))
    ensures Encrypt(KEY, PLAIN) == PlusBlock(ShiftBlock(SubBlock(Rounds(KEY, 9, PLAIN))), ScheduledKey(10))
  {
    hide KeyWord;
    hide Plus;
    hide SubBlock;
    hide ShiftBlock;
    hide MixBlock;
  }

  lemma {:induction false} Rounds1To5()
    ensures Rounds(KEY, 5, PLAIN) == INPUT_5
  {
    hide Rounds;
    hide PlusBlock;
    hide ScheduledKey;
    hide SubBlock;
    hide MixBlock;
    hide ShiftBlock;
    Schedule0To5();
    Substitutions1To5();
    Mixture1();
    Mixture2();
    Mixture3();
    Mixture4();
    Mixture5();
    Additions();
    RoundStep(1);
    RoundStep(2);
    RoundStep(3);
    RoundStep(4);
    RoundStep(5);
  }

  lemma {:induction false} Rounds6To9()
    ensures Rounds(KEY, 9, PLAIN) == INPUT_9
  {
    hide Rounds;
    hide PlusBlock;
    hide ScheduledKey;
    hide SubBlock;
    hide MixBlock;
    hide ShiftBlock;
    Schedule0To5();
    Schedule6To10();
    Rounds1To5();
    Substitutions6To10();
    Mixture6();
    Mixture7();
    Mixture8();
    Mixture9();
    Additions();
    RoundStep(6);
    RoundStep(7);
    RoundStep(8);
    RoundStep(9);
  }

  /** The cipher of the standard encrypts the plain text of the appendix to its cipher text. */
  lemma {:induction false} ExampleIsEncrypted()
    ensures Encrypt(KEY, PLAIN) == CIPHERED
  {
    hide Rounds;
    hide Encrypt;
    hide PlusBlock;
    hide ScheduledKey;
    hide SubBlock;
    hide ShiftBlock;
    Rounds6To9();
    Schedule6To10();
    Substitutions6To10();
    Additions();
    RoundStep(1);
  }

  const KEY_BYTES: seq<bv8> :=
    [0x00, 0x01, 0x02, 0x03, 0x04, 0x05, 0x06, 0x07, 0x08, 0x09, 0x0a, 0x0b, 0x0c, 0x0d, 0x0e, 0x0f]
  const PLAIN_BYTES: seq<bv8> :=
    [0x00, 0x11, 0x22, 0x33, 0x44, 0x55, 0x66, 0x77, 0x88, 0x99, 0xaa, 0xbb, 0xcc, 0xdd, 0xee, 0xff]
  const CIPHER_BYTES: seq<bv8> :=
    [0x69, 0xc4, 0xe0, 0xd8, 0x6a, 0x7b, 0x04, 0x30, 0xd8, 0xcd, 0xb7, 0x80, 0x70, 0xb4, 0xc5, 0x5a]

  lemma {:induction false} BytesOfExample()
    ensures Words(KEY_BYTES, 4) == KEY && BlockOf(PLAIN_BYTES) == PLAIN
  {
    assert Words(KEY_BYTES, 4)[0] == WordAt(KEY_BYTES, 0) && Words(KEY_BYTES, 4)[1] == WordAt(KEY_BYTES, 1);
    assert Words(KEY_BYTES, 4)[2] == WordAt(KEY_BYTES, 2) && Words(KEY_BYTES, 4)[3] == WordAt(KEY_BYTES, 3);
  }

  lemma {:induction false} BytesOfBlock(out: seq<bv8>)
    requires |out| == 16 && BlockOf(out) == CIPHERED
    ensures out == CIPHER_BYTES
  {
  }

  /** Bytes for which the cipher keeps its promise: those of the appendix become those of the appendix. */
  lemma {:induction false} ExampleOnBytes(plainText: seq<bv8>, useKey: seq<bv8>, output: seq<bv8>)
    requires plainText == PLAIN_BYTES && useKey == KEY_BYTES && |output| == 16
    requires BlockOf(output) == Encrypt(Words(useKey, 4), BlockOf(plainText))
    ensures output == CIPHER_BYTES
  {
    hide Encrypt;
    hide BlockOf;
    hide Words;
    BytesOfExample();
    ExampleIsEncrypted();
    BytesOfBlock(output);
  }
}
