/**
 The example of FIPS 197, appendix C.3: the key 00 01 .. 1f takes the block 00 11 .. ff to 8e a2 .. 89. It fixes what
 the laws of Aes leave open: the number of rounds, their order and the round without MixColumns.
 */
module AesExample {
  import opened Aes
  import opened AesTables

  /** Four bytes, high byte first. */
  function Hex(x: bv32): Word {
    Word((x >> 24) as bv8, ((x >> 16) & 0xff) as bv8, ((x >> 8) & 0xff) as bv8, (x & 0xff) as bv8)
  }

  function Four(a: bv32, b: bv32, c: bv32, d: bv32): State {
    State(Hex(a), Hex(b), Hex(c), Hex(d))
  }

  function Key(): (r: seq<Word>)
    ensures |r| == 8
  {
    [Hex(0x00010203), Hex(0x04050607), Hex(0x08090a0b), Hex(0x0c0d0e0f),
     Hex(0x10111213), Hex(0x14151617), Hex(0x18191a1b), Hex(0x1c1d1e1f)]
  }

  function Block(): State {
    Four(0x00112233, 0x44556677, 0x8899aabb, 0xccddeeff)
  }

  // ---------------------------------------------------------------- the key schedule

  /** The round keys: `k_sch` in the standard. */
  function Scheduled(i: nat): State {
    if i < 8 then
      if i < 4 then
        if i < 1 then Four(0x00010203, 0x04050607, 0x08090a0b, 0x0c0d0e0f)
        else if i < 2 then Four(0x10111213, 0x14151617, 0x18191a1b, 0x1c1d1e1f)
        else if i < 3 then Four(0xa573c29f, 0xa176c498, 0xa97fce93, 0xa572c09c)
        else Four(0x1651a8cd, 0x0244beda, 0x1a5da4c1, 0x0640bade)
      else
        if i < 5 then Four(0xae87dff0, 0x0ff11b68, 0xa68ed5fb, 0x03fc1567)
        else if i < 6 then Four(0x6de1f148, 0x6fa54f92, 0x75f8eb53, 0x73b8518d)
        else if i < 7 then Four(0xc656827f, 0xc9a79917, 0x6f294cec, 0x6cd5598b)
        else Four(0x3de23a75, 0x524775e7, 0x27bf9eb4, 0x5407cf39)
    else
      if i < 12 then
        if i < 9 then Four(0x0bdc905f, 0xc27b0948, 0xad5245a4, 0xc1871c2f)
        else if i < 10 then Four(0x45f5a660, 0x17b2d387, 0x300d4d33, 0x640a820a)
        else if i < 11 then Four(0x7ccff71c, 0xbeb4fe54, 0x13e6bbf0, 0xd261a7df)
        else Four(0xf01afafe, 0xe7a82979, 0xd7a5644a, 0xb3afe640)
      else
        if i < 13 then Four(0x2541fe71, 0x9bf50025, 0x8813bbd5, 0x5a721c0a)
        else if i < 14 then Four(0x4e5a6699, 0xa9f24fe0, 0x7e572baa, 0xcdf8cdea)
        else Four(0x24fc79cc, 0xbf0979e9, 0x371ac23c, 0x6d68de36)
  }

  /** A round key from the one two before it and what the last word of the one before it turns into. */
  function Chain(s: State, t: Word): State {
    var c0 := XorW(s.c0, t);
    var c1 := XorW(s.c1, c0);
    var c2 := XorW(s.c2, c1);
    State(c0, c1, c2, XorW(s.c3, c2))
  }

  function Turned(w: Word, r: bv8): Word {
    XorW(SubWord(Sbox, RotWord(w)), Word(r, 0, 0, 0))
  }

  ghost predicate KeyIs(i: nat) {
    RoundKey(Sbox, Key(), i) == Scheduled(i)
  }

  lemma RowStart(e: nat)
    ensures RoundKey(Sbox, Key(), 2 * e + 2) ==
            Chain(RoundKey(Sbox, Key(), 2 * e), Turned(RoundKey(Sbox, Key(), 2 * e + 1).c3, Rcon(e + 1)))
  {
    hide Sbox, XorW, SubWord, RotWord, Rcon, Key;
  }

  lemma RowEnd(e: nat)
    ensures RoundKey(Sbox, Key(), 2 * e + 3) ==
            Chain(RoundKey(Sbox, Key(), 2 * e + 1), SubWord(Sbox, RoundKey(Sbox, Key(), 2 * e + 2).c3))
  {
    hide Sbox, XorW, SubWord, RotWord, Rcon, Key;
  }

  lemma EvenKey(e: nat, r: bv8)
    requires KeyIs(2 * e) && KeyIs(2 * e + 1) && Rcon(e + 1) == r
    requires Scheduled(2 * e + 2) == Chain(Scheduled(2 * e), Turned(Scheduled(2 * e + 1).c3, r))
    ensures KeyIs(2 * e + 2)
  {
    hide Scheduled, RoundKey, Chain, Turned;
    RowStart(e);
  }

  lemma OddKey(e: nat)
    requires KeyIs(2 * e + 1) && KeyIs(2 * e + 2)
    requires Scheduled(2 * e + 3) == Chain(Scheduled(2 * e + 1), SubWord(Sbox, Scheduled(2 * e + 2).c3))
    ensures KeyIs(2 * e + 3)
  {
    hide Scheduled, RoundKey, Chain, SubWord, Sbox;
    RowEnd(e);
  }

  lemma Keys2To5()
    ensures Scheduled(2) == Chain(Scheduled(0), Turned(Scheduled(1).c3, 0x01))
    ensures Scheduled(3) == Chain(Scheduled(1), SubWord(Sbox, Scheduled(2).c3))
    ensures Scheduled(4) == Chain(Scheduled(2), Turned(Scheduled(3).c3, 0x02))
    ensures Scheduled(5) == Chain(Scheduled(3), SubWord(Sbox, Scheduled(4).c3))
  {
  }

  lemma Keys6To8()
    ensures Scheduled(6) == Chain(Scheduled(4), Turned(Scheduled(5).c3, 0x04))
    ensures Scheduled(7) == Chain(Scheduled(5), SubWord(Sbox, Scheduled(6).c3))
    ensures Scheduled(8) == Chain(Scheduled(6), Turned(Scheduled(7).c3, 0x08))
  {
  }

  lemma Keys9To11()
    ensures Scheduled(9) == Chain(Scheduled(7), SubWord(Sbox, Scheduled(8).c3))
    ensures Scheduled(10) == Chain(Scheduled(8), Turned(Scheduled(9).c3, 0x10))
    ensures Scheduled(11) == Chain(Scheduled(9), SubWord(Sbox, Scheduled(10).c3))
  {
  }

  lemma Keys12To14()
    ensures Scheduled(12) == Chain(Scheduled(10), Turned(Scheduled(11).c3, 0x20))
    ensures Scheduled(13) == Chain(Scheduled(11), SubWord(Sbox, Scheduled(12).c3))
    ensures Scheduled(14) == Chain(Scheduled(12), Turned(Scheduled(13).c3, 0x40))
  {
  }

  lemma FirstKeys()
    ensures KeyIs(0) && KeyIs(1)
  {
  }

  /** The round constants: the powers of x from 1 to x^6. */
  lemma RoundConstants()
    ensures Rcon(1) == 1 && Rcon(2) == 2 && Rcon(3) == 4 && Rcon(4) == 8 && Rcon(5) == 16 && Rcon(6) == 32 &&
            Rcon(7) == 64
  {
  }

  /** The whole key schedule of the example. */
  lemma KeySchedule(i: nat)
    requires i <= 14
    ensures KeyIs(i)
  {
    hide KeyIs, Scheduled, Chain, Turned, SubWord, Rcon;
    RoundConstants();
    Keys2To5();
    Keys6To8();
    Keys9To11();
    Keys12To14();
    FirstKeys();
    EvenKey(0, 1);
    OddKey(0);
    EvenKey(1, 2);
    OddKey(1);
    EvenKey(2, 4);
    OddKey(2);
    EvenKey(3, 8);
    OddKey(3);
    EvenKey(4, 16);
    OddKey(4);
    EvenKey(5, 32);
    OddKey(5);
    EvenKey(6, 64);
  }

  /** The first expanded word, w[8]. */
  lemma FirstExpanded()
    ensures KeyWord(Sbox, Key(), 1, 0) == Word(0xa5, 0x73, 0xc2, 0x9f)
  {
    hide KeyWord, Sbox, Key, RoundKey;
    KeySchedule(2);
    SecondRow(1);
  }

  lemma SecondRow(e: nat)
    ensures RoundKey(Sbox, Key(), 2 * e).c0 == KeyWord(Sbox, Key(), e, 0)
  {
    hide KeyWord, Sbox, Key;
  }

  // ---------------------------------------------------------------- the rounds

  /** The states: the block with the first round key, then the `start` of each round of the standard and the output. */
  function Stated(i: nat): State {
    if i < 8 then
      if i < 4 then
        if i < 1 then Four(0x00102030, 0x40506070, 0x8090a0b0, 0xc0d0e0f0)
        else if i < 2 then Four(0x4f637606, 0x43e0aa85, 0xefa72132, 0x01a4e705)
        else if i < 3 then Four(0x1859fbc2, 0x8a1c00a0, 0x78ed8aad, 0xc42f6109)
        else Four(0x975c66c1, 0xcb9f3fa8, 0xa93a28df, 0x8ee10f63)
      else
        if i < 5 then Four(0x1c05f271, 0xa417e04f, 0xf921c5c1, 0x04701554)
        else if i < 6 then Four(0xc357aae1, 0x1b45b7b0, 0xa2c7bd28, 0xa8dc99fa)
        else if i < 7 then Four(0x7f074143, 0xcb4e243e, 0xc10c815d, 0x8375d54c)
        else Four(0xd653a469, 0x6ca0bc0f, 0x5acaab5d, 0xb96c5e7d)
    else
      if i < 12 then
        if i < 9 then Four(0x5aa85839, 0x5fd28d7d, 0x05e1a388, 0x68f3b9c5)
        else if i < 10 then Four(0x4a824851, 0xc57e7e47, 0x643de50c, 0x2af3e8c9)
        else if i < 11 then Four(0xc14907f6, 0xca3b3aa0, 0x70e9aa31, 0x3b52b5ec)
        else Four(0x5f9c6abf, 0xbac634aa, 0x50409fa7, 0x66677653)
      else
        if i < 13 then Four(0x51660495, 0x43539503, 0x14fb86e4, 0x01922521)
        else if i < 14 then Four(0x627bceb9, 0x999d5aaa, 0xc945ecf4, 0x23f56da5)
        else Four(0x8ea2b7ca, 0x516745bf, 0xeafc4990, 0x4b496089)
  }

  /** One round but the last. */
  function Turn(s: State, k: State): State {
    AddRoundKeys(MixWith(MixColumn, Shift(SubState(Sbox, s))), k)
  }

  ghost predicate StateIs(i: nat) {
    After(Sbox, Key(), Block(), i) == Stated(i)
  }

  lemma OneRound(i: nat)
    requires i < 14 && StateIs(i)
    requires Stated(i + 1) == if i < 13 then Turn(Stated(i), Scheduled(i + 1))
                              else AddRoundKeys(Shift(SubState(Sbox, Stated(i))), Scheduled(i + 1))
    ensures StateIs(i + 1)
  {
    hide Scheduled, Stated, RoundKey, AddRoundKeys, Shift, SubState, Sbox;
    KeySchedule(i + 1);
    var t := Shift(SubState(Sbox, After(Sbox, Key(), Block(), i)));
    assert Before(Sbox, Key(), Block(), i + 1) == if i + 1 < 14 then MixWith(MixColumn, t) else t;
    assert After(Sbox, Key(), Block(), i + 1) ==
           AddRoundKeys(Before(Sbox, Key(), Block(), i + 1), RoundKey(Sbox, Key(), i + 1));
  }

  lemma Rounds1()
    ensures Stated(1) == Turn(Stated(0), Scheduled(1))
    ensures Stated(2) == Turn(Stated(1), Scheduled(2))
  {
  }

  lemma Rounds3()
    ensures Stated(3) == Turn(Stated(2), Scheduled(3))
    ensures Stated(4) == Turn(Stated(3), Scheduled(4))
  {
  }

  lemma Rounds5()
    ensures Stated(5) == Turn(Stated(4), Scheduled(5))
    ensures Stated(6) == Turn(Stated(5), Scheduled(6))
  {
  }

  lemma Rounds7()
    ensures Stated(7) == Turn(Stated(6), Scheduled(7))
    ensures Stated(8) == Turn(Stated(7), Scheduled(8))
  {
  }

  lemma Rounds9()
    ensures Stated(9) == Turn(Stated(8), Scheduled(9))
    ensures Stated(10) == Turn(Stated(9), Scheduled(10))
  {
  }

  lemma Rounds11()
    ensures Stated(11) == Turn(Stated(10), Scheduled(11))
    ensures Stated(12) == Turn(Stated(11), Scheduled(12))
  {
  }

  lemma Rounds13()
    ensures Stated(13) == Turn(Stated(12), Scheduled(13))
    ensures Stated(14) == AddRoundKeys(Shift(SubState(Sbox, Stated(13))), Scheduled(14))
  {
  }

  lemma FirstState()
    ensures StateIs(0)
  {
    KeySchedule(0);
  }

  lemma Rounds(i: nat)
    requires i <= 14
    ensures StateIs(i)
  {
    hide StateIs, Stated, Scheduled, Turn, AddRoundKeys, Shift, SubState, Sbox;
    FirstState();
    Rounds1();
    Rounds3();
    Rounds5();
    Rounds7();
    Rounds9();
    Rounds11();
    Rounds13();
    OneRound(0);
    OneRound(1);
    OneRound(2);
    OneRound(3);
    OneRound(4);
    OneRound(5);
    OneRound(6);
    OneRound(7);
    OneRound(8);
    OneRound(9);
    OneRound(10);
    OneRound(11);
    OneRound(12);
    OneRound(13);
  }

  function KeyBytes(): (r: seq<bv8>)
    ensures |r| == 32
  {
    [0x00, 0x01, 0x02, 0x03, 0x04, 0x05, 0x06, 0x07, 0x08, 0x09, 0x0a, 0x0b, 0x0c, 0x0d, 0x0e, 0x0f,
     0x10, 0x11, 0x12, 0x13, 0x14, 0x15, 0x16, 0x17, 0x18, 0x19, 0x1a, 0x1b, 0x1c, 0x1d, 0x1e, 0x1f]
  }

  function BlockBytes(): (r: seq<bv8>)
    ensures |r| == 16
  {
    [0x00, 0x11, 0x22, 0x33, 0x44, 0x55, 0x66, 0x77, 0x88, 0x99, 0xaa, 0xbb, 0xcc, 0xdd, 0xee, 0xff]
  }

  lemma InWords()
    ensures KeyFrom(KeyBytes()) == Key() && StateFrom(BlockBytes()) == Block()
  {
  }

  lemma InBytes()
    ensures BytesOf(Stated(14)) ==
            [0x8e, 0xa2, 0xb7, 0xca, 0x51, 0x67, 0x45, 0xbf, 0xea, 0xfc, 0x49, 0x90, 0x4b, 0x49, 0x60, 0x89]
  {
  }

  /** The ciphertext of the example. */
  lemma Published()
    ensures Encrypted(Sbox, KeyBytes(), BlockBytes()) ==
            [0x8e, 0xa2, 0xb7, 0xca, 0x51, 0x67, 0x45, 0xbf, 0xea, 0xfc, 0x49, 0x90, 0x4b, 0x49, 0x60, 0x89]
  {
    hide Stated, Sbox, Key, Block, KeyFrom, StateFrom, BytesOf, KeyBytes, BlockBytes;
    InWords();
    Rounds(14);
    InBytes();
  }
}