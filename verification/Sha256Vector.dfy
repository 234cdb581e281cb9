/** The digest of "abc", round by round: one block of the specification worked out. */
module Sha256Vector {
  import opened Bytes
  import opened Sha256Spec

  const ABC: seq<Byte> := [0x61, 0x62, 0x63]

  /** The padded message as words. */
  ghost predicate HoldsAbc(block: seq<Byte>)
    requires |block| == 64
  {
    && BlockWord(block, 0) == 0x61626380
    && (forall t :: 1 <= t < 15 ==> BlockWord(block, t) == 0)
    && BlockWord(block, 15) == 0x18
  }

  lemma AbcWords()
    ensures WordOf(0x61, 0x62, 0x63, 0x80) == 0x61626380 && WordOf(0, 0, 0, 0) == 0 && WordOf(0, 0, 0, 0x18) == 0x18
  {}

  lemma AbcLength()
    ensures BigEndian64(24) == [0, 0, 0, 0, 0, 0, 0, 0x18]
  {
    forall i | 0 <= i < 7 ensures LengthOctet(24, i) == 0 { HighOctet(24, i); }
    assert Power256(0) == 1;
  }

  lemma HighOctet(v: nat, i: nat)
    requires v < 0x100 && i < 7
    ensures LengthOctet(v, i) == 0
  {
    assert Power256(7 - i) >= 0x100;
  }

  lemma PaddedAbc()
    ensures |PadWith(ABC, 24)| == 64 && HoldsAbc(PadWith(ABC, 24))
  {
    AbcLength();
    AbcWords();
    hide WordOf, BigEndian64;
    var p := PadWith(ABC, 24);
    assert p[0] == 0x61 && p[1] == 0x62 && p[2] == 0x63 && p[3] == 0x80;
    assert forall i :: 4 <= i < 63 ==> p[i] == 0;
    assert p[63] == 0x18;
  }

  // The schedule.

  lemma ScheduleTo16(block: seq<Byte>)
    requires |block| == 64 && HoldsAbc(block)
    ensures Schedule(block, 0) == 0x61626380 && Schedule(block, 15) == 0x18
    ensures forall t :: 1 <= t < 15 ==> Schedule(block, t) == 0
  {
    hide BlockWord;
  }

  lemma ScheduleTo24(block: seq<Byte>)
    requires |block| == 64 && HoldsAbc(block)
    ensures Schedule(block, 16) == 0x61626380 && Schedule(block, 17) == 0x000f0000
    ensures Schedule(block, 18) == 0x7da86405 && Schedule(block, 19) == 0x600003c6
    ensures Schedule(block, 20) == 0x3e9d7b78 && Schedule(block, 21) == 0x0183fc00
    ensures Schedule(block, 22) == 0x12dcbfdb && Schedule(block, 23) == 0xe2e2c38e
  {
    hide HoldsAbc;
    ScheduleTo16(block);
  }

  lemma ScheduleTo32(block: seq<Byte>)
    requires |block| == 64 && HoldsAbc(block)
    ensures Schedule(block, 24) == 0xc8215c1a && Schedule(block, 25) == 0xb73679a2
    ensures Schedule(block, 26) == 0xe5bc3909 && Schedule(block, 27) == 0x32663c5b
    ensures Schedule(block, 28) == 0x9d209d67 && Schedule(block, 29) == 0xec8726cb
    ensures Schedule(block, 30) == 0x702138a4 && Schedule(block, 31) == 0xd3b7973b
  {
    hide HoldsAbc;
    ScheduleTo16(block);
    ScheduleTo24(block);
  }

  lemma ScheduleTo40(block: seq<Byte>)
    requires |block| == 64 && HoldsAbc(block)
    ensures Schedule(block, 32) == 0x93f5997f && Schedule(block, 33) == 0x3b68ba73
    ensures Schedule(block, 34) == 0xaff4ffc1 && Schedule(block, 35) == 0xf10a5c62
    ensures Schedule(block, 36) == 0x0a8b3996 && Schedule(block, 37) == 0x72af830a
    ensures Schedule(block, 38) == 0x9409e33e && Schedule(block, 39) == 0x24641522
  {
    hide HoldsAbc;
    ScheduleTo16(block);
    ScheduleTo24(block);
    ScheduleTo32(block);
  }

  lemma ScheduleTo48(block: seq<Byte>)
    requires |block| == 64 && HoldsAbc(block)
    ensures Schedule(block, 40) == 0x9f47bf94 && Schedule(block, 41) == 0xf0a64f5a
    ensures Schedule(block, 42) == 0x3e246a79 && Schedule(block, 43) == 0x27333ba3
    ensures Schedule(block, 44) == 0x0c4763f2 && Schedule(block, 45) == 0x840abf27
    ensures Schedule(block, 46) == 0x7a290d5d && Schedule(block, 47) == 0x065c43da
  {
    hide HoldsAbc;
    ScheduleTo24(block);
    ScheduleTo32(block);
    ScheduleTo40(block);
  }

  lemma ScheduleTo56(block: seq<Byte>)
    requires |block| == 64 && HoldsAbc(block)
    ensures Schedule(block, 48) == 0xfb3e89cb && Schedule(block, 49) == 0xcc7617db
    ensures Schedule(block, 50) == 0xb9e66c34 && Schedule(block, 51) == 0xa9993667
    ensures Schedule(block, 52) == 0x84badedd && Schedule(block, 53) == 0xc21462bc
    ensures Schedule(block, 54) == 0x1487472c && Schedule(block, 55) == 0xb20f7a99
  {
    hide HoldsAbc;
    ScheduleTo32(block);
    ScheduleTo40(block);
    ScheduleTo48(block);
  }

  lemma ScheduleTo64(block: seq<Byte>)
    requires |block| == 64 && HoldsAbc(block)
    ensures Schedule(block, 56) == 0xef57b9cd && Schedule(block, 57) == 0xebe6b238
    ensures Schedule(block, 58) == 0x9fe3095e && Schedule(block, 59) == 0x78bc8d4b
    ensures Schedule(block, 60) == 0xa43fcf15 && Schedule(block, 61) == 0x668b2ff8
    ensures Schedule(block, 62) == 0xeeaba2cc && Schedule(block, 63) == 0x12b1edeb
  {
    hide HoldsAbc;
    ScheduleTo40(block);
    ScheduleTo48(block);
    ScheduleTo56(block);
  }

  // The rounds.

  lemma WordsTo8()
    ensures ToWord(0x428a2f98) == 0x428a2f98 && ToWord(0x71374491) == 0x71374491
    ensures ToWord(0xb5c0fbcf) == 0xb5c0fbcf && ToWord(0xe9b5dba5) == 0xe9b5dba5
    ensures ToWord(0x3956c25b) == 0x3956c25b && ToWord(0x59f111f1) == 0x59f111f1
    ensures ToWord(0x923f82a4) == 0x923f82a4 && ToWord(0xab1c5ed5) == 0xab1c5ed5
  {}

  lemma WordsTo16()
    ensures ToWord(0xd807aa98) == 0xd807aa98 && ToWord(0x12835b01) == 0x12835b01
    ensures ToWord(0x243185be) == 0x243185be && ToWord(0x550c7dc3) == 0x550c7dc3
    ensures ToWord(0x72be5d74) == 0x72be5d74 && ToWord(0x80deb1fe) == 0x80deb1fe
    ensures ToWord(0x9bdc06a7) == 0x9bdc06a7 && ToWord(0xc19bf174) == 0xc19bf174
  {}

  lemma WordsTo24()
    ensures ToWord(0xe49b69c1) == 0xe49b69c1 && ToWord(0xefbe4786) == 0xefbe4786
    ensures ToWord(0x0fc19dc6) == 0x0fc19dc6 && ToWord(0x240ca1cc) == 0x240ca1cc
    ensures ToWord(0x2de92c6f) == 0x2de92c6f && ToWord(0x4a7484aa) == 0x4a7484aa
    ensures ToWord(0x5cb0a9dc) == 0x5cb0a9dc && ToWord(0x76f988da) == 0x76f988da
  {}

  lemma WordsTo32()
    ensures ToWord(0x983e5152) == 0x983e5152 && ToWord(0xa831c66d) == 0xa831c66d
    ensures ToWord(0xb00327c8) == 0xb00327c8 && ToWord(0xbf597fc7) == 0xbf597fc7
    ensures ToWord(0xc6e00bf3) == 0xc6e00bf3 && ToWord(0xd5a79147) == 0xd5a79147
    ensures ToWord(0x06ca6351) == 0x06ca6351 && ToWord(0x14292967) == 0x14292967
  {}

  lemma WordsTo40()
    ensures ToWord(0x27b70a85) == 0x27b70a85 && ToWord(0x2e1b2138) == 0x2e1b2138
    ensures ToWord(0x4d2c6dfc) == 0x4d2c6dfc && ToWord(0x53380d13) == 0x53380d13
    ensures ToWord(0x650a7354) == 0x650a7354 && ToWord(0x766a0abb) == 0x766a0abb
    ensures ToWord(0x81c2c92e) == 0x81c2c92e && ToWord(0x92722c85) == 0x92722c85
  {}

  lemma WordsTo48()
    ensures ToWord(0xa2bfe8a1) == 0xa2bfe8a1 && ToWord(0xa81a664b) == 0xa81a664b
    ensures ToWord(0xc24b8b70) == 0xc24b8b70 && ToWord(0xc76c51a3) == 0xc76c51a3
    ensures ToWord(0xd192e819) == 0xd192e819 && ToWord(0xd6990624) == 0xd6990624
    ensures ToWord(0xf40e3585) == 0xf40e3585 && ToWord(0x106aa070) == 0x106aa070
  {}

  lemma WordsTo56()
    ensures ToWord(0x19a4c116) == 0x19a4c116 && ToWord(0x1e376c08) == 0x1e376c08
    ensures ToWord(0x2748774c) == 0x2748774c && ToWord(0x34b0bcb5) == 0x34b0bcb5
    ensures ToWord(0x391c0cb3) == 0x391c0cb3 && ToWord(0x4ed8aa4a) == 0x4ed8aa4a
    ensures ToWord(0x5b9cca4f) == 0x5b9cca4f && ToWord(0x682e6ff3) == 0x682e6ff3
  {}

  lemma WordsTo64()
    ensures ToWord(0x748f82ee) == 0x748f82ee && ToWord(0x78a5636f) == 0x78a5636f
    ensures ToWord(0x84c87814) == 0x84c87814 && ToWord(0x8cc70208) == 0x8cc70208
    ensures ToWord(0x90befffa) == 0x90befffa && ToWord(0xa4506ceb) == 0xa4506ceb
    ensures ToWord(0xbef9a3f7) == 0xbef9a3f7 && ToWord(0xc67178f2) == 0xc67178f2
  {}

  lemma RoundsTo8(block: seq<Byte>)
    requires |block| == 64 && HoldsAbc(block)
    ensures Rounds(INITIAL_HASH, block, 8) ==
            Working(0x85a07b5f, 0xe5030380, 0x2b4209f5, 0x04409a6a, 0x0c657a79, 0x9b27a401, 0x714260ad, 0x43ada245)
  {
    hide HoldsAbc, Schedule, ToWord;
    ScheduleTo16(block);
    WordsTo8();
    var h := INITIAL_HASH;
    assert Rounds(h, block, 1) == Working(0x5d6aebcd, 0x6a09e667, 0xbb67ae85, 0x3c6ef372, 0xfa2a4622, 0x510e527f, 0x9b05688c, 0x1f83d9ab);
    assert Rounds(h, block, 2) == Working(0x5a6ad9ad, 0x5d6aebcd, 0x6a09e667, 0xbb67ae85, 0x78ce7989, 0xfa2a4622, 0x510e527f, 0x9b05688c);
    assert Rounds(h, block, 3) == Working(0xc8c347a7, 0x5a6ad9ad, 0x5d6aebcd, 0x6a09e667, 0xf92939eb, 0x78ce7989, 0xfa2a4622, 0x510e527f);
    assert Rounds(h, block, 4) == Working(0xd550f666, 0xc8c347a7, 0x5a6ad9ad, 0x5d6aebcd, 0x24e00850, 0xf92939eb, 0x78ce7989, 0xfa2a4622);
    assert Rounds(h, block, 5) == Working(0x04409a6a, 0xd550f666, 0xc8c347a7, 0x5a6ad9ad, 0x43ada245, 0x24e00850, 0xf92939eb, 0x78ce7989);
    assert Rounds(h, block, 6) == Working(0x2b4209f5, 0x04409a6a, 0xd550f666, 0xc8c347a7, 0x714260ad, 0x43ada245, 0x24e00850, 0xf92939eb);
    assert Rounds(h, block, 7) == Working(0xe5030380, 0x2b4209f5, 0x04409a6a, 0xd550f666, 0x9b27a401, 0x714260ad, 0x43ada245, 0x24e00850);
  }

  lemma RoundsTo16(block: seq<Byte>)
    requires |block| == 64 && HoldsAbc(block)
    ensures Rounds(INITIAL_HASH, block, 16) ==
            Working(0xb0fa238e, 0xc0645fde, 0xd932eb16, 0x87912990, 0x07590dcd, 0x0b92f20c, 0x745a48de, 0x1e578218)
  {
    hide HoldsAbc, Schedule, ToWord;
    ScheduleTo16(block);
    WordsTo16();
    RoundsTo8(block);
    var h := INITIAL_HASH;
    assert Rounds(h, block, 9) == Working(0x8e04ecb9, 0x85a07b5f, 0xe5030380, 0x2b4209f5, 0x32ca2d8c, 0x0c657a79, 0x9b27a401, 0x714260ad);
    assert Rounds(h, block, 10) == Working(0x8c87346b, 0x8e04ecb9, 0x85a07b5f, 0xe5030380, 0x1cc92596, 0x32ca2d8c, 0x0c657a79, 0x9b27a401);
    assert Rounds(h, block, 11) == Working(0x4798a3f4, 0x8c87346b, 0x8e04ecb9, 0x85a07b5f, 0x436b23e8, 0x1cc92596, 0x32ca2d8c, 0x0c657a79);
    assert Rounds(h, block, 12) == Working(0xf71fc5a9, 0x4798a3f4, 0x8c87346b, 0x8e04ecb9, 0x816fd6e9, 0x436b23e8, 0x1cc92596, 0x32ca2d8c);
    assert Rounds(h, block, 13) == Working(0x87912990, 0xf71fc5a9, 0x4798a3f4, 0x8c87346b, 0x1e578218, 0x816fd6e9, 0x436b23e8, 0x1cc92596);
    assert Rounds(h, block, 14) == Working(0xd932eb16, 0x87912990, 0xf71fc5a9, 0x4798a3f4, 0x745a48de, 0x1e578218, 0x816fd6e9, 0x436b23e8);
    assert Rounds(h, block, 15) == Working(0xc0645fde, 0xd932eb16, 0x87912990, 0xf71fc5a9, 0x0b92f20c, 0x745a48de, 0x1e578218, 0x816fd6e9);
  }

  lemma RoundsTo24(block: seq<Byte>)
    requires |block| == 64 && HoldsAbc(block)
    ensures Rounds(INITIAL_HASH, block, 24) ==
            Working(0xc5d53d8d, 0xa7a3623f, 0xc2606d6d, 0x9dc68b63, 0xaa47c347, 0x49f5114a, 0xe1257970, 0x8ada8930)
  {
    hide HoldsAbc, Schedule, ToWord;
    ScheduleTo24(block);
    WordsTo24();
    RoundsTo16(block);
    var h := INITIAL_HASH;
    assert Rounds(h, block, 17) == Working(0x21da9a9b, 0xb0fa238e, 0xc0645fde, 0xd932eb16, 0x8034229c, 0x07590dcd, 0x0b92f20c, 0x745a48de);
    assert Rounds(h, block, 18) == Working(0xc2fbd9d1, 0x21da9a9b, 0xb0fa238e, 0xc0645fde, 0x846ee454, 0x8034229c, 0x07590dcd, 0x0b92f20c);
    assert Rounds(h, block, 19) == Working(0xfe777bbf, 0xc2fbd9d1, 0x21da9a9b, 0xb0fa238e, 0xcc899961, 0x846ee454, 0x8034229c, 0x07590dcd);
    assert Rounds(h, block, 20) == Working(0xe1f20c33, 0xfe777bbf, 0xc2fbd9d1, 0x21da9a9b, 0xb0638179, 0xcc899961, 0x846ee454, 0x8034229c);
    assert Rounds(h, block, 21) == Working(0x9dc68b63, 0xe1f20c33, 0xfe777bbf, 0xc2fbd9d1, 0x8ada8930, 0xb0638179, 0xcc899961, 0x846ee454);
    assert Rounds(h, block, 22) == Working(0xc2606d6d, 0x9dc68b63, 0xe1f20c33, 0xfe777bbf, 0xe1257970, 0x8ada8930, 0xb0638179, 0xcc899961);
    assert Rounds(h, block, 23) == Working(0xa7a3623f, 0xc2606d6d, 0x9dc68b63, 0xe1f20c33, 0x49f5114a, 0xe1257970, 0x8ada8930, 0xb0638179);
  }

  lemma RoundsTo32(block: seq<Byte>)
    requires |block| == 64 && HoldsAbc(block)
    ensures Rounds(INITIAL_HASH, block, 32) ==
            Working(0x73b33bf5, 0xea992a22, 0xa0060b30, 0x363482c9, 0xba591112, 0x0109ab3a, 0xade79437, 0x6112a3b7)
  {
    hide HoldsAbc, Schedule, ToWord;
    ScheduleTo32(block);
    WordsTo32();
    RoundsTo24(block);
    var h := INITIAL_HASH;
    assert Rounds(h, block, 25) == Working(0x1c2c2838, 0xc5d53d8d, 0xa7a3623f, 0xc2606d6d, 0x2823ef91, 0xaa47c347, 0x49f5114a, 0xe1257970);
    assert Rounds(h, block, 26) == Working(0xcde8037d, 0x1c2c2838, 0xc5d53d8d, 0xa7a3623f, 0x14383d8e, 0x2823ef91, 0xaa47c347, 0x49f5114a);
    assert Rounds(h, block, 27) == Working(0xb62ec4bc, 0xcde8037d, 0x1c2c2838, 0xc5d53d8d, 0xc74c6516, 0x14383d8e, 0x2823ef91, 0xaa47c347);
    assert Rounds(h, block, 28) == Working(0x77d37528, 0xb62ec4bc, 0xcde8037d, 0x1c2c2838, 0xedffbff8, 0xc74c6516, 0x14383d8e, 0x2823ef91);
    assert Rounds(h, block, 29) == Working(0x363482c9, 0x77d37528, 0xb62ec4bc, 0xcde8037d, 0x6112a3b7, 0xedffbff8, 0xc74c6516, 0x14383d8e);
    assert Rounds(h, block, 30) == Working(0xa0060b30, 0x363482c9, 0x77d37528, 0xb62ec4bc, 0xade79437, 0x6112a3b7, 0xedffbff8, 0xc74c6516);
    assert Rounds(h, block, 31) == Working(0xea992a22, 0xa0060b30, 0x363482c9, 0x77d37528, 0x0109ab3a, 0xade79437, 0x6112a3b7, 0xedffbff8);
  }

  lemma RoundsTo40(block: seq<Byte>)
    requires |block| == 64 && HoldsAbc(block)
    ensures Rounds(INITIAL_HASH, block, 40) ==
            Working(0x79ea687a, 0x6dc57a8a, 0x34df1604, 0x41a65cb1, 0x1efbc0a0, 0xf0781bc8, 0xa507a53d, 0x0772a26b)
  {
    hide HoldsAbc, Schedule, ToWord;
    ScheduleTo40(block);
    WordsTo40();
    RoundsTo32(block);
    var h := INITIAL_HASH;
    assert Rounds(h, block, 33) == Working(0x98e12507, 0x73b33bf5, 0xea992a22, 0xa0060b30, 0x9cd9f5f6, 0xba591112, 0x0109ab3a, 0xade79437);
    assert Rounds(h, block, 34) == Working(0xfe604df5, 0x98e12507, 0x73b33bf5, 0xea992a22, 0x59249dd3, 0x9cd9f5f6, 0xba591112, 0x0109ab3a);
    assert Rounds(h, block, 35) == Working(0xa9a7738c, 0xfe604df5, 0x98e12507, 0x73b33bf5, 0x085f3833, 0x59249dd3, 0x9cd9f5f6, 0xba591112);
    assert Rounds(h, block, 36) == Working(0x65a0cfe4, 0xa9a7738c, 0xfe604df5, 0x98e12507, 0xf4b002d6, 0x085f3833, 0x59249dd3, 0x9cd9f5f6);
    assert Rounds(h, block, 37) == Working(0x41a65cb1, 0x65a0cfe4, 0xa9a7738c, 0xfe604df5, 0x0772a26b, 0xf4b002d6, 0x085f3833, 0x59249dd3);
    assert Rounds(h, block, 38) == Working(0x34df1604, 0x41a65cb1, 0x65a0cfe4, 0xa9a7738c, 0xa507a53d, 0x0772a26b, 0xf4b002d6, 0x085f3833);
    assert Rounds(h, block, 39) == Working(0x6dc57a8a, 0x34df1604, 0x41a65cb1, 0x65a0cfe4, 0xf0781bc8, 0xa507a53d, 0x0772a26b, 0xf4b002d6);
  }

  lemma RoundsTo48(block: seq<Byte>)
    requires |block| == 64 && HoldsAbc(block)
    ensures Rounds(INITIAL_HASH, block, 48) ==
            Working(0x4172328d, 0xa14c14b0, 0x72ab4b91, 0x26628815, 0xfecf0bc6, 0xd57b94a9, 0xb7755da1, 0xa80f11f0)
  {
    hide HoldsAbc, Schedule, ToWord;
    ScheduleTo48(block);
    WordsTo48();
    RoundsTo40(block);
    var h := INITIAL_HASH;
    assert Rounds(h, block, 41) == Working(0xd6670766, 0x79ea687a, 0x6dc57a8a, 0x34df1604, 0x26352d63, 0x1efbc0a0, 0xf0781bc8, 0xa507a53d);
    assert Rounds(h, block, 42) == Working(0xdf46652f, 0xd6670766, 0x79ea687a, 0x6dc57a8a, 0x838b2711, 0x26352d63, 0x1efbc0a0, 0xf0781bc8);
    assert Rounds(h, block, 43) == Working(0x17aa0dfe, 0xdf46652f, 0xd6670766, 0x79ea687a, 0xdecd4715, 0x838b2711, 0x26352d63, 0x1efbc0a0);
    assert Rounds(h, block, 44) == Working(0x9d4baf93, 0x17aa0dfe, 0xdf46652f, 0xd6670766, 0xfda24c2e, 0xdecd4715, 0x838b2711, 0x26352d63);
    assert Rounds(h, block, 45) == Working(0x26628815, 0x9d4baf93, 0x17aa0dfe, 0xdf46652f, 0xa80f11f0, 0xfda24c2e, 0xdecd4715, 0x838b2711);
    assert Rounds(h, block, 46) == Working(0x72ab4b91, 0x26628815, 0x9d4baf93, 0x17aa0dfe, 0xb7755da1, 0xa80f11f0, 0xfda24c2e, 0xdecd4715);
    assert Rounds(h, block, 47) == Working(0xa14c14b0, 0x72ab4b91, 0x26628815, 0x9d4baf93, 0xd57b94a9, 0xb7755da1, 0xa80f11f0, 0xfda24c2e);
  }

  lemma RoundsTo56(block: seq<Byte>)
    requires |block| == 64 && HoldsAbc(block)
    ensures Rounds(INITIAL_HASH, block, 56) ==
            Working(0x38cc9913, 0x3ec45cdb, 0xf5702fdb, 0x101fd28f, 0x54cb266b, 0xe50e1b4f, 0x9f4787c3, 0x529e7d00)
  {
    hide HoldsAbc, Schedule, ToWord;
    ScheduleTo56(block);
    WordsTo56();
    RoundsTo48(block);
    var h := INITIAL_HASH;
    assert Rounds(h, block, 49) == Working(0x05757ceb, 0x4172328d, 0xa14c14b0, 0x72ab4b91, 0xbd714038, 0xfecf0bc6, 0xd57b94a9, 0xb7755da1);
    assert Rounds(h, block, 50) == Working(0xf11bfaa8, 0x05757ceb, 0x4172328d, 0xa14c14b0, 0x6e5c390c, 0xbd714038, 0xfecf0bc6, 0xd57b94a9);
    assert Rounds(h, block, 51) == Working(0x7a0508a1, 0xf11bfaa8, 0x05757ceb, 0x4172328d, 0x52f1ccf7, 0x6e5c390c, 0xbd714038, 0xfecf0bc6);
    assert Rounds(h, block, 52) == Working(0x886e7a22, 0x7a0508a1, 0xf11bfaa8, 0x05757ceb, 0x49231c1e, 0x52f1ccf7, 0x6e5c390c, 0xbd714038);
    assert Rounds(h, block, 53) == Working(0x101fd28f, 0x886e7a22, 0x7a0508a1, 0xf11bfaa8, 0x529e7d00, 0x49231c1e, 0x52f1ccf7, 0x6e5c390c);
    assert Rounds(h, block, 54) == Working(0xf5702fdb, 0x101fd28f, 0x886e7a22, 0x7a0508a1, 0x9f4787c3, 0x529e7d00, 0x49231c1e, 0x52f1ccf7);
    assert Rounds(h, block, 55) == Working(0x3ec45cdb, 0xf5702fdb, 0x101fd28f, 0x886e7a22, 0xe50e1b4f, 0x9f4787c3, 0x529e7d00, 0x49231c1e);
  }

  lemma RoundsTo64(block: seq<Byte>)
    requires |block| == 64 && HoldsAbc(block)
    ensures Rounds(INITIAL_HASH, block, 64) ==
            Working(0x506e3058, 0xd39a2165, 0x04d24d6c, 0xb85e2ce9, 0x5ef50f24, 0xfb121210, 0x948d25b6, 0x961f4894)
  {
    hide HoldsAbc, Schedule, ToWord;
    ScheduleTo64(block);
    WordsTo64();
    RoundsTo56(block);
    var h := INITIAL_HASH;
    assert Rounds(h, block, 57) == Working(0xfcd1887b, 0x38cc9913, 0x3ec45cdb, 0xf5702fdb, 0x9b5e906c, 0x54cb266b, 0xe50e1b4f, 0x9f4787c3);
    assert Rounds(h, block, 58) == Working(0xc062d46f, 0xfcd1887b, 0x38cc9913, 0x3ec45cdb, 0x7e44008e, 0x9b5e906c, 0x54cb266b, 0xe50e1b4f);
    assert Rounds(h, block, 59) == Working(0xffb70472, 0xc062d46f, 0xfcd1887b, 0x38cc9913, 0x6d83bfc6, 0x7e44008e, 0x9b5e906c, 0x54cb266b);
    assert Rounds(h, block, 60) == Working(0xb6ae8fff, 0xffb70472, 0xc062d46f, 0xfcd1887b, 0xb21bad3d, 0x6d83bfc6, 0x7e44008e, 0x9b5e906c);
    assert Rounds(h, block, 61) == Working(0xb85e2ce9, 0xb6ae8fff, 0xffb70472, 0xc062d46f, 0x961f4894, 0xb21bad3d, 0x6d83bfc6, 0x7e44008e);
    assert Rounds(h, block, 62) == Working(0x04d24d6c, 0xb85e2ce9, 0xb6ae8fff, 0xffb70472, 0x948d25b6, 0x961f4894, 0xb21bad3d, 0x6d83bfc6);
    assert Rounds(h, block, 63) == Working(0xd39a2165, 0x04d24d6c, 0xb85e2ce9, 0xb6ae8fff, 0xfb121210, 0x948d25b6, 0x961f4894, 0xb21bad3d);
  }

  /** The digest of "abc". */
  lemma DigestOfAbc()
    ensures Digest(ABC) == [0xba7816bf, 0x8f01cfea, 0x414140de, 0x5dae2223, 0xb00361a3, 0x96177a9c, 0xb410ff61, 0xf20015ad]
  {
    hide Rounds, BigEndian64, Zeros, ZeroCount, HoldsAbc;
    PaddedAbc();
    var block := PadWith(ABC, 24);
    RoundsTo64(block);
    assert block[..0] == [] && block[0..] == block && Fold([]) == INITIAL_HASH;
    assert Fold(block) == Compress(INITIAL_HASH, block);
  }
}
